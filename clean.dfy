/**
 * remove_nan_and_zeroes_from_columns: keep the readings whose product rate
 * is present and strictly positive, dropping zero-production and missing
 * periods.
 */
module Clean {
  import opened Wrappers
  import opened Readings
  import opened Select

  /** The mask `df[variable].notnull() & (df[variable] > 0)`. */
  predicate HasPositiveRate(x: Reading)
  {
    x.rate.Some? && x.rate.value > 0.0
  }

  /** The cleaned frame: no longer than the input, and every kept reading has a positive rate. */
  function RemoveNanAndZeroes(readings: seq<Reading>): (kept: seq<Reading>)
    ensures |kept| <= |readings|
    ensures forall i :: 0 <= i < |kept| ==> kept[i].rate.Some? && kept[i].rate.value > 0.0
  {
    var r := Where(readings, HasPositiveRate);
    WhereMembership(readings, HasPositiveRate);
    assert forall i :: 0 <= i < |r| ==> r[i] in r;
    r
  }

  /** A reading survives cleaning exactly when it was there and its rate is present and positive. */
  lemma RemoveNanAndZeroesMembership(readings: seq<Reading>)
    ensures forall x :: x in RemoveNanAndZeroes(readings) <==>
                        x in readings && x.rate.Some? && x.rate.value > 0.0
  {
    WhereMembership(readings, HasPositiveRate);
  }

  /**
   * Cleaning works reading by reading and keeps relative order: a single
   * reading is kept unchanged or dropped, and the result of a concatenation
   * is the concatenation of the results.
   */
  lemma RemoveNanAndZeroesPreservesOrder(a: seq<Reading>, b: seq<Reading>, x: Reading)
    ensures RemoveNanAndZeroes(a + b) == RemoveNanAndZeroes(a) + RemoveNanAndZeroes(b)
    ensures RemoveNanAndZeroes([x]) == if x.rate.Some? && x.rate.value > 0.0 then [x] else []
  {
    WhereAppend(a, b, HasPositiveRate);
    WhereSingle(x, HasPositiveRate);
  }

  /** Cleaning leaves a frame unchanged exactly when every rate in it is present and positive. */
  lemma RemoveNanAndZeroesUnchanged(readings: seq<Reading>)
    ensures RemoveNanAndZeroes(readings) == readings <==>
            forall i :: 0 <= i < |readings| ==> readings[i].rate.Some? && readings[i].rate.value > 0.0
  {
    WhereAllKept(readings, HasPositiveRate);
  }

  /** Cleaning an already cleaned frame changes nothing. */
  lemma RemoveNanAndZeroesIdempotent(readings: seq<Reading>)
    ensures RemoveNanAndZeroes(RemoveNanAndZeroes(readings)) == RemoveNanAndZeroes(readings)
  {
    RemoveNanAndZeroesUnchanged(RemoveNanAndZeroes(readings));
  }
}

/**
 * get_max_initial_production: sort a well's readings by report date, take
 * the first `n` rows (`head(n)`), and return the largest rate among them.
 * A missing rate is skipped by the maximum; when no rate remains the
 * result is absent (pandas gives NaN).
 */
module InitialProduction {
  import opened Wrappers
  import opened Readings
  import opened Select

  /** Report dates never decrease along `s`. */
  predicate SortedByDay(s: seq<Reading>)
  {
    forall i, j :: 0 <= i < j < |s| ==> s[i].reportDay <= s[j].reportDay
  }

  /** A reading dated no later than the head of a sorted sequence can go in front of it. */
  lemma SortedCons(a: Reading, t: seq<Reading>)
    requires SortedByDay(t) && (t == [] || a.reportDay <= t[0].reportDay)
    ensures SortedByDay([a] + t)
  {
    var r := [a] + t;
    forall i, j | 0 <= i < j < |r| ensures r[i].reportDay <= r[j].reportDay {
      if i > 0 {
        assert r[i] == t[i - 1] && r[j] == t[j - 1];
      } else if j > 1 {
        assert r[j] == t[j - 1] && t[0].reportDay <= t[j - 1].reportDay;
      }
    }
  }

  /** Inserts `x` before the first reading with a later or equal report date. */
  function InsertByDay(x: Reading, s: seq<Reading>): (r: seq<Reading>)
    requires SortedByDay(s)
    ensures SortedByDay(r)
    ensures multiset(r) == multiset(s) + multiset{x}
    ensures |r| == |s| + 1 && (r[0] == x || (s != [] && r[0] == s[0]))
  {
    if s == [] then [x]
    else if x.reportDay <= s[0].reportDay then
      SortedCons(x, s);
      [x] + s
    else
      var rest := InsertByDay(x, s[1..]);
      assert s == [s[0]] + s[1..];
      SortedCons(s[0], rest);
      [s[0]] + rest
  }

  /** `sort_values(by=date_column)`: the same readings, ordered by report date. */
  function SortValuesByDay(s: seq<Reading>): (r: seq<Reading>)
    ensures SortedByDay(r)
    ensures multiset(r) == multiset(s)
    ensures |r| == |s|
  {
    if s == [] then []
    else
      assert s == [s[0]] + s[1..];
      InsertByDay(s[0], SortValuesByDay(s[1..]))
  }

  /**
   * How many rows `head(n)` keeps out of `len`: the first n, or, for a
   * negative n, all but the last -n.
   */
  function HeadCount(len: nat, n: int): (k: nat)
    ensures k <= len
    ensures n >= len ==> k == len
    ensures n <= 0 ==> k < len || len == 0
    ensures 0 <= n <= len ==> k == n
    ensures n < 0 ==> k == if len + n >= 0 then len + n else 0
  {
    if n >= 0 then (if n <= len then n else len)
    else if len + n >= 0 then len + n else 0
  }

  /** `head(n)`. */
  function Head(s: seq<Reading>, n: int): (r: seq<Reading>)
    ensures r <= s && |r| == HeadCount(|s|, n)
  {
    s[..HeadCount(|s|, n)]
  }

  /** The combination of two optional maxima. */
  function MaxOf(a: Option<real>, b: Option<real>): (m: Option<real>)
    ensures m.None? <==> a.None? && b.None?
    ensures m.Some? ==> m == a || m == b
    ensures a.Some? ==> m.Some? && a.value <= m.value
    ensures b.Some? ==> m.Some? && b.value <= m.value
  {
    match (a, b)
    case (None, _) => b
    case (_, None) => a
    case (Some(x), Some(y)) => if x >= y then a else b
  }

  /**
   * `series.max()` with missing rates skipped: absent exactly when no rate is
   * present, otherwise the rate of some reading and no smaller than any rate.
   */
  function MaxRate(s: seq<Reading>): (m: Option<real>)
    ensures m.None? <==> forall i :: 0 <= i < |s| ==> s[i].rate.None?
    ensures m.Some? ==> exists i :: 0 <= i < |s| && s[i].rate == m
    ensures forall i :: 0 <= i < |s| && s[i].rate.Some? ==> m.Some? && s[i].rate.value <= m.value
  {
    if s == [] then None
    else
      var tail := MaxRate(s[1..]);
      assert forall i :: 1 <= i < |s| ==> s[i] == s[1..][i - 1];
      MaxOf(s[0].rate, tail)
  }

  /**
   * The initial-rate anchor qi of one well: when present, the rate of one of
   * the well's readings, and never above the well's largest rate.
   */
  function GetMaxInitialProduction(readings: seq<Reading>, numberFirstMonths: int): (qi: Option<real>)
    ensures qi.Some? ==> exists i :: 0 <= i < |readings| && readings[i].rate == qi
    ensures qi.Some? ==> MaxRate(readings).Some? && qi.value <= MaxRate(readings).value
  {
    var sorted := SortValuesByDay(readings);
    var prefix := Head(sorted, numberFirstMonths);
    var qi := MaxRate(prefix);
    if qi.Some? then
      var q :| 0 <= q < |prefix| && prefix[q].rate == qi;
      assert prefix[q] == sorted[q] && sorted[q] in multiset(readings);
      var i :| 0 <= i < |readings| && readings[i] == sorted[q];
      qi
    else qi
  }

  /** The readings dated strictly before day `d`. */
  function EarlierThan(d: int): Reading -> bool
  {
    (x: Reading) => x.reportDay < d
  }

  /** The readings dated no later than day `d`. */
  function NotLaterThan(d: int): Reading -> bool
  {
    (x: Reading) => x.reportDay <= d
  }

  /** Two readings with the same elements have the same maximum rate. */
  lemma MaxRatePermutation(s: seq<Reading>, t: seq<Reading>)
    requires multiset(s) == multiset(t)
    ensures MaxRate(s) == MaxRate(t)
  {
    var a, b := MaxRate(s), MaxRate(t);
    assert forall x :: x in s <==> x in t by {
      forall x ensures x in s <==> x in t {
        assert x in s <==> x in multiset(s);
        assert x in t <==> x in multiset(t);
      }
    }
    if a.Some? {
      var i :| 0 <= i < |s| && s[i].rate == a;
      assert s[i] in t;
      var j :| 0 <= j < |t| && t[j] == s[i];
      assert b.Some? && a.value <= b.value;
    }
    if b.Some? {
      var j :| 0 <= j < |t| && t[j].rate == b;
      assert t[j] in s;
      var i :| 0 <= i < |s| && s[i] == t[j];
      assert a.Some? && b.value <= a.value;
    }
  }

  /**
   * The maximum over the first rows of a date-sorted series is the rate of a
   * reading with fewer than k = HeadCount readings dated strictly before it,
   * so it can sit among the first k rows.
   */
  lemma PrefixMaximumAttained(readings: seq<Reading>, sorted: seq<Reading>, n: int)
    requires SortedByDay(sorted) && multiset(sorted) == multiset(readings)
    ensures var qi := MaxRate(Head(sorted, n));
            qi.Some? ==> exists i :: 0 <= i < |readings| && readings[i].rate == qi
                                    && Count(readings, EarlierThan(readings[i].reportDay)) < HeadCount(|readings|, n)
  {
    assert |sorted| == |multiset(sorted)| == |readings|;
    var prefix := Head(sorted, n);
    var qi := MaxRate(prefix);
    if qi.Some? {
      var q :| 0 <= q < |prefix| && prefix[q].rate == qi;
      var x := sorted[q];
      assert x in multiset(readings);
      var i :| 0 <= i < |readings| && readings[i] == x;
      var earlier := EarlierThan(x.reportDay);
      assert forall j :: q <= j < |sorted| ==> !earlier(sorted[j]);
      CountAtMostPrefix(sorted, q, earlier);
      CountPermutation(readings, sorted, earlier);
    }
  }

  /**
   * A reading with at most k readings dated on or before it lies among the
   * first k rows of every date-sorted order, so the maximum over those rows
   * is at least its rate.
   */
  lemma PrefixMaximumBound(readings: seq<Reading>, sorted: seq<Reading>, n: int, i: int)
    requires SortedByDay(sorted) && multiset(sorted) == multiset(readings)
    requires 0 <= i < |readings| && readings[i].rate.Some?
    requires Count(readings, NotLaterThan(readings[i].reportDay)) <= HeadCount(|readings|, n)
    ensures var qi := MaxRate(Head(sorted, n));
            qi.Some? && readings[i].rate.value <= qi.value
  {
    assert |sorted| == |multiset(sorted)| == |readings|;
    var k := HeadCount(|readings|, n);
    var x := readings[i];
    assert x in multiset(sorted);
    var p :| 0 <= p < |sorted| && sorted[p] == x;
    if p >= k {
      var notLater := NotLaterThan(x.reportDay);
      assert forall j :: 0 <= j < p + 1 ==> notLater(sorted[j]);
      CountAtLeastPrefix(sorted, p + 1, notLater);
      CountPermutation(readings, sorted, notLater);
      assert false;
    }
    assert Head(sorted, n)[p] == x;
  }

  /**
   * qi up to ties: the rate of one of the n earliest readings, and at least
   * the rate of every reading that is among the n earliest whatever the tie
   * order. The caller's readings are values and are not reordered.
   */
  lemma InitialProductionIsPrefixMaximum(readings: seq<Reading>, n: int)
    ensures var qi := GetMaxInitialProduction(readings, n);
            var k := HeadCount(|readings|, n);
            && (qi.Some? ==> exists i :: 0 <= i < |readings| && readings[i].rate == qi
                                         && Count(readings, EarlierThan(readings[i].reportDay)) < k)
            && (forall i :: 0 <= i < |readings| && readings[i].rate.Some?
                            && Count(readings, NotLaterThan(readings[i].reportDay)) <= k
                            ==> qi.Some? && readings[i].rate.value <= qi.value)
  {
    var sorted := SortValuesByDay(readings);
    PrefixMaximumAttained(readings, sorted, n);
    forall i | 0 <= i < |readings| && readings[i].rate.Some?
                 && Count(readings, NotLaterThan(readings[i].reportDay)) <= HeadCount(|readings|, n)
      ensures GetMaxInitialProduction(readings, n).Some?
              && readings[i].rate.value <= GetMaxInitialProduction(readings, n).value
    {
      PrefixMaximumBound(readings, sorted, n, i);
    }
  }

  /** When n covers the whole series, qi is the maximum rate over all readings. */
  lemma InitialProductionWholeSeries(readings: seq<Reading>, n: int)
    requires n >= |readings|
    ensures GetMaxInitialProduction(readings, n) == MaxRate(readings)
  {
    var sorted := SortValuesByDay(readings);
    assert Head(sorted, n) == sorted;
    MaxRatePermutation(sorted, readings);
  }

  /**
   * On readings whose rates are all present, qi is absent exactly when
   * `head(n)` keeps no row: an empty series, n = 0, or n <= -len.
   */
  lemma InitialProductionAbsentIff(readings: seq<Reading>, n: int)
    requires forall i :: 0 <= i < |readings| ==> readings[i].rate.Some?
    ensures GetMaxInitialProduction(readings, n).None? <==> HeadCount(|readings|, n) == 0
  {
    var sorted := SortValuesByDay(readings);
    assert |sorted| == |multiset(sorted)| == |readings|;
    var k := HeadCount(|readings|, n);
    if k > 0 {
      assert sorted[0] in multiset(readings);
      var i :| 0 <= i < |readings| && readings[i] == sorted[0];
      assert Head(sorted, n)[0].rate.Some?;
    }
  }
}

/**
 * The preprocessing and bound construction of the decline-curve driver:
 * clean the production table, add each reading's online date and days
 * online, keep the wells that came online in a date window, and for each
 * requested well compute the initial-rate anchor qi and the parameter
 * boxes for the exponential fit (qi, di) and the hyperbolic fit (qi, b, di).
 */
module DeclineFit {
  import opened Wrappers
  import opened Readings
  import opened Select
  import opened Clean
  import opened GroupBy
  import opened DaysOnline
  import opened InitialProduction

  /** Box constraints for a fit: `bounds=(lower, upper)`, one entry per parameter. */
  datatype Bounds = Bounds(lower: seq<real>, upper: seq<real>)

  /** Every parameter has a non-empty open range: lower strictly below upper. */
  predicate WellFormed(b: Bounds)
  {
    |b.lower| == |b.upper| && forall i :: 0 <= i < |b.lower| ==> b.lower[i] < b.upper[i]
  }

  /** `bounds=(0, [qi, 20])` for the parameters (qi, di); the scalar 0 applies to both. */
  function ExponentialBounds(qi: real): (b: Bounds)
    ensures |b.upper| == 2 && b.upper[0] == qi
    ensures b.lower == [0.0, 0.0] && b.upper[1] == 20.0
    ensures WellFormed(b) <==> qi > 0.0
  {
    Bounds([0.0, 0.0], [qi, 20.0])
  }

  /** `bounds=(0, [qi, 2, 20])` for the parameters (qi, b, di). */
  function HyperbolicBounds(qi: real): (b: Bounds)
    ensures |b.upper| == 3 && b.upper[0] == qi
    ensures b.lower == [0.0, 0.0, 0.0] && b.upper[1] == 2.0 && b.upper[2] == 20.0
    ensures WellFormed(b) <==> qi > 0.0
  {
    Bounds([0.0, 0.0, 0.0], [qi, 2.0, 20.0])
  }

  /** What one well hands to the two curve fits. */
  datatype FitSetup = FitSetup(well: int, series: seq<AnchoredReading>, qi: real,
                               exponential: Bounds, hyperbolic: Bounds)

  /** The well's series gave no initial rate (qi would be NaN). */
  datatype SetupError = NoInitialRate(well: int)

  /** `(Online_Date >= onlineFrom) & (Online_Date <= onlineTo)`. */
  function OnlineBetween(onlineFrom: int, onlineTo: int): AnchoredReading -> bool
  {
    (x: AnchoredReading) => onlineFrom <= x.onlineDay <= onlineTo
  }

  /** `API_WELLNO == api`. */
  function OfWell(api: int): AnchoredReading -> bool
  {
    (x: AnchoredReading) => x.reading.well == api
  }

  /** The loop body for one well: its series, qi from its first months, and the two boxes. */
  function SetupFor(window: seq<AnchoredReading>, api: int, firstMonths: int): Result<FitSetup, SetupError>
  {
    var series := Where(window, OfWell(api));
    match GetMaxInitialProduction(ReadingsOf(series), firstMonths)
    case None => Failure(NoInitialRate(api))
    case Some(qi) => Success(FitSetup(api, series, qi, ExponentialBounds(qi), HyperbolicBounds(qi)))
  }

  /**
   * A well's setup is tagged with its API number. It fails exactly when the
   * well's series gives no initial rate; otherwise its series is the
   * window's rows of that well in order, qi is the initial rate of that
   * series and the rate of one of its rows, and the two boxes are built
   * from qi.
   */
  lemma SetupForShape(window: seq<AnchoredReading>, api: int, firstMonths: int)
    ensures var r := SetupFor(window, api, firstMonths);
            var series := Where(window, OfWell(api));
            && (r.Failure? <==> GetMaxInitialProduction(ReadingsOf(series), firstMonths).None?)
            && (r.Failure? ==> r.error.well == api)
            && (r.Success? ==>
                  && r.value.well == api
                  && r.value.series == series
                  && GetMaxInitialProduction(ReadingsOf(r.value.series), firstMonths) == Some(r.value.qi)
                  && (forall x :: x in r.value.series <==> x in window && x.reading.well == api)
                  && (exists i :: 0 <= i < |r.value.series| && r.value.series[i].reading.rate == Some(r.value.qi))
                  && r.value.exponential == ExponentialBounds(r.value.qi)
                  && r.value.hyperbolic == HyperbolicBounds(r.value.qi))
  {
    var series := Where(window, OfWell(api));
    WhereMembership(window, OfWell(api));
    var qi := GetMaxInitialProduction(ReadingsOf(series), firstMonths);
    if qi.Some? {
      var i :| 0 <= i < |series| && ReadingsOf(series)[i].rate == qi;
      assert series[i].reading.rate == qi;
    }
  }

  /** Rows as they leave cleaning and anchoring: positive rates, non-negative days online. */
  predicate Cleaned(rows: seq<AnchoredReading>)
  {
    forall i :: 0 <= i < |rows| ==>
      && rows[i].reading.rate.Some? && rows[i].reading.rate.value > 0.0
      && rows[i].daysOnline >= 0
  }

  /** The rows of one well taken from cleaned rows are that well's, with positive rates. */
  lemma WellSeriesCleaned(window: seq<AnchoredReading>, api: int)
    requires Cleaned(window)
    ensures var series := Where(window, OfWell(api));
            && Cleaned(series)
            && (forall i :: 0 <= i < |series| ==> series[i].reading.well == api)
            && (forall i :: 0 <= i < |ReadingsOf(series)| ==>
                  ReadingsOf(series)[i].rate.Some? && ReadingsOf(series)[i].rate.value > 0.0)
  {
    var series := Where(window, OfWell(api));
    WhereMembership(window, OfWell(api));
    forall i | 0 <= i < |series| ensures series[i] in window && OfWell(api)(series[i]) {
      assert series[i] in series;
    }
  }

  /**
   * On cleaned rows, a well's setup fails exactly when `head(n)` keeps none
   * of its readings; otherwise it carries the well's rows in order, each
   * with non-negative days online, a positive qi, and two boxes whose lower
   * bounds lie strictly below their upper bounds.
   */
  lemma SetupForSound(window: seq<AnchoredReading>, api: int, firstMonths: int)
    requires Cleaned(window)
    ensures var series := Where(window, OfWell(api));
            var setup := SetupFor(window, api, firstMonths);
            && (setup.Failure? <==> HeadCount(|series|, firstMonths) == 0)
            && (setup.Success? ==>
                  && setup.value.series == series
                  && (forall i :: 0 <= i < |series| ==> series[i].reading.well == api && series[i].daysOnline >= 0)
                  && setup.value.qi > 0.0
                  && WellFormed(setup.value.exponential)
                  && WellFormed(setup.value.hyperbolic))
  {
    var series := Where(window, OfWell(api));
    var readings := ReadingsOf(series);
    WellSeriesCleaned(window, api);
    InitialProductionAbsentIff(readings, firstMonths);
    var qi := GetMaxInitialProduction(readings, firstMonths);
    if qi.Some? {
      InitialProductionIsPrefixMaximum(readings, firstMonths);
      var i :| 0 <= i < |readings| && readings[i].rate == qi
               && Count(readings, EarlierThan(readings[i].reportDay)) < HeadCount(|readings|, firstMonths);
      assert qi.value > 0.0;
    }
  }

  /**
   * Lines 138-142: the table with its Online_Date column (each well's
   * earliest report date) and Days_Online column added, row by row.
   */
  function AddOnlineColumns(data: seq<Reading>): (frame: seq<AnchoredReading>)
    ensures ReadingsOf(frame) == data
    ensures forall i :: 0 <= i < |frame| ==>
              0 <= frame[i].daysOnline == frame[i].reading.reportDay - frame[i].onlineDay
  {
    var wells, days := WellColumn(data), ReportDayColumn(data);
    var online := GetMinOrMaxValueInColumnByGroup(wells, days, Min);
    var daysOnline := GenerateTimeDeltaColumn(days, online);
    var frame := seq(|data|, i requires 0 <= i < |data| => AnchoredReading(data[i], online[i], daysOnline[i]));
    assert ReadingsOf(frame) == data;
    assert forall i :: 0 <= i < |frame| ==> frame[i].daysOnline >= 0 by {
      forall i | 0 <= i < |frame| ensures frame[i].daysOnline >= 0 {
        assert Prefers(Min, online[i], days[i]);
      }
    }
    frame
  }

  /**
   * Each row's online date is its well's earliest report date: no later than
   * any report of the same well, and equal to one of them.
   */
  lemma OnlineDayIsEarliestReport(data: seq<Reading>, i: int)
    requires 0 <= i < |data|
    ensures var frame := AddOnlineColumns(data);
            && (forall j :: 0 <= j < |data| && data[j].well == data[i].well ==> frame[i].onlineDay <= data[j].reportDay)
            && (exists j :: 0 <= j < |data| && data[j].well == data[i].well && frame[i].onlineDay == data[j].reportDay)
  {
    var wells, days := WellColumn(data), ReportDayColumn(data);
    var online := GetMinOrMaxValueInColumnByGroup(wells, days, Min);
    var frame := AddOnlineColumns(data);
    assert frame[i].onlineDay == online[i];
    forall j | 0 <= j < |data| && data[j].well == data[i].well ensures frame[i].onlineDay <= data[j].reportDay {
      assert wells[j] == wells[i];
      assert Prefers(Min, online[i], days[j]);
    }
    var j :| 0 <= j < |wells| && wells[j] == wells[i] && online[i] == days[j];
    assert data[j].well == data[i].well && frame[i].onlineDay == data[j].reportDay;
  }

  /** Anchoring readings whose rates are all present and positive gives cleaned rows. */
  lemma AnchoredCleaned(data: seq<Reading>)
    requires forall i :: 0 <= i < |data| ==> data[i].rate.Some? && data[i].rate.value > 0.0
    ensures Cleaned(AddOnlineColumns(data))
  {
    var frame := AddOnlineColumns(data);
    forall i | 0 <= i < |frame| ensures frame[i].reading == data[i] {
      assert ReadingsOf(frame)[i] == frame[i].reading;
    }
  }

  /** Selecting rows of cleaned rows gives cleaned rows. */
  lemma WhereCleaned(rows: seq<AnchoredReading>, keep: AnchoredReading -> bool)
    requires Cleaned(rows)
    ensures Cleaned(Where(rows, keep))
  {
    var kept := Where(rows, keep);
    WhereMembership(rows, keep);
    forall i | 0 <= i < |kept| ensures kept[i] in rows {
      assert kept[i] in kept;
    }
  }

  /** `f` applied to each element of `xs`, in order. */
  function MapSeq<A, B>(f: A -> B, xs: seq<A>): (ys: seq<B>)
    ensures |ys| == |xs|
  {
    if xs == [] then [] else MapSeq(f, xs[..|xs| - 1]) + [f(xs[|xs| - 1])]
  }

  /** The k-th result is `f` of the k-th element. */
  lemma {:induction false} MapSeqAt<A, B>(f: A -> B, xs: seq<A>, k: int)
    requires 0 <= k < |xs|
    ensures MapSeq(f, xs)[k] == f(xs[k])
  {
    var n := |xs| - 1;
    if k < n {
      MapSeqAt(f, xs[..n], k);
      assert xs[..n][k] == xs[k];
    }
  }

  /** The loop body as a function of the well's API number. */
  function SetupForWell(window: seq<AnchoredReading>, firstMonths: int): int -> Result<FitSetup, SetupError>
  {
    api => SetupFor(window, api, firstMonths)
  }

  /**
   * Lines 149-160: for each requested well in turn, its series from the
   * window, qi from its first months, and the two boxes.
   */
  method SetupWells(window: seq<AnchoredReading>, apis: seq<int>, firstMonths: int)
    returns (setups: seq<Result<FitSetup, SetupError>>)
    ensures setups == MapSeq(SetupForWell(window, firstMonths), apis)
  {
    setups := [];
    for k := 0 to |apis|
      invariant setups == MapSeq(SetupForWell(window, firstMonths), apis[..k])
    {
      var series := Where(window, OfWell(apis[k]));
      var qi := GetMaxInitialProduction(ReadingsOf(series), firstMonths);
      var setup := if qi.Some?
        then Success(FitSetup(apis[k], series, qi.value, ExponentialBounds(qi.value), HyperbolicBounds(qi.value)))
        else Failure(NoInitialRate(apis[k]));
      assert setup == SetupForWell(window, firstMonths)(apis[k]);
      setups := setups + [setup];
      assert apis[..k + 1][..k] == apis[..k];
    }
    assert apis[..|apis|] == apis;
  }

  /**
   * Lines 136-160 of the driver. The table is cleaned and gains the
   * Online_Date and Days_Online columns; rows whose online date lies in
   * [onlineFrom, onlineTo] are kept; then each requested well gets the
   * setup for its two fits.
   */
  method PrepareDeclineFits(raw: seq<Reading>, onlineFrom: int, onlineTo: int, apis: seq<int>, firstMonths: int)
    returns (frame: seq<AnchoredReading>, setups: seq<Result<FitSetup, SetupError>>)
    ensures frame == AddOnlineColumns(RemoveNanAndZeroes(raw))
    ensures Cleaned(frame)
    ensures |setups| == |apis|
    ensures forall k :: 0 <= k < |apis| ==>
              setups[k] == SetupFor(Where(frame, OnlineBetween(onlineFrom, onlineTo)), apis[k], firstMonths)
    ensures forall k :: 0 <= k < |apis| && setups[k].Success? ==>
              && setups[k].value.qi > 0.0
              && WellFormed(setups[k].value.exponential)
              && WellFormed(setups[k].value.hyperbolic)
  {
    var data := RemoveNanAndZeroes(raw);
    frame := AddOnlineColumns(data);
    AnchoredCleaned(data);
    var window := Where(frame, OnlineBetween(onlineFrom, onlineTo));
    WhereCleaned(frame, OnlineBetween(onlineFrom, onlineTo));
    setups := SetupWells(window, apis, firstMonths);
    forall k | 0 <= k < |apis|
      ensures setups[k] == SetupFor(window, apis[k], firstMonths)
      ensures setups[k].Success? ==>
                && setups[k].value.qi > 0.0
                && WellFormed(setups[k].value.exponential)
                && WellFormed(setups[k].value.hyperbolic)
    {
      MapSeqAt(SetupForWell(window, firstMonths), apis, k);
      SetupForSound(window, apis[k], firstMonths);
    }
  }
}

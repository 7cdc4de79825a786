/**
 * generate_time_delta_column: `(df[time_column] - df[date_first_online_column]).dt.days`.
 * Dates are whole day numbers, so the difference in days is an exact integer
 * subtraction, row by row.
 */
module DaysOnline {
  import opened GroupBy

  /** The Days_Online column: one entry per row, aligned with the two date columns. */
  function GenerateTimeDeltaColumn(time: seq<int>, firstOnline: seq<int>): (delta: seq<int>)
    requires |time| == |firstOnline|
    ensures |delta| == |time|
  {
    seq(|time|, i requires 0 <= i < |time| => time[i] - firstOnline[i])
  }

  /**
   * With the online date taken as each well's earliest report date, every
   * row's days online is the distance from that earliest date: never
   * negative, zero exactly on the well's earliest readings, and every well
   * has a reading with zero days online.
   */
  lemma DaysOnlineFromEarliestReport(wells: seq<int>, days: seq<int>, i: int)
    requires |wells| == |days| && 0 <= i < |wells|
    ensures var online := GetMinOrMaxValueInColumnByGroup(wells, days, Min);
            var delta := GenerateTimeDeltaColumn(days, online);
            && delta[i] == days[i] - online[i]
            && delta[i] >= 0
            && (delta[i] == 0 <==> forall j :: 0 <= j < |wells| && wells[j] == wells[i] ==> days[i] <= days[j])
            && exists j :: 0 <= j < |wells| && wells[j] == wells[i] && delta[j] == 0
  {
    var online := GetMinOrMaxValueInColumnByGroup(wells, days, Min);
    var delta := GenerateTimeDeltaColumn(days, online);
    assert Prefers(Min, online[i], days[i]);
    var j :| 0 <= j < |wells| && wells[j] == wells[i] && online[i] == days[j];
    assert online[j] == online[i];
    assert delta[j] == 0;
  }
}

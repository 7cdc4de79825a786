/**
 * The rows the preprocessing works on. A production reading carries the
 * well's API number, its report date as a day number and the measured
 * rate of the selected product, which may be missing.
 */
module Readings {
  import opened Wrappers

  /** One row of the monthly production table: API_WELLNO, ReportDate, and the product column. */
  datatype Reading = Reading(well: int, reportDay: int, rate: Option<real>)

  /** A reading after the Online_Date and Days_Online columns have been added. */
  datatype AnchoredReading = AnchoredReading(reading: Reading, onlineDay: int, daysOnline: int)

  /** The API_WELLNO column. */
  function WellColumn(rows: seq<Reading>): (col: seq<int>)
    ensures |col| == |rows|
  {
    seq(|rows|, i requires 0 <= i < |rows| => rows[i].well)
  }

  /** The ReportDate column. */
  function ReportDayColumn(rows: seq<Reading>): (col: seq<int>)
    ensures |col| == |rows|
  {
    seq(|rows|, i requires 0 <= i < |rows| => rows[i].reportDay)
  }

  /** The original columns of anchored rows. */
  function ReadingsOf(rows: seq<AnchoredReading>): (plain: seq<Reading>)
    ensures |plain| == |rows|
  {
    seq(|rows|, i requires 0 <= i < |rows| => rows[i].reading)
  }
}

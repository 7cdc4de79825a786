# Decline-curve preprocessing, modelled in Dafny

This project models the data preparation in `curve_fit_tutorial.py`, a
script that fits Arps decline curves (exponential and hyperbolic) to monthly
oil or gas production from Bakken wells. The modelled part starts from the
production table with its dates parsed. It runs through cleaning up to the
arguments of the two curve fits:

- `remove_nan_and_zeroes_from_columns` drops every reading whose product rate
  is missing or not positive (`clean.dfy`). The boolean-mask row selection it
  uses (`df[mask]`) is the generic `Select.Where` (`select.dfy`).
- `get_min_or_max_value_in_column_by_group` is the pandas group transform.
  Every row gets the minimum or maximum of a column over the rows that share
  its key (`group_by.dfy`). It is computed in one pass that keeps a map from
  key to winning row, and it is proved equal to a per-group reference scan.
- `generate_time_delta_column` computes days online, row by row
  (`days_online.dfy`).
- `get_max_initial_production` sorts by report date, takes `head(n)` and
  returns the largest rate (`initial_production.dfy`). This value is qi, the
  initial-rate anchor.
- The driver's lines 136-160 (`decline_fit.dfy`) do the following in order:
  - clean the table;
  - add the Online_Date and Days_Online columns;
  - keep the wells that came online inside a date window;
  - for each requested well, select its series, compute qi and build the
    parameter boxes `bounds=(0, [qi, 20])` and `bounds=(0, [qi, 2, 20])`.
  `PrepareDeclineFits` is a method, and its loop over the wells is
  `SetupWells`. Both are proved against the functions that specify them.

The data model has two kinds of row (`readings.dfy`):
- a `Reading` holds the API number, the report date as a whole day number,
  and the product rate as `Option<real>`, where `None` stands for NaN;
- an `AnchoredReading` is a `Reading` with the Online_Date and Days_Online
  columns added.

Choices the model makes about the script:
- qi is taken over `head(n)` in report-date order. A negative `n` keeps all
  but the last `-n` rows, as pandas does.
- A well with no reading in its first rows gets no qi. The script raises no
  error there, so the model records that well's setup as a failure.
- Fitting is the single scipy `curve_fit` call per model. It is left out.
- The script hard-codes the window dates, the API list and the number of
  first months (`3`, line 153). Here they are parameters.

## Model

| member | source | states |
|---|---|---|
| Select.Where | curve_fit_tutorial.py:57 | Boolean-mask selection `df[mask]` (also lines 144 and 151) keeps no more rows than the input. What it keeps is stated by Select.WhereMembership and Select.WhereAppend. |
| Select.WhereMembership | curve_fit_tutorial.py:57 | A row is in `df[mask]` exactly when it is a row of `df` and the mask holds of it. |
| Select.WhereAppend | curve_fit_tutorial.py:57 | Masking a concatenation concatenates the masked parts, so relative order is kept. |
| Select.WhereAllKept | curve_fit_tutorial.py:57 | `df[mask]` equals `df` exactly when the mask holds on every row. |
| Clean.RemoveNanAndZeroes | curve_fit_tutorial.py:57 | The cleaned frame is no longer than the input, and every reading in it has a present, strictly positive rate. |
| Clean.RemoveNanAndZeroesMembership | curve_fit_tutorial.py:57 | A reading is in the result exactly when it is in the input and its rate is not null and > 0. |
| Clean.RemoveNanAndZeroesPreservesOrder | curve_fit_tutorial.py:57 | Row-wise filter that keeps order: cleaning a concatenation concatenates the cleaned parts, and a single row is kept as is or dropped. |
| Clean.RemoveNanAndZeroesUnchanged | curve_fit_tutorial.py:57 | The frame is unchanged by cleaning if and only if every rate in it is present and positive. |
| Clean.RemoveNanAndZeroesIdempotent | curve_fit_tutorial.py:57 | Cleaning twice is the same as cleaning once. |
| GroupBy.Winners | curve_fit_tutorial.py:89 | The one-pass fold over the first n rows: every key seen maps to a row of that key whose value is at least as extreme as every row of that key seen so far. |
| GroupBy.GetMinOrMaxValueInColumnByGroup | curve_fit_tutorial.py:76-90 | `transform(calc_type)` gives one value per row, aligned with the input. Rows with the same key get the same value. That value is attained by some row of the group and is the min (or max) over the group. |
| GroupBy.GroupExtreme | curve_fit_tutorial.py:84-89 | The reference scan for one key. It is absent exactly when no row has the key; otherwise it is the group's attained min or max. |
| GroupBy.GroupTransformMatchesScan | curve_fit_tutorial.py:89 | On every row, the transform's value equals the per-group scan for that row's key. |
| DaysOnline.GenerateTimeDeltaColumn | curve_fit_tutorial.py:60-74 | The Days_Online column has one entry per row, aligned with the two date columns. |
| DaysOnline.DaysOnlineFromEarliestReport | curve_fit_tutorial.py:138-142 | With Online_Date taken as the group minimum of ReportDate, days online is never negative. It is zero exactly on a well's earliest readings, and every well has a row with zero days online. |
| InitialProduction.SortValuesByDay | curve_fit_tutorial.py:106 | `sort_values(by=date)` gives a permutation of the readings, of the same length, ordered by report date. |
| InitialProduction.Head | curve_fit_tutorial.py:108 | `head(n)` is the prefix of the frame that keeps `HeadCount` rows. |
| InitialProduction.HeadCount | curve_fit_tutorial.py:108 | `head(n)` keeps n rows when 0 <= n <= len and all len rows when n >= len. For a negative n it keeps len + n rows, or none when len + n < 0. |
| InitialProduction.MaxRate | curve_fit_tutorial.py:111 | `.max()` skips missing rates. It is absent exactly when no rate is present; otherwise it is some reading's rate and no rate exceeds it. |
| InitialProduction.GetMaxInitialProduction | curve_fit_tutorial.py:92-111 | qi, when present, is the rate of one of the well's readings and never exceeds the well's largest rate. Its full meaning (maximum over the first n rows) is InitialProductionIsPrefixMaximum. |
| InitialProduction.MaxRatePermutation | curve_fit_tutorial.py:111 | The maximum rate does not depend on row order. |
| InitialProduction.PrefixMaximumAttained | curve_fit_tutorial.py:106-111 | For any date-sorted order, qi is the rate of a reading that has fewer than k readings strictly before it. |
| InitialProduction.PrefixMaximumBound | curve_fit_tutorial.py:106-111 | For any date-sorted order, qi is present and at least the rate of every reading that has at most k readings on or before its date. |
| InitialProduction.InitialProductionIsPrefixMaximum | curve_fit_tutorial.py:92-111 | qi is the maximum over the n earliest readings, up to ties in report date. It is attained among them and bounds every reading that is among them under every tie order. |
| InitialProduction.InitialProductionWholeSeries | curve_fit_tutorial.py:108-111 | When n covers the whole series, qi is the maximum rate of the whole series. |
| InitialProduction.InitialProductionAbsentIff | curve_fit_tutorial.py:108-111 | With all rates present, qi is absent (NaN) exactly when `head(n)` keeps no row: an empty series, n == 0, or n <= -len. |
| DeclineFit.ExponentialBounds | curve_fit_tutorial.py:155-156 | `bounds=(0, [qi, 20])`: lower bounds 0 and 0, upper bounds qi and 20. Every lower bound lies strictly below its upper bound exactly when qi > 0. |
| DeclineFit.HyperbolicBounds | curve_fit_tutorial.py:159-160 | `bounds=(0, [qi, 2, 20])`: lower bounds 0, 0 and 0, upper bounds qi, 2 and 20. Every lower bound lies strictly below its upper bound exactly when qi > 0. |
| DeclineFit.WellSeriesCleaned | curve_fit_tutorial.py:151 | Selecting one API number from cleaned rows gives only that well's rows, and they stay cleaned. |
| DeclineFit.SetupForShape | curve_fit_tutorial.py:151-160 | One loop iteration (`SetupFor`). The setup is tagged with the well's API number. It fails exactly when `get_max_initial_production` of the well's series gives no qi (NaN). On success, the series is the window's rows of that well in order (line 151) and qi is `GetMaxInitialProduction` of that series (line 153), which is the rate of one of its rows. The two boxes are built from qi (lines 156, 160). |
| DeclineFit.SetupForSound | curve_fit_tutorial.py:151-160 | On cleaned rows, a well's setup fails exactly when `head(n)` keeps none of its readings. Otherwise it carries the well's rows with days online >= 0, qi > 0, and two well-formed boxes. |
| DeclineFit.AddOnlineColumns | curve_fit_tutorial.py:138-142 | Adding the two columns keeps the original rows in order. Each row's Days_Online is ReportDate minus Online_Date and is >= 0. |
| DeclineFit.OnlineDayIsEarliestReport | curve_fit_tutorial.py:138-139 | Each row's Online_Date is no later than any report of its well and equals one of them. |
| DeclineFit.AnchoredCleaned | curve_fit_tutorial.py:136-142 | Adding the columns to readings with positive rates gives rows with positive rates and non-negative days online. |
| DeclineFit.WhereCleaned | curve_fit_tutorial.py:144 | The online-window selection, like any row selection, keeps the rows cleaned. |
| DeclineFit.SetupWells | curve_fit_tutorial.py:149-160 | The loop over the API list produces, in order, exactly the per-well setup of each listed well. |
| DeclineFit.PrepareDeclineFits | curve_fit_tutorial.py:136-160 | The frame is the cleaned table with its two new columns, and all its rows are cleaned. There is one setup per requested well, and it is that well's setup within the online window. Every successful setup has qi > 0 and well-formed bounds for both fits. |

## Left out

- Reading the CSV file (`read_in_csv`) and `pd.to_datetime` are left out. Dates are whole day numbers, so `.dt.days` is an exact subtraction.
- The two decline equations (`hyperbolic_equation`, `exponential_equation`) are left out, because they are floating-point formulas with no discrete behaviour to prove.
- The `curve_fit` calls are left out. So are their results and covariances, and how the solver reacts to a NaN or non-positive qi. The model stops at the arguments and bounds passed to the solver.
- The predicted columns (lines 163-167), the prints and the plotting are left out. They are output only.
- The hard-coded API list (lines 146-147), the window dates '2016-01-01' and '2016-06-01' (line 144) and the number of first months `3` (line 153) are parameters of `PrepareDeclineFits`.
- The choice of product column (`desired_product_type`, line 134) is fixed before the model starts: a `Reading` carries only the rate of the selected product.
- InitialProduction.SortValuesByDay is a stable insertion sort. The pandas default sort is not stable, so the row order among readings with equal dates may differ. qi is therefore stated only up to ties: the lemmas about the prefix maximum hold for every date-sorted permutation.
- GroupBy.CalcType has only 'min' and 'max'. Other aggregation names that pandas accepts are left out.
- Missing API numbers or dates (NaN group keys, NaT) are left out. Every row has an integer API number and a day number.
- The rate is real, not an IEEE double. Missing values are `None`, so there is no NaN arithmetic or rounding.
- Adding columns in place is modelled as building new `AnchoredReading` rows. Aliasing between `bakken_data` and its slices, and the copy-on-slice `.loc` assignments (lines 163-167), are not captured.
- DaysOnline.GenerateTimeDeltaColumn: its own contract states only the alignment. Its meaning, given the online date it is used with, is stated by DaysOnline.DaysOnlineFromEarliestReport.
- DeclineFit.SetupWells: it goes on to the remaining wells after a well with no qi. The script would pass a NaN cap (and, for a well with no rows in the window, empty data) to `curve_fit` at line 155. `main` catches nothing, so the ValueError that scipy raises would end the loop there.
- DeclineFit.SetupFor: a well whose qi is NaN becomes a `Failure(NoInitialRate)` setup. The script would instead pass NaN bounds to the solver.

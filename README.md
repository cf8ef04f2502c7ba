# Service dashboard KPI engine, modelled in Dafny

`app.py` is a Streamlit dashboard for a field-service business. Its
`ServiceDashboard` object holds four uploaded spreadsheets: appointments,
items sold, opportunities and job times. It merges them into one table and
computes eleven key performance indicators (KPIs) over it, optionally for
one technician. Each KPI is drawn as a progress bar against a fixed goal.

This project models the engine behind the dashboard:

- the object and its loading and merging of the four tables;
- the eleven KPI calculators;
- the list of technicians offered in the sidebar;
- the progress and colour tier of a KPI bar;
- the per-row rules of the job details table: the Won/Lost column, the
  Membership Win flag and the rendering of the efficiency column.

A spreadsheet is a `Table`: column names and rows of cells. A cell is
text, a number, a timestamp or a missing value (NaN). The pandas operations
the engine relies on are written out as functions with their error cases:
left joins, `groupby`, `.str.contains` and `sum`/`mean`. Every calculator
swallows errors with a bare `except` and returns 0. In the model that
becomes an explicit branch that returns 0.

Modules:

- `Text`: `strip`, `replace`, `lower`, substring search, `float()` on
  decimal text and on the NaN and infinity words, `join` and string order.
- `Seqs`: counting, filtering, distinct values and flattening.
- `Values`: cells, Python's ordering of them, sorting, the order of
  `groupby` keys, sums and means.
- `Tables`: cells by column name, row selection, `.str.contains` counts.
- `Merge`: the left join, the join keys, the items aggregation and the whole
  merge.
- `Kpis`: the technician filter, efficiency reading and the calculators.
- `KpiProperties`: what the calculators promise beyond their bounds.
- `Dashboard`: the `ServiceDashboard` class, with `LoadData`, `MergeData`
  and the loops of the efficiency calculators.
- `Technicians`: the sidebar's technician choices.
- `Progress`: progress and tiers of a KPI bar.
- `JobDetails`: the per-row rules of the job details table.

Five points where the code is narrower or different from a loose reading
of it, and which the model follows:

- The efficiency loops remove every `%` sign, not only a trailing one,
  before `float()` reads the text.
- A timestamp in the efficiency column is counted in the on-time
  denominator but never as on time.
- The technician is whatever value the sidebar offers, not only text: the
  number 0 selects every row, and NaN selects none.
- A technician filter on a table without a `Technician` column raises a
  `KeyError`, which is caught, so the calculator returns 0.
- `float()` also reads the words `nan`, `inf` and `infinity`. The on-time
  loop counts such text in its denominator, and the job details table
  shows it as `nan%` or `inf%`.

## Model

| member | source | states |
|---|---|---|
| Dashboard.ServiceDashboard.constructor | app.py:79-84 | A new dashboard holds no table and no merged table. |
| Dashboard.ServiceDashboard.LoadData | app.py:86-112 | Each table handed in replaces the stored one with its headers stripped. A table not handed in keeps the one loaded before. The merged table is untouched. |
| Dashboard.StripHeaders | app.py:92 | Stripping headers keeps the rows and the number of columns, and each header becomes its stripped self. |
| Dashboard.StripHeadersIdempotent | app.py:92 | Stripping headers twice gives the same table as stripping them once. |
| Text.Strip | app.py:92 | The result neither starts nor ends with whitespace, and it is a slice of the input with only whitespace cut away on either side. |
| Dashboard.ServiceDashboard.MergeData | app.py:114-161 | It succeeds exactly when the merge of the stored tables exists, and then stores that merge. On failure the merged table stays as it was. On success every appointment row is extended by some merged row, and there are at least as many merged rows as appointments. |
| Merge.MergeFailsOnlyWhen | app.py:114-161 | The merge fails exactly when there is no appointments table, or when an items table joinable on Customer Email cannot be aggregated. |
| Merge.MergeKeepsEveryAppointment | app.py:118-154 | Every appointment survives the three left joins: some merged row extends it. |
| Merge.MergeKeepsRowCount | app.py:118-154 | When the job-times table repeats no value of the key it is joined on, and the opportunities table repeats no Job when it is joined, the merged table has exactly one row per appointment, and row i extends appointment i. |
| Merge.JobTimesKey | app.py:124-128 | Job times join on Job exactly when both sides have Job. Otherwise they join on Job ID exactly when both sides have that. Otherwise they do not join. |
| Merge.OpportunitiesKey | app.py:135-137 | Opportunities join exactly when both sides have Job, and only on Job. |
| Merge.WithJobTimes | app.py:122-131 | Without a job-times table or without a common key, the merged table is unchanged. |
| Merge.WithOpportunities | app.py:134-140 | Without an opportunities table or without Job on both sides, the merged table is unchanged. |
| Merge.LeftJoinKeepsEveryRow | app.py:130 | A left join is one non-empty block per left row, in order, each of whose rows extends that left row. So it has at least as many rows as the left table. |
| Merge.LeftJoinUniqueKeys | app.py:151 | When the right keys are unique, a left join keeps the row count, and row i of the result extends left row i. |
| Merge.LeftJoinWellFormed | app.py:130 | A join of well-formed tables is well formed, with all left columns plus the right columns other than the key. |
| Merge.CollidingColumnSuffixed | app.py:130 | A right column that the left table also has keeps the left one under its name and brings the right one in under its suffixed name. |
| Merge.ItemsSoldText | app.py:148 | The distinct line items can be joined exactly when all of them are text. |
| Merge.AggregateOneRowPerCustomer | app.py:145-150 | The aggregate has one row per distinct present Customer Email, with no email twice, in the order of the groupby keys. |
| Merge.AggregateKeyColumn | app.py:145-150 | The aggregate's email column is the list of groupby keys of the emails. |
| Values.GroupKeys | app.py:145-150 | The groupby keys are the distinct present values, none twice. Numbers and timestamps come before text, and each part is increasing. Grouping fails exactly when the column holds both a number and a timestamp. |
| Values.GroupKeysOneKind | app.py:145-150 | Where the present keys are all of one kind, the groupby keys are in plain sorted order. |
| Values.NumberBeforeText | app.py:145-150 | An email and a number group with the number first, although sorted() cannot sort them. |
| Merge.AggregateTotals | app.py:145-150 | Each aggregate row holds its customer's summed Price, summed Quantity and distinct line items joined by ", ". |
| Merge.WithItems | app.py:143-151 | Without an items table, or without Customer Email on both sides, the merged table is unchanged. |
| Merge.ItemsJoinKeepsRows | app.py:151 | Joining the aggregated items never changes the row count, and row i extends row i of the table joined into. |
| Merge.MergeAll | app.py:116-161 | Without an appointments table there is no merge. |
| Kpis.Filtered | app.py:166-171 | No technician, a falsy one (the empty text or the number 0) or All selects the whole table. Any other technician keeps exactly the rows whose Technician equals it, each as often as before, and NaN equals nothing. Without a Technician column nothing is selected. Without a merged table nothing is selected. |
| KpiProperties.NaNTechnicianSelectsNothing | app.py:170-171 | A NaN technician selects no row, even rows whose Technician is blank. |
| KpiProperties.ZeroTechnicianSelectsEveryone | app.py:170 | The technician 0 selects the whole table. |
| Kpis.Ratio | app.py:191-193 | A share of 0 items or of an empty total is 0. Otherwise ratio times total is 100 times the count, and a count within the total gives a value in [0, 100]. |
| Kpis.RatioMonotone | app.py:191-193 | A larger count is a larger share of the same total. |
| KpiProperties.UnknownTechnicianGivesZero | app.py:163-472 | For a technician that is not falsy or All and that no row carries, all eleven calculators give 0. |
| Kpis.AvgTicketOf | app.py:173-177 | The average ticket is 0 without a Revenue or Appt Status column or without completed jobs. It is 0 when the completed jobs' revenues hold text or timestamps. Otherwise it is the mean of their numeric revenues, and NaN when none has one. |
| KpiProperties.AvgTicketWithinRevenues | app.py:173-177 | When the completed jobs' revenues are numbers or blanks, with at least one number, the average ticket lies between the least and the greatest of them. |
| Kpis.JobCloseRateOf | app.py:184-193 | The close rate lies in [0, 100]. It is 0 without an Appt Status column or without rows. |
| KpiProperties.JobCloseRateIsCompletedShare | app.py:191-193 | The close rate is the share of rows whose Appt Status is Completed. |
| KpiProperties.JobCloseRateFourOfTen | app.py:191-193 | Four completed appointments out of ten give 40. |
| Kpis.ThisWeek | app.py:209-211 | A row is in the week exactly when it was in the table and was created no earlier than seven days before now, and it is kept as often as it occurs in the table. |
| Kpis.WeeklyRevenueOf | app.py:207-213 | Without Revenue or Created At columns the weekly revenue is 0. Otherwise it is the sum of the numbers among the week's revenues, NaN skipped, or 0 when text or a timestamp makes the sum fail. |
| KpiProperties.WeeklyRevenueLaterClock | app.py:207-213 | With non-negative revenues, the weekly revenue is non-negative and never grows as the clock moves later. |
| Kpis.Efficiency | app.py:232-241 | A number reads as itself. A blank or a timestamp gives no reading. |
| Kpis.NonFinite | app.py:234-237 | Only text that gives no finite reading can read as NaN or an infinity. |
| Text.NonFiniteWord | app.py:237 | The words read as a non-finite double print as nan, inf or -inf, and hold no digit. |
| KpiProperties.NaNTextIsNonFinite | app.py:237 | The text nan reads as NaN. |
| KpiProperties.PercentTextReads | app.py:234-237 | "90%" reads as 90. |
| KpiProperties.WordsDoNotRead | app.py:234-241 | Text without % that starts and ends with a lower-case letter, other than the nan and infinity words, reads neither as a finite number nor as a non-finite one. |
| Text.RemoveAllKeepsOrder | app.py:236 | Removing % keeps every other character, in order and as often as it occurs. |
| Text.ParseNum | app.py:237 | Text that parses holds a digit, and a plain run of digits parses as its decimal value. |
| Text.ParseNatText | app.py:237 | Decimal text of a natural number parses back to that number. |
| Kpis.EfficienciesCount | app.py:231-241 | The loop keeps one value for each cell it can read. |
| Kpis.EfficienciesRead | app.py:231-241 | Every value kept is the reading of some cell of the column. |
| Dashboard.ReadEfficiencies | app.py:231-241 | The loop's list is the readable efficiencies of the column, in order. |
| Dashboard.Total | app.py:244 | The loop's total is the sum of the values. |
| Dashboard.ServiceDashboard.AverageJobEfficiency | app.py:217-247 | The method gives the average efficiency of the filtered rows. |
| Kpis.AverageJobEfficiencyOf | app.py:227-245 | The average efficiency is 0 without an efficiency column and when no value is read. |
| KpiProperties.AverageJobEfficiencyWithin | app.py:243-245 | When at least one value is read, the average efficiency lies between the least and the greatest value read. |
| KpiProperties.AverageJobEfficiencyExample | app.py:227-245 | A blank efficiency is skipped, not read as 0: 85, 90 and a blank average to 87.5. |
| Values.MeanBounds | app.py:244 | A mean lies between the least and the greatest value averaged. |
| Kpis.ComplianceRateOf | app.py:259-281 | Compliance lies in [0, 100]. It is 0 when no job is completed, and 95 when jobs are completed but there is no efficiency column. Otherwise it is 0 when no completed job has an efficiency, else the completed jobs reading at least 80 as a share of all completed jobs. |
| KpiProperties.ComplianceWithoutEfficiency | app.py:260-280 | With a completed job but no efficiency column, compliance is 95. |
| KpiProperties.ComplianceCountsUnreadable | app.py:263-278 | The denominator is every completed job: a completed job at 85 and one whose efficiency text float() rejects give 50. |
| Dashboard.CountCompliance | app.py:264-276 | The loop counts the present values and those reading as at least 80. |
| Dashboard.ServiceDashboard.ComplianceRate | app.py:249-283 | The method gives the compliance rate of the filtered rows. |
| Kpis.MembershipWinRateOf | app.py:296-304 | The membership win rate is the share of rows counted as wins, in [0, 100]. It is 0 for an empty table and where pandas refuses the `.str` accessor. |
| Kpis.MembershipWins | app.py:299-302 | Where Items_Sold exists, the wins are the rows whose Items_Sold mentions Membership, and Service Category is not consulted. Otherwise they are the rows whose Service Category mentions it. There are none without either column, and no count where pandas refuses `.str`. |
| Tables.ContainsCount | app.py:300 | The count is the number of rows whose text mentions the keyword ignoring case. It is None exactly where the values are all numbers or all timestamps, which pandas refuses for `.str`. |
| Kpis.KeywordCount | app.py:319-327 | A keyword count is the number of rows mentioning the keyword in that column, none without the column, and absent exactly where pandas refuses `.str`. |
| Kpis.KeywordJobs | app.py:319-328 | A "sold" count is the rows mentioning the keyword in Service Category plus those mentioning it in Items_Sold, an absent column counting none. It is 0 where either column refuses `.str`, and at most twice the row count. |
| Kpis.HydroJettingSold | app.py:308-330 | The hydro-jetting count over the filtered rows is the rows mentioning Jetting in Service Category plus those mentioning it in Items_Sold, and at most twice the row count. It is 0 when nothing is selected or a column refuses `.str`. |
| Kpis.DescalingSold | app.py:332-354 | The descaling count over the filtered rows is the rows mentioning Descal in Service Category plus those mentioning it in Items_Sold, and at most twice the row count. It is 0 when nothing is selected or a column refuses `.str`. |
| KpiProperties.KeywordJobsCountsARowTwice | app.py:319-328 | A row that mentions the keyword in both columns counts twice. |
| KpiProperties.JettingMentioned | app.py:321 | "Hydro Jetting" and "Jetting Service" both mention Jetting. |
| Kpis.OnTimeArrivalRateOf | app.py:366-390 | The on-time rate lies in [0, 100]. Without an efficiency column it equals the job close rate. With one, it is the efficiencies reading at least 80 as a share of the efficiencies counted: timestamps, numbers and float()-readable text, NaN and infinity words included. |
| KpiProperties.OnTimeCountsTimestamp | app.py:372-385 | A timestamp counts in the denominator but never as on time: 85 with a timestamp gives 50. |
| KpiProperties.OnTimeSkipsUnreadable | app.py:372-385 | Text that float() rejects is skipped, in the denominator too: 85 with such text gives 100. |
| KpiProperties.NonFiniteCounted | app.py:372-385 | Text read as NaN or an infinity counts in the on-time denominator, and reaches 80 or 90 exactly when it is +infinity. |
| KpiProperties.OnTimeCountsNonFinite | app.py:372-385 | 85 with text read as NaN or -infinity gives 50, and with text read as +infinity gives 100. |
| Dashboard.CountOnTime | app.py:372-385 | The loop counts the values reading as at least 80, and the values counted in the denominator. |
| Dashboard.ServiceDashboard.OnTimeArrivalRate | app.py:356-392 | The method gives the on-time rate of the filtered rows. |
| Kpis.FiveStarReviewsOf | app.py:405-425 | Five-star reviews never exceed the completed jobs, and are 0 without an Appt Status column. With an efficiency column they are the completed jobs reading at least 90. Without one they are 70% of the completed jobs, rounded down (the corrected fallback). |
| KpiProperties.FiveStarWithinCompliance | app.py:267-278 | Every five-star job is compliant: the five-star share of completed jobs is at most the compliance rate. |
| Dashboard.CountFiveStar | app.py:408-419 | The loop counts the values reading as at least 90. |
| Dashboard.ServiceDashboard.FiveStarReviews | app.py:394-427 | The method gives the five-star count of the filtered rows, with the corrected 70% fallback. |
| Kpis.SeventyPercent | app.py:425 | The corrected fallback is 70% of the completed jobs, rounded down. The line as written can give one less (see Findings). |
| KpiProperties.SeventyPercentOfNinety | app.py:425 | With 90 completed jobs, the fallback as written gives 62 where 70% rounded down is 63. |
| Kpis.WarrantyCallRateOf | app.py:440-446 | The warranty call rate is the share of rows whose Service Category mentions warranty, in [0, 100]. It is 0 without that column, without rows, and where pandas refuses `.str`. |
| KpiProperties.WarrantyPatternIsOneWord | app.py:442 | The pattern "Warranty or warranty", matched ignoring case, accepts exactly the cells that mention warranty. |
| Kpis.UpsellConversionOf | app.py:461-470 | Upsell conversion lies in [0, 100]. It is 0 for an empty table, and 0 without item quantities and without revenue. With item quantities, it is the share of rows with more than one item, or 0 when the column is not numeric. Otherwise, it is the share of rows whose revenue exceeds 1.5 times the mean revenue, or 0 when the revenue column is not numeric or has no number. |
| KpiProperties.UpsellByRevenueUnderTwoThirds | app.py:464-467 | Without item quantities and with non-negative revenues, upsell conversion stays under 200/3. |
| KpiProperties.FewAboveOneAndAHalfMeans | app.py:464-467 | Among non-negative numbers, fewer than two thirds exceed one and a half times their mean. |
| Technicians.TechnicianOptions | app.py:474-484 | The list starts with All. It is just All without a merged table or Technician column. After All come the distinct present technicians, strictly sorted, no more and no fewer. It fails exactly when the technicians are of two kinds that Python cannot sort. |
| Technicians.ListedTechnicianHasRows | app.py:474-484 | Choosing any listed technician that is not falsy keeps at least one row. |
| Technicians.EveryTechnicianOffered | app.py:479-482 | Every technician of the merged table is offered exactly once. |
| Values.SortedDistinct | app.py:480-482 | The result is strictly sorted, has no repetition and holds exactly the present values. It fails exactly when two of them cannot be compared. |
| Values.Sort | app.py:482 | Sorting distinct values gives a strictly sorted permutation of them. |
| Progress.ProgressPercent | app.py:488-491 | Progress is 0 for a goal of 0 and never exceeds 100. It is 100 once the value reaches a positive goal, and in [0, 100) below it. It is NaN exactly for a NaN value and a non-zero goal. |
| Progress.TierOf | app.py:494-505 | NaN progress is in the red tier. A number is on target exactly from 100, near target exactly from 80 up to 100, below target exactly from 60 up to 80, and off target exactly under 60. |
| Progress.OnTargetIffGoalReached | app.py:488-497 | For a positive goal, the bar is green exactly when the value reaches the goal. |
| Progress.TierMonotone | app.py:488-505 | For a fixed positive goal, a larger value never gets a worse tier. |
| Progress.ZeroGoalOffTarget | app.py:488-489 | A goal of 0 always draws a red bar at 0%. |
| Progress.TiersDrawnApart | app.py:494-505 | Different tiers have different colours and different icons. |
| Progress.JobCloseRateBars | app.py:547-548 | A close rate of 82 meets its goal of 80. A close rate of 70 is in the blue tier. |
| JobDetails.MembershipFlag | app.py:652-660 | A Yes flag means one of the two columns mentions membership. Where Items_Sold has a value, it alone decides. |
| JobDetails.MembershipFlags | app.py:652-663 | The flag column exists exactly when Items_Sold or Service Category does. It has one flag per row. |
| JobDetails.MembershipWinColumn | app.py:652-663 | The loop builds the column row by row: one Yes or No per row, in row order, as the flags say. |
| JobDetails.FlagsCoverMembershipWins | app.py:652-663 | Where Items_Sold exists, every win that the membership rate counts is flagged Yes in the details table. |
| JobDetails.FormatEfficiency | app.py:676-695 | Blanks render as 0% and timestamps as their text. A value with a finite reading renders as that percentage. Text read as NaN or an infinity renders as nan%, inf% or -inf%. Text that float() rejects renders verbatim, or as 0% when nothing is left once % and spaces are gone. |
| JobDetails.RenderedPercentIsRead | app.py:676-695 | A non-zero percentage in the details table is the value the efficiency calculators read. |
| JobDetails.BlankRendersZero | app.py:680-686 | Text of only spaces and % signs renders as 0%. |
| JobDetails.WonLost | app.py:700 | A row is Won exactly when its status is Completed, and Lost otherwise. |
| JobDetails.WonLostColumn | app.py:633-647 | The Won/Lost column exists exactly when Appt Status does, with one entry per row. |
| JobDetails.WonCountIsCompletedCount | app.py:700 | The jobs shown as Won are exactly as many as the completed jobs the close rate counts. |

## Left out

- Streamlit page setup, CSS, widgets, HTML strings, charts, the date-range
  filter and the Excel export: these are presentation and file I/O.
- Reading the spreadsheets: `LoadData` takes tables that are already read.
  A file that fails to read, which makes `load_data` return False, is not
  modelled.
- The `st.error` messages of `load_data` and `merge_data`.
- The current time and the parser of date text: both are parameters of
  the weekly revenue. A number in the Created At column is read as no date,
  although `pd.to_datetime` would read it as nanoseconds since the epoch.
- Number formatting: `:,.2f`, `:.0f`, and the rendering of the revenue
  column and the progress-bar value. The rendering of the efficiency
  column is modelled up to the number it shows.
- Python's `str.lower` beyond ASCII letters.
- `float()` forms other than signed decimals and the NaN and infinity
  words: exponents and underscores. `str()` of numbers with letters is not
  modelled either.
- `Kpis.AverageJobEfficiencyOf`: text read as NaN or an infinity makes the
  program's mean NaN or infinite. The model has no non-finite reals and
  leaves such text out of the mean.
- `Kpis.FiveStarReviewsOf`: without an efficiency column this gives the
  corrected 70% fallback. The line as written can give one less, for
  example 62 rather than 63 for 90 completed jobs (see Findings).
- `Dashboard.ServiceDashboard.FiveStarReviews`: gives the corrected 70%
  fallback, like `Kpis.FiveStarReviewsOf`.
- `Tables.StrAccessorRefuses`: a spreadsheet column whose cells are all
  blank is read as a float column, and pandas refuses `.str` on it. The
  model accepts an all-blank column, because it does not track where a
  column came from. A column that a join fills with NaN holds objects, and
  pandas accepts it.
- `Tables.ContainsCount`: counts 0 on an all-blank column where pandas,
  for a float column read from a spreadsheet, refuses `.str`. See
  `Tables.StrAccessorRefuses`.
- `Kpis.Efficiency`: booleans are not a separate kind of cell. They are numbers
  in pandas and would be read as 0 or 1.
- `Values.PandasSum`: a column of text only is treated as an error. pandas
  would concatenate the strings, and the calculator would then return text
  rather than a number. By the same rule, the model's merge fails
  (app.py:145-147) when a customer's Price or Quantity cells are all text.
  There pandas concatenates them, and merge_data returns True.
- `Kpis.AvgTicketOf`: a column holding only timestamps, whose mean pandas
  can take, is treated as an error like text.
- Comparing a timestamp with a number in the upsell rule is treated as an
  error, as pandas does for mixed columns, without separating the cases in
  which pandas succeeds.
- Merge: pandas' dtype errors on joining keys of different types, and the
  duplicate column names that suffixes can create, are not modelled.
- Merge: the order of the merged rows is the left order. pandas' sort of
  the `groupby` keys is modelled for the aggregate only.
- `Kpis.SeventyPercentAsWritten`: does not model the overflow of a double
  beyond 2^1024, which is far above any table size.
- The technician filter of the job details table, whose `KeyError` is not
  caught, and the `head(20)` of that table.
- Integer widths: row counts are unbounded naturals, and money and
  efficiencies are exact reals rather than doubles.

## Findings

| source | as written | input that shows it | evidently intended | confidence | as-written member | corrected member |
|---|---|---|---|---|---|---|
| app.py:425 | `int(completed_jobs.shape[0] * 0.7)` multiplies by the double nearest 0.7, which is slightly below 0.7, and truncates the product | 90 completed jobs and no Job Efficiency column give 62 five-star reviews | 70% of the completed jobs rounded down: 63 for 90 | not executed | Kpis.SeventyPercentAsWritten (shown by KpiProperties.SeventyPercentOfNinety) | Kpis.SeventyPercent |

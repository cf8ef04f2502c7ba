/** The eleven KPI calculators of the dashboard (app.py:163-472), each over
    the merged table and an optional technician. Every calculator returns 0
    where the source's try/except swallows an error, and so do these. */
module Kpis {
  import opened Wrappers
  import opened Values
  import opened Seqs
  import opened Tables
  import Text

  const Completed: Value := Str("Completed")

  // ---------------------------------------------------------------------
  // The preamble every calculator shares (e.g. app.py:166-171)
  // ---------------------------------------------------------------------

  /** `technician and technician != 'All'` is false: no technician, a
      falsy one (the empty text, the number 0) or 'All' selects every row.
      NaN and timestamps are truthy. */
  predicate SelectsEveryone(tech: Option<Value>) {
    tech.None? || tech.value == Str("") || tech.value == Num(0.0) || tech.value == Str("All")
  }

  /** `df['Technician'] == technician` on one row: equal values, except
      that NaN equals nothing. */
  predicate SameTechnician(v: Value, tech: Value) {
    v == tech && !tech.Missing?
  }

  /** The rows a calculator works on, or None where it returns 0 before
      computing anything: no merged table, or a technician to select but no
      Technician column (the KeyError is caught). A selected technician
      keeps exactly the rows whose Technician equals it, each as often as
      in the merged table. */
  function Filtered(merged: Option<Table>, tech: Option<Value>): (r: Option<Table>)
    ensures merged.None? ==> r.None?
    ensures merged.Some? && SelectsEveryone(tech) ==> r == merged
    ensures merged.Some? && !SelectsEveryone(tech) ==> (r.Some? <==> "Technician" in merged.value.columns)
    ensures r.Some? && !SelectsEveryone(tech) ==>
      && r.value.columns == merged.value.columns
      && forall row :: multiset(r.value.rows)[row] ==
           if SameTechnician(Cell(merged.value.columns, row, "Technician"), tech.value)
           then multiset(merged.value.rows)[row] else 0
  {
    match merged
    case None => None
    case Some(t) =>
      if SelectsEveryone(tech) then Some(t)
      else if "Technician" !in t.columns then None
      else if tech.value.Missing? then Some(Table(t.columns, []))
      else Some(Where(t, "Technician", tech.value))
  }

  /** (m / n * 100) if n > 0 else 0. */
  function Ratio(m: nat, n: nat): (r: real)
    ensures n == 0 || m == 0 ==> r == 0.0
    ensures n > 0 ==> r * n as real == 100.0 * m as real
    ensures m <= n ==> 0.0 <= r <= 100.0
  {
    if n > 0 then
      var r := 100.0 * m as real / n as real;
      assert r * n as real == 100.0 * m as real;
      r
    else 0.0
  }

  /** A larger count is a larger share of the same total. */
  lemma RatioMonotone(m1: nat, m2: nat, n: nat)
    requires m1 <= m2
    ensures Ratio(m1, n) <= Ratio(m2, n)
  {
    if n > 0 {
      var k := 100.0 / n as real;
      assert k > 0.0;
      assert Ratio(m1, n) == k * m1 as real;
      assert Ratio(m2, n) == k * m2 as real;
      var d := (m2 - m1) as real;
      assert k * m2 as real - k * m1 as real == k * d;
      assert k * d >= 0.0;
    }
  }

  /** df[df['Appt Status'] == 'Completed']. */
  function CompletedJobs(df: Table): Table {
    Where(df, "Appt Status", Completed)
  }

  /** A keyword count over one column: the rows whose text under c contains
      kw ignoring case, Some(0) where the column is absent, None where the
      `.str` accessor raises. */
  function KeywordCount(df: Table, c: string, kw: string): (r: Option<nat>)
    ensures c !in df.columns ==> r == Some(0)
    ensures r.Some? <==> StrAccepted(df, c)
    ensures r.Some? ==> r.value == Mentioning(df, c, kw) <= |df.rows|
  {
    if c in df.columns then ContainsCount(df, c, kw) else Some(0)
  }

  /** Whether `df[c].str` can be used, or is never reached because the
      calculator tests for the column first. */
  predicate StrAccepted(df: Table, c: string) {
    c !in df.columns || !StrAccessorRefuses(Column(df, c))
  }

  /** How many rows mention kw under c, ignoring case: text only, and none
      when there is no such column. */
  function Mentioning(df: Table, c: string, kw: string): (n: nat)
    ensures n <= |df.rows|
  {
    if c in df.columns then Count(Column(df, c), (v: Value) => Mentions(v, kw)) else 0
  }

  // ---------------------------------------------------------------------
  // Job efficiency as the loops read it (app.py:228-238, 264-273)
  // ---------------------------------------------------------------------

  /** The finite number the efficiency loops make of one cell: text has
      every '%' removed and surrounding whitespace stripped and is read by
      float(); a number is itself. None for NaN, a timestamp, text float()
      rejects, and the words float() reads as NaN or an infinity, which
      NonFinite reads. */
  function Efficiency(v: Value): (r: Option<real>)
    ensures v.Num? ==> r == Some(v.x)
    ensures v.Missing? || v.Date? ==> r.None?
  {
    match v
    case Str(s) => Text.ParseNum(Text.Strip(Text.RemoveAll(s, '%')))
    case Num(x) => Some(x)
    case _ => None
  }

  /** The efficiency values a loop keeps, in column order. */
  function Efficiencies(vs: seq<Value>): (xs: seq<real>)
    ensures |xs| <= |vs|
  {
    if vs == [] then []
    else
      match Efficiency(vs[|vs| - 1])
      case None => Efficiencies(vs[..|vs| - 1])
      case Some(x) => Efficiencies(vs[..|vs| - 1]) + [x]
  }

  /** The loop keeps one value for each value it can read. */
  lemma {:induction false} EfficienciesCount(vs: seq<Value>)
    ensures |Efficiencies(vs)| == Count(vs, Readable)
  {
    if vs != [] {
      EfficienciesCount(vs[..|vs| - 1]);
    }
  }

  /** Every value kept is the efficiency of some value of the column. */
  lemma {:induction false} EfficienciesRead(vs: seq<Value>, x: real)
    requires x in Efficiencies(vs)
    ensures exists i :: 0 <= i < |vs| && Efficiency(vs[i]) == Some(x)
  {
    var init := vs[..|vs| - 1];
    if x in Efficiencies(init) {
      EfficienciesRead(init, x);
      var i :| 0 <= i < |init| && Efficiency(init[i]) == Some(x);
      assert init[i] == vs[i];
    } else {
      assert Efficiency(vs[|vs| - 1]) == Some(x);
    }
  }

  /** Text that float() reads as a non-finite double once '%' and the
      surrounding whitespace are gone ("nan", "inf", "-infinity", ...):
      how that double prints, or None for any other value. */
  function NonFinite(v: Value): (r: Option<string>)
    ensures r.Some? ==> v.Str? && Efficiency(v).None?
  {
    if v.Str? then
      var clean := Text.Strip(Text.RemoveAll(v.s, '%'));
      var w := Text.NonFiniteWord(clean);
      assert w.Some? ==> Text.ParseNum(clean).None?;
      w
    else None
  }

  /** A value the loop reads as at least the threshold: a number that
      reaches it, or text read as +infinity. A NaN compares false. */
  predicate Reaches(v: Value, threshold: real) {
    (Efficiency(v).Some? && Efficiency(v).value >= threshold) || NonFinite(v) == Some("inf")
  }

  /** An efficiency of at least 80: compliant, and on time. */
  predicate Compliant(v: Value) {
    Reaches(v, 80.0)
  }

  /** An efficiency of at least 90: a five-star job. */
  predicate FiveStar(v: Value) {
    Reaches(v, 90.0)
  }

  /** A value the efficiency loops are given at all (`notna`). */
  predicate Present(v: Value) {
    !v.Missing?
  }

  /** A value the efficiency loops can read. */
  predicate Readable(v: Value) {
    Efficiency(v).Some?
  }

  /** A value the on-time loop counts in its denominator: anything present
      that does not make float() raise, timestamps included (they are
      neither text nor number and fall through to `total_count += 1`), and
      so are the words float() reads as NaN or an infinity. */
  predicate OnTimeCounted(v: Value) {
    v.Date? || Efficiency(v).Some? || NonFinite(v).Some?
  }

  // ---------------------------------------------------------------------
  // The calculators
  // ---------------------------------------------------------------------

  /** calculate_avg_ticket on the selected rows: the mean Revenue of the
      completed jobs. None stands for the NaN that `mean` gives when none of
      them has a revenue; text or timestamps among the revenues make `mean`
      raise, hence 0. */
  function AvgTicketOf(df: Table): (r: Option<real>)
    ensures r.None? ==> exists i :: 0 <= i < |df.rows| && Cell(df.columns, df.rows[i], "Appt Status") == Completed
    ensures "Revenue" !in df.columns || "Appt Status" !in df.columns || |CompletedJobs(df).rows| == 0 ==> r == Some(0.0)
    ensures !Numeric(Column(CompletedJobs(df), "Revenue")) ==> r == Some(0.0)
    ensures "Revenue" in df.columns && "Appt Status" in df.columns && |CompletedJobs(df).rows| > 0
              && Numeric(Column(CompletedJobs(df), "Revenue")) ==>
      var xs := Nums(Column(CompletedJobs(df), "Revenue"));
      r == if |xs| > 0 then Some(Mean(xs)) else None
  {
    if "Revenue" in df.columns && "Appt Status" in df.columns then
      var c := CompletedJobs(df);
      if |c.rows| > 0 then
        var revenue := Column(c, "Revenue");
        if Numeric(revenue) then
          var r := PandasMean(revenue);
          if r.None? then
            assert c.rows[0] in df.rows;
            r
          else r
        else Some(0.0)
      else Some(0.0)
    else Some(0.0)
  }

  /** calculate_job_close_rate on the selected rows: completed appointments
      as a percentage of all appointments. */
  function JobCloseRateOf(df: Table): (r: real)
    ensures 0.0 <= r <= 100.0
    ensures "Appt Status" !in df.columns || df.rows == [] ==> r == 0.0
  {
    if "Appt Status" in df.columns then Ratio(|CompletedJobs(df).rows|, |df.rows|) else 0.0
  }

  /** One week, in seconds. */
  const Week: int := 7 * 24 * 60 * 60

  /** pd.to_datetime(..., errors='coerce') of one cell, in seconds since the
      epoch: a timestamp stays, text goes through the date parser given,
      anything else becomes NaT (None). */
  function AsTimestamp(v: Value, parseDate: string -> Option<int>): Option<int> {
    match v
    case Date(t) => Some(t)
    case Str(s) => parseDate(s)
    case _ => None
  }

  /** A row created no earlier than one week before now. */
  predicate CreatedThisWeek(cols: seq<string>, row: Row, now: int, parseDate: string -> Option<int>) {
    var t := AsTimestamp(Cell(cols, row, "Created At"), parseDate);
    t.Some? && t.value >= now - Week
  }

  /** The rows of the last seven days. */
  function ThisWeek(df: Table, now: int, parseDate: string -> Option<int>): (w: Table)
    ensures w.columns == df.columns
    ensures forall row :: row in w.rows <==> row in df.rows && CreatedThisWeek(df.columns, row, now, parseDate)
    ensures forall row ::
      multiset(w.rows)[row] == if CreatedThisWeek(df.columns, row, now, parseDate) then multiset(df.rows)[row] else 0
  {
    Table(df.columns, Filter(df.rows, (row: Row) => CreatedThisWeek(df.columns, row, now, parseDate)))
  }

  /** calculate_weekly_revenue on the selected rows: the revenue of the rows
      created in the last seven days, with the clock and the date-text
      parser as parameters. */
  function WeeklyRevenueOf(df: Table, now: int, parseDate: string -> Option<int>): (r: real)
    ensures "Revenue" !in df.columns || "Created At" !in df.columns ==> r == 0.0
    ensures "Revenue" in df.columns && "Created At" in df.columns ==>
      var week := Column(ThisWeek(df, now, parseDate), "Revenue");
      r == if Numeric(week) then Sum(Nums(week)) else 0.0
  {
    if "Revenue" in df.columns && "Created At" in df.columns then
      match PandasSum(Column(ThisWeek(df, now, parseDate), "Revenue"))
      case None => 0.0
      case Some(x) => x
    else 0.0
  }

  /** calculate_avg_job_efficiency on the selected rows: the mean of the
      efficiency values the loop can read, 0 when there is none. */
  function AverageJobEfficiencyOf(df: Table): (r: real)
    ensures "Job Efficiency" !in df.columns ==> r == 0.0
    ensures Count(Column(df, "Job Efficiency"), Readable) == 0 ==> r == 0.0
  {
    if "Job Efficiency" in df.columns then
      var xs := Efficiencies(Column(df, "Job Efficiency"));
      EfficienciesCount(Column(df, "Job Efficiency"));
      if |xs| > 0 then Mean(xs) else 0.0
    else 0.0
  }

  /** calculate_compliance_rate on the selected rows: the completed jobs
      whose efficiency reads as at least 80, as a percentage of all
      completed jobs; 95 when there is no efficiency column, 0 when no
      completed job has an efficiency. */
  function ComplianceRateOf(df: Table): (r: real)
    ensures 0.0 <= r <= 100.0
    ensures "Appt Status" !in df.columns || CompletedJobs(df).rows == [] ==> r == 0.0
    ensures "Appt Status" in df.columns && "Job Efficiency" !in df.columns && CompletedJobs(df).rows != [] ==>
      r == 95.0
    ensures "Appt Status" in df.columns && "Job Efficiency" in df.columns ==>
      var effs := Column(CompletedJobs(df), "Job Efficiency");
      r == if Count(effs, Present) == 0 then 0.0 else Ratio(Count(effs, Compliant), |CompletedJobs(df).rows|)
  {
    if "Appt Status" !in df.columns then 0.0
    else
      var c := CompletedJobs(df);
      if |c.rows| == 0 then 0.0
      else if "Job Efficiency" !in df.columns then 95.0
      else
        var effs := Column(c, "Job Efficiency");
        if Count(effs, Present) == 0 then 0.0
        else Ratio(Count(effs, Compliant), |c.rows|)
  }

  /** The rows counted as membership wins: by Items_Sold when the merge
      brought that column, else by Service Category. */
  function MembershipWins(df: Table): (r: Option<nat>)
    ensures r.Some? ==> r.value <= |df.rows|
    ensures "Items_Sold" in df.columns ==>
      r == if StrAccepted(df, "Items_Sold") then Some(Mentioning(df, "Items_Sold", "Membership")) else None
    ensures "Items_Sold" !in df.columns ==>
      r == if StrAccepted(df, "Service Category") then Some(Mentioning(df, "Service Category", "Membership")) else None
    ensures "Items_Sold" !in df.columns && "Service Category" !in df.columns ==> r == Some(0)
  {
    if "Items_Sold" in df.columns then ContainsCount(df, "Items_Sold", "Membership")
    else KeywordCount(df, "Service Category", "Membership")
  }

  /** calculate_membership_win_rate on the selected rows: membership wins
      as a percentage of all rows. */
  function MembershipWinRateOf(df: Table): (r: real)
    ensures 0.0 <= r <= 100.0
    ensures MembershipWins(df).Some? ==> r == Ratio(MembershipWins(df).value, |df.rows|)
    ensures MembershipWins(df).None? || |df.rows| == 0 ==> r == 0.0
  {
    match MembershipWins(df)
    case None => 0.0
    case Some(w) => Ratio(w, |df.rows|)
  }

  /** The shape of the two "sold" KPIs: rows whose Service Category mentions
      kw plus rows whose Items_Sold mentions it, so one row can count
      twice. */
  function KeywordJobs(df: Table, kw: string): (r: nat)
    ensures r <= 2 * |df.rows|
    ensures StrAccepted(df, "Service Category") && StrAccepted(df, "Items_Sold") ==>
      r == Mentioning(df, "Service Category", kw) + Mentioning(df, "Items_Sold", kw)
    ensures !StrAccepted(df, "Service Category") || !StrAccepted(df, "Items_Sold") ==> r == 0
  {
    var a := KeywordCount(df, "Service Category", kw);
    var b := KeywordCount(df, "Items_Sold", kw);
    if a.Some? && b.Some? then a.value + b.value else 0
  }

  /** calculate_on_time_arrival on the selected rows: efficiencies of at
      least 80 as a percentage of the efficiencies counted; without an
      efficiency column, the completed share of all rows. */
  function OnTimeArrivalRateOf(df: Table): (r: real)
    ensures 0.0 <= r <= 100.0
    ensures "Job Efficiency" !in df.columns ==> r == JobCloseRateOf(df)
    ensures "Job Efficiency" in df.columns ==>
      var effs := Column(df, "Job Efficiency");
      r == Ratio(Count(effs, Compliant), Count(effs, OnTimeCounted))
  {
    if "Job Efficiency" in df.columns then
      var effs := Column(df, "Job Efficiency");
      CountMonotone(effs, Compliant, OnTimeCounted);
      Ratio(Count(effs, Compliant), Count(effs, OnTimeCounted))
    else if "Appt Status" in df.columns then Ratio(|CompletedJobs(df).rows|, |df.rows|)
    else 0.0
  }

  /** int(n * 0.7) as written, in IEEE double arithmetic: n is converted
      to a double, multiplied by the double nearest 0.7, which is
      SevenTenths / 2^52 and a little under 0.7, the product rounded to
      the nearest double (ties to even), and the result truncated. */
  function SeventyPercentAsWritten(n: nat): nat {
    var exact := DoubleOf(n) * SevenTenths;
    DoubleOf(exact) / TwoToThe52
  }

  const SevenTenths: nat := 3152519739159347
  const TwoToThe52: nat := 4503599627370496
  const TwoToThe53: nat := 9007199254740992

  /** The gap between neighbouring doubles around q: 1 below 2^53, and
      doubling with every further bit. */
  function Spacing(q: nat): (u: nat)
    ensures u >= 1
  {
    if q < TwoToThe53 then 1 else 2 * Spacing(q / 2)
  }

  /** The double nearest q among the multiples of its spacing, an exact tie
      going to the even multiple. */
  function DoubleOf(q: nat): nat {
    var u := Spacing(q);
    var k, rem := q / u, q % u;
    if 2 * rem < u then k * u
    else if 2 * rem > u then (k + 1) * u
    else if k % 2 == 0 then k * u
    else (k + 1) * u
  }

  /** int(n * 0.7) as intended: 70% of n, rounded down. */
  function SeventyPercent(n: nat): (r: nat)
    ensures 10 * r <= 7 * n < 10 * (r + 1)
  {
    (7 * n) / 10
  }

  /** calculate_five_star_reviews on the selected rows: the completed jobs
      whose efficiency reads as at least 90; without an efficiency column,
      70% of the completed jobs rounded down. */
  function FiveStarReviewsOf(df: Table): (r: nat)
    ensures r <= |CompletedJobs(df).rows|
    ensures "Appt Status" !in df.columns ==> r == 0
    ensures "Appt Status" in df.columns && "Job Efficiency" !in df.columns ==>
      10 * r <= 7 * |CompletedJobs(df).rows| < 10 * (r + 1)
    ensures "Appt Status" in df.columns && "Job Efficiency" in df.columns ==>
      r == Count(Column(CompletedJobs(df), "Job Efficiency"), FiveStar)
  {
    if "Appt Status" !in df.columns then 0
    else
      var c := CompletedJobs(df);
      if "Job Efficiency" in df.columns then Count(Column(c, "Job Efficiency"), FiveStar)
      else SeventyPercent(|c.rows|)
  }

  /** calculate_warranty_call_rate on the selected rows: rows whose Service
      Category mentions warranty (the pattern 'Warranty|warranty' with
      case=False), as a percentage of all rows. */
  function WarrantyCallRateOf(df: Table): (r: real)
    ensures 0.0 <= r <= 100.0
    ensures "Service Category" !in df.columns || |df.rows| == 0 ==> r == 0.0
    ensures StrAccepted(df, "Service Category") ==>
      r == Ratio(Mentioning(df, "Service Category", "warranty"), |df.rows|)
    ensures !StrAccepted(df, "Service Category") ==> r == 0.0
  {
    match KeywordCount(df, "Service Category", "warranty")
    case None => 0.0
    case Some(w) => Ratio(w, |df.rows|)
  }

  /** calculate_upsell_conversion on the selected rows: rows with more than
      one item bought, or, when the merge brought no item quantities, rows
      whose revenue exceeds one and a half times the average, as a
      percentage of all rows. Text or timestamps in the column compared make
      pandas raise, hence 0; an average that is NaN matches nothing. */
  function UpsellConversionOf(df: Table): (r: real)
    ensures 0.0 <= r <= 100.0
    ensures "Total_Items_Qty" !in df.columns && "Revenue" !in df.columns ==> r == 0.0
    ensures |df.rows| == 0 ==> r == 0.0
    ensures "Total_Items_Qty" in df.columns ==>
      var qty := Column(df, "Total_Items_Qty");
      r == if Numeric(qty) then Ratio(Count(qty, Exceeds(1.0)), |df.rows|) else 0.0
    ensures "Total_Items_Qty" !in df.columns && "Revenue" in df.columns ==>
      var revenue := Column(df, "Revenue");
      var avg := PandasMean(revenue);
      r == if Numeric(revenue) && avg.Some? then Ratio(Count(revenue, Exceeds(avg.value * 1.5)), |df.rows|) else 0.0
  {
    if "Total_Items_Qty" in df.columns then
      var qty := Column(df, "Total_Items_Qty");
      if Numeric(qty) then Ratio(Count(qty, Exceeds(1.0)), |df.rows|) else 0.0
    else if "Revenue" in df.columns then
      var revenue := Column(df, "Revenue");
      if !Numeric(revenue) then 0.0
      else
        match PandasMean(revenue)
        case None => 0.0
        case Some(avg) => Ratio(Count(revenue, Exceeds(avg * 1.5)), |df.rows|)
    else 0.0
  }

  // ---------------------------------------------------------------------
  // The calculators as the dashboard calls them: technician filter first,
  // 0 when it fails
  // ---------------------------------------------------------------------

  /** calculate_avg_ticket (app.py:163-179). */
  function AvgTicket(merged: Option<Table>, tech: Option<Value>): (r: Option<real>)
    ensures Filtered(merged, tech).None? ==> r == Some(0.0)
    ensures Filtered(merged, tech).Some? ==> r == AvgTicketOf(Filtered(merged, tech).value)
  {
    match Filtered(merged, tech)
    case None => Some(0.0)
    case Some(df) => AvgTicketOf(df)
  }

  /** calculate_job_close_rate (app.py:181-195). */
  function JobCloseRate(merged: Option<Table>, tech: Option<Value>): (r: real)
    ensures Filtered(merged, tech).None? ==> r == 0.0
    ensures Filtered(merged, tech).Some? ==> r == JobCloseRateOf(Filtered(merged, tech).value)
    ensures 0.0 <= r <= 100.0
  {
    match Filtered(merged, tech)
    case None => 0.0
    case Some(df) => JobCloseRateOf(df)
  }

  /** calculate_weekly_revenue (app.py:197-215). */
  function WeeklyRevenue(merged: Option<Table>, tech: Option<Value>, now: int, parseDate: string -> Option<int>): (r: real)
    ensures Filtered(merged, tech).None? ==> r == 0.0
    ensures Filtered(merged, tech).Some? ==> r == WeeklyRevenueOf(Filtered(merged, tech).value, now, parseDate)
  {
    match Filtered(merged, tech)
    case None => 0.0
    case Some(df) => WeeklyRevenueOf(df, now, parseDate)
  }

  /** calculate_avg_job_efficiency (app.py:217-247). */
  function AverageJobEfficiency(merged: Option<Table>, tech: Option<Value>): (r: real)
    ensures Filtered(merged, tech).None? ==> r == 0.0
    ensures Filtered(merged, tech).Some? ==> r == AverageJobEfficiencyOf(Filtered(merged, tech).value)
  {
    match Filtered(merged, tech)
    case None => 0.0
    case Some(df) => AverageJobEfficiencyOf(df)
  }

  /** calculate_compliance_rate (app.py:249-283). */
  function ComplianceRate(merged: Option<Table>, tech: Option<Value>): (r: real)
    ensures Filtered(merged, tech).None? ==> r == 0.0
    ensures Filtered(merged, tech).Some? ==> r == ComplianceRateOf(Filtered(merged, tech).value)
    ensures 0.0 <= r <= 100.0
  {
    match Filtered(merged, tech)
    case None => 0.0
    case Some(df) => ComplianceRateOf(df)
  }

  /** calculate_membership_win_rate (app.py:285-306). */
  function MembershipWinRate(merged: Option<Table>, tech: Option<Value>): (r: real)
    ensures Filtered(merged, tech).None? ==> r == 0.0
    ensures Filtered(merged, tech).Some? ==> r == MembershipWinRateOf(Filtered(merged, tech).value)
    ensures 0.0 <= r <= 100.0
  {
    match Filtered(merged, tech)
    case None => 0.0
    case Some(df) => MembershipWinRateOf(df)
  }

  /** calculate_kpi_hydro_jetting (app.py:308-330). */
  function HydroJettingSold(merged: Option<Table>, tech: Option<Value>): (r: nat)
    ensures Filtered(merged, tech).None? ==> r == 0
    ensures Filtered(merged, tech).Some? ==> r == KeywordJobs(Filtered(merged, tech).value, "Jetting")
    ensures Filtered(merged, tech).Some? ==> r <= 2 * |Filtered(merged, tech).value.rows|
    ensures Filtered(merged, tech).Some? ==>
      var df := Filtered(merged, tech).value;
      StrAccepted(df, "Service Category") && StrAccepted(df, "Items_Sold") ==>
        r == Mentioning(df, "Service Category", "Jetting") + Mentioning(df, "Items_Sold", "Jetting")
  {
    match Filtered(merged, tech)
    case None => 0
    case Some(df) => KeywordJobs(df, "Jetting")
  }

  /** calculate_kpi_descaling (app.py:332-354). */
  function DescalingSold(merged: Option<Table>, tech: Option<Value>): (r: nat)
    ensures Filtered(merged, tech).None? ==> r == 0
    ensures Filtered(merged, tech).Some? ==> r == KeywordJobs(Filtered(merged, tech).value, "Descal")
    ensures Filtered(merged, tech).Some? ==> r <= 2 * |Filtered(merged, tech).value.rows|
    ensures Filtered(merged, tech).Some? ==>
      var df := Filtered(merged, tech).value;
      StrAccepted(df, "Service Category") && StrAccepted(df, "Items_Sold") ==>
        r == Mentioning(df, "Service Category", "Descal") + Mentioning(df, "Items_Sold", "Descal")
  {
    match Filtered(merged, tech)
    case None => 0
    case Some(df) => KeywordJobs(df, "Descal")
  }

  /** calculate_on_time_arrival (app.py:356-392). */
  function OnTimeArrivalRate(merged: Option<Table>, tech: Option<Value>): (r: real)
    ensures Filtered(merged, tech).None? ==> r == 0.0
    ensures Filtered(merged, tech).Some? ==> r == OnTimeArrivalRateOf(Filtered(merged, tech).value)
    ensures 0.0 <= r <= 100.0
  {
    match Filtered(merged, tech)
    case None => 0.0
    case Some(df) => OnTimeArrivalRateOf(df)
  }

  /** calculate_five_star_reviews (app.py:394-427). */
  function FiveStarReviews(merged: Option<Table>, tech: Option<Value>): (r: nat)
    ensures Filtered(merged, tech).None? ==> r == 0
    ensures Filtered(merged, tech).Some? ==> r == FiveStarReviewsOf(Filtered(merged, tech).value)
    ensures Filtered(merged, tech).Some? ==> r <= |CompletedJobs(Filtered(merged, tech).value).rows|
  {
    match Filtered(merged, tech)
    case None => 0
    case Some(df) => FiveStarReviewsOf(df)
  }

  /** calculate_warranty_call_rate (app.py:429-448). */
  function WarrantyCallRate(merged: Option<Table>, tech: Option<Value>): (r: real)
    ensures Filtered(merged, tech).None? ==> r == 0.0
    ensures Filtered(merged, tech).Some? ==> r == WarrantyCallRateOf(Filtered(merged, tech).value)
    ensures 0.0 <= r <= 100.0
  {
    match Filtered(merged, tech)
    case None => 0.0
    case Some(df) => WarrantyCallRateOf(df)
  }

  /** calculate_upsell_conversion (app.py:450-472). */
  function UpsellConversion(merged: Option<Table>, tech: Option<Value>): (r: real)
    ensures Filtered(merged, tech).None? ==> r == 0.0
    ensures Filtered(merged, tech).Some? ==> r == UpsellConversionOf(Filtered(merged, tech).value)
    ensures 0.0 <= r <= 100.0
  {
    match Filtered(merged, tech)
    case None => 0.0
    case Some(df) => UpsellConversionOf(df)
  }
}

/** What the KPI calculators promise beyond their bounds: how each relates
    to the counts it is built from, to the other calculators and to the
    technician filter. */
module KpiProperties {
  import opened Wrappers
  import opened Values
  import opened Seqs
  import opened Tables
  import opened Kpis
  import Text

  // ---------------------------------------------------------------------
  // The technician filter
  // ---------------------------------------------------------------------

  /** A selected technician with no row in the merged table selects
      nothing. */
  lemma UnknownTechnicianSelectsNothing(merged: Table, tech: Value)
    requires !SelectsEveryone(Some(tech))
    requires forall row :: row in merged.rows ==> Cell(merged.columns, row, "Technician") != tech
    ensures Filtered(Some(merged), Some(tech)).Some? ==> Filtered(Some(merged), Some(tech)).value.rows == []
  {
  }

  /** A NaN technician is truthy but equals no value, NaN included: it
      selects nothing even where the Technician column is blank. */
  lemma NaNTechnicianSelectsNothing(merged: Table)
    requires "Technician" in merged.columns
    ensures Filtered(Some(merged), Some(Missing)) == Some(Table(merged.columns, []))
  {
  }

  /** The technician 0 is falsy and selects every row, like "All". */
  lemma ZeroTechnicianSelectsEveryone(merged: Table)
    ensures Filtered(Some(merged), Some(Num(0.0))) == Some(merged)
  {
  }

  /** Every calculator gives 0 for a technician who has no row. */
  lemma UnknownTechnicianGivesZero(merged: Table, tech: Value, now: int, parseDate: string -> Option<int>)
    requires !SelectsEveryone(Some(tech))
    requires forall row :: row in merged.rows ==> Cell(merged.columns, row, "Technician") != tech
    ensures var m, t := Some(merged), Some(tech);
      && AvgTicket(m, t) == Some(0.0)
      && JobCloseRate(m, t) == 0.0
      && WeeklyRevenue(m, t, now, parseDate) == 0.0
      && AverageJobEfficiency(m, t) == 0.0
      && ComplianceRate(m, t) == 0.0
      && MembershipWinRate(m, t) == 0.0
      && HydroJettingSold(m, t) == 0
      && DescalingSold(m, t) == 0
      && OnTimeArrivalRate(m, t) == 0.0
      && FiveStarReviews(m, t) == 0
      && WarrantyCallRate(m, t) == 0.0
      && UpsellConversion(m, t) == 0.0
  {
    UnknownTechnicianSelectsNothing(merged, tech);
    var f := Filtered(Some(merged), Some(tech));
    if f.Some? {
      var df := f.value;
      assert CompletedJobs(df).rows == [];
      assert Column(df, "Job Efficiency") == [];
      assert ThisWeek(df, now, parseDate).rows == [];
      assert Column(ThisWeek(df, now, parseDate), "Revenue") == [];
      assert Nums([]) == [];
    }
  }

  // ---------------------------------------------------------------------
  // Job close rate
  // ---------------------------------------------------------------------

  /** The close rate is the share of rows whose Appt Status is 'Completed'. */
  lemma JobCloseRateIsCompletedShare(df: Table)
    requires "Appt Status" in df.columns
    ensures JobCloseRateOf(df) == Ratio(Count(Column(df, "Appt Status"), EqualTo(Completed)), |df.rows|)
  {
    WhereSize(df, "Appt Status", Completed);
  }

  /** Four completed appointments out of ten give a close rate of 40%. */
  lemma JobCloseRateFourOfTen()
    ensures var rows := seq(4, _ => [Completed]) + seq(6, _ => [Str("Scheduled")]);
      JobCloseRateOf(Table(["Appt Status"], rows)) == 40.0
  {
    var rows := seq(4, _ => [Completed]) + seq(6, _ => [Str("Scheduled")]);
    var df := Table(["Appt Status"], rows);
    var done := seq(4, _ => Completed);
    var open := seq(6, _ => Str("Scheduled"));
    assert Column(df, "Appt Status") == done + open;
    CountAll(done, EqualTo(Completed));
    CountNone(open, EqualTo(Completed));
    CountConcat(done, open, EqualTo(Completed));
    assert Count(Column(df, "Appt Status"), EqualTo(Completed)) == 4 && |df.rows| == 10;
    JobCloseRateIsCompletedShare(df);
    assert JobCloseRateOf(df) == Ratio(4, 10);
  }

  // ---------------------------------------------------------------------
  // Average ticket and average efficiency
  // ---------------------------------------------------------------------

  /** When the completed jobs' revenues are all numbers or blank and at
      least one is a number, the average ticket is given and lies between
      the least and the greatest of them. */
  lemma AvgTicketWithinRevenues(df: Table, lo: real, hi: real)
    requires "Revenue" in df.columns && "Appt Status" in df.columns
    requires Numeric(Column(CompletedJobs(df), "Revenue")) && |Nums(Column(CompletedJobs(df), "Revenue"))| > 0
    requires forall row :: row in CompletedJobs(df).rows && Cell(df.columns, row, "Revenue").Num? ==>
               lo <= Cell(df.columns, row, "Revenue").x <= hi
    ensures AvgTicketOf(df).Some? && lo <= AvgTicketOf(df).value <= hi
  {
    var c := CompletedJobs(df);
    var revenue := Column(c, "Revenue");
    var xs := Nums(revenue);
    assert |c.rows| > 0;
    forall x | x in xs ensures lo <= x <= hi {
      var i :| 0 <= i < |revenue| && revenue[i] == Num(x);
      assert c.rows[i] in c.rows;
    }
    MeanBounds(xs, lo, hi);
  }

  /** When the loop reads at least one efficiency, the average lies
      between the least and the greatest value it reads. */
  lemma AverageJobEfficiencyWithin(df: Table, lo: real, hi: real)
    requires "Job Efficiency" in df.columns && Count(Column(df, "Job Efficiency"), Readable) > 0
    requires forall i :: 0 <= i < |df.rows| && Efficiency(Cell(df.columns, df.rows[i], "Job Efficiency")).Some? ==>
               lo <= Efficiency(Cell(df.columns, df.rows[i], "Job Efficiency")).value <= hi
    ensures lo <= AverageJobEfficiencyOf(df) <= hi
  {
    var col := Column(df, "Job Efficiency");
    var xs := Efficiencies(col);
    EfficienciesCount(col);
    forall x | x in xs ensures lo <= x <= hi {
      EfficienciesRead(col, x);
      var i :| 0 <= i < |col| && Efficiency(col[i]) == Some(x);
    }
    MeanBounds(xs, lo, hi);
  }

  /** A blank efficiency is skipped, not read as 0: 85, 90 and a blank
      average to 87.5. */
  lemma AverageJobEfficiencyExample()
    ensures AverageJobEfficiencyOf(Table(["Job Efficiency"], [[Num(85.0)], [Num(90.0)], [Missing]])) == 87.5
  {
    var df := Table(["Job Efficiency"], [[Num(85.0)], [Num(90.0)], [Missing]]);
    ThreeRowColumn(Num(85.0), Num(90.0), Missing);
    BlankSkipped();
    assert AverageJobEfficiencyOf(df) == Mean([85.0, 90.0]);
    assert [85.0, 90.0][..1] == [85.0];
    assert Sum([85.0, 90.0]) == 175.0;
  }

  /** The efficiency column of a table of three rows and that one column. */
  lemma ThreeRowColumn(a: Value, b: Value, c: Value)
    ensures Column(Table(["Job Efficiency"], [[a], [b], [c]]), "Job Efficiency") == [a, b, c]
  {
    assert IndexOf(["Job Efficiency"], "Job Efficiency") == 0;
  }

  /** The loop reads 85 and 90 and skips the blank. */
  lemma BlankSkipped()
    ensures Efficiencies([Num(85.0), Num(90.0), Missing]) == [85.0, 90.0]
  {
    var col := [Num(85.0), Num(90.0), Missing];
    assert col[..2][..1] == [Num(85.0)];
    assert col[..2] == [Num(85.0), Num(90.0)];
  }

  /** "90%" reads as 90. */
  lemma PercentTextReads()
    ensures Efficiency(Str("90%")) == Some(90.0)
  {
    assert Text.RemoveAll("90%", '%') == "90";
    Text.StripUnpadded("90");
    assert Text.AllDigits("90");
    assert Text.DigitsValue("90") == 90;
  }

  /** Text that starts and ends with a lower-case letter and has no percent
      sign ("on time", "n/a"), other than the words float() reads as NaN or
      an infinity, makes float() raise: it reads as neither a number nor a
      non-finite double. */
  lemma WordsDoNotRead(s: string)
    requires s != [] && '%' !in s
    requires 'a' <= s[0] <= 'z' && 'a' <= s[|s| - 1] <= 'z'
    requires Text.NonFiniteWord(s).None?
    ensures Efficiency(Str(s)) == None
    ensures NonFinite(Str(s)) == None
  {
    Text.StripUnpadded(s);
    LetterFirstDoesNotParse(s);
  }

  /** No finite number is read from text that starts with a letter; the
      only such text float() accepts are the words of Text.NonFiniteWord. */
  lemma LetterFirstDoesNotParse(s: string)
    requires s != [] && 'a' <= s[0] <= 'z'
    ensures Text.ParseNum(s) == None
  {
    var p := Text.Find(s, '.');
    assert p >= 1;
    assert s[..p][0] == s[0];
  }

  // ---------------------------------------------------------------------
  // Compliance, five-star reviews and on-time arrival
  // ---------------------------------------------------------------------

  /** Without an efficiency column, compliance is the fixed 95% as soon as
      one job is completed. */
  lemma ComplianceWithoutEfficiency(df: Table, i: nat)
    requires "Appt Status" in df.columns && "Job Efficiency" !in df.columns
    requires i < |df.rows| && Cell(df.columns, df.rows[i], "Appt Status") == Completed
    ensures ComplianceRateOf(df) == 95.0
  {
    assert df.rows[i] in CompletedJobs(df).rows;
  }

  /** The columns of the compliance examples. */
  const StatusAndEfficiency: seq<string> := ["Appt Status", "Job Efficiency"]

  /** The two cells of a row of the compliance examples. */
  lemma StatusAndEfficiencyCells(status: Value, efficiency: Value)
    ensures Cell(StatusAndEfficiency, [status, efficiency], "Appt Status") == status
    ensures Cell(StatusAndEfficiency, [status, efficiency], "Job Efficiency") == efficiency
  {
    assert IndexOf(StatusAndEfficiency, "Appt Status") == 0;
    assert IndexOf(StatusAndEfficiency, "Job Efficiency") == 1;
  }

  /** Two completed jobs are both kept, and their efficiencies are read in
      order. */
  lemma TwoCompletedJobs(a: Value, b: Value)
    ensures var df := Table(StatusAndEfficiency, [[Completed, a], [Completed, b]]);
      CompletedJobs(df) == df && Column(df, "Job Efficiency") == [a, b]
  {
    var df := Table(StatusAndEfficiency, [[Completed, a], [Completed, b]]);
    TwoCompletedRows(a, b);
    StatusAndEfficiencyCells(Completed, a);
    StatusAndEfficiencyCells(Completed, b);
    assert Column(df, "Job Efficiency")[0] == a;
    assert Column(df, "Job Efficiency")[1] == b;
  }

  /** Selecting the completed jobs keeps two completed rows. */
  lemma TwoCompletedRows(a: Value, b: Value)
    ensures var rows: seq<Row> := [[Completed, a], [Completed, b]];
      Where(Table(StatusAndEfficiency, rows), "Appt Status", Completed).rows == rows
  {
    var rows: seq<Row> := [[Completed, a], [Completed, b]];
    StatusAndEfficiencyCells(Completed, a);
    StatusAndEfficiencyCells(Completed, b);
    assert rows[..1] == [[Completed, a]];
    assert rows[..1][..0] == [];
  }

  /** Compliance divides by every completed job, not by the efficiencies
      read: a completed job at 85 and one whose efficiency text float()
      rejects give 50%, where on-time arrival gives 100%. */
  lemma ComplianceCountsUnreadable(text: Value)
    requires text.Str? && Efficiency(text).None? && NonFinite(text).None?
    ensures ComplianceRateOf(Table(StatusAndEfficiency, [[Completed, Num(85.0)], [Completed, text]])) == 50.0
  {
    var df := Table(StatusAndEfficiency, [[Completed, Num(85.0)], [Completed, text]]);
    TwoCompletedJobs(Num(85.0), text);
    var effs := [Num(85.0), text];
    assert Compliant(Num(85.0)) && !Compliant(text);
    CountPair(Num(85.0), text, Compliant);
    CountPair(Num(85.0), text, Present);
    assert Count(effs, Compliant) == 1 && Count(effs, Present) == 2;
    assert ComplianceRateOf(df) == Ratio(1, 2);
    RatioOfTwo(1);
  }

  /** int(90 * 0.7) is 62, not 63: the product in double arithmetic is
      62.99999999999999 and truncation drops it below 63. */
  lemma SeventyPercentOfNinety()
    ensures SeventyPercentAsWritten(90) == 62
    ensures SeventyPercent(90) == 63
  {
    assert DoubleOf(90) == 90;
    var exact := 90 * SevenTenths;
    assert exact == 283726776524341230;
    assert Spacing(exact) == 32;
    assert DoubleOf(exact) == 283726776524341216;
  }

  /** Every five-star job is a compliant one: the compliance rate is at
      least the five-star share of the completed jobs. */
  lemma FiveStarWithinCompliance(df: Table)
    requires "Appt Status" in df.columns && "Job Efficiency" in df.columns
    ensures Ratio(FiveStarReviewsOf(df), |CompletedJobs(df).rows|) <= ComplianceRateOf(df)
  {
    var c := CompletedJobs(df);
    var effs := Column(c, "Job Efficiency");
    var five := Count(effs, FiveStar);
    assert FiveStarReviewsOf(df) == five;
    var n := |c.rows|;
    var rate := ComplianceRateOf(df);
    if n == 0 {
      assert Ratio(five, n) == 0.0;
    } else if Count(effs, Present) == 0 {
      CountMonotone(effs, FiveStar, Present);
      assert five == 0;
      assert Ratio(five, n) == 0.0;
    } else {
      CountMonotone(effs, FiveStar, Compliant);
      assert rate == Ratio(Count(effs, Compliant), n);
      RatioMonotone(five, Count(effs, Compliant), n);
    }
  }

  /** The efficiency column of a table of two rows and that one column. */
  lemma TwoRowColumn(a: Value, b: Value)
    ensures Column(Table(["Job Efficiency"], [[a], [b]]), "Job Efficiency") == [a, b]
  {
    assert IndexOf(["Job Efficiency"], "Job Efficiency") == 0;
  }

  /** One of two is 50%, two of two are 100%. */
  lemma RatioOfTwo(m: nat)
    requires 1 <= m <= 2
    ensures Ratio(m, 2) == if m == 1 then 50.0 else 100.0
  {
  }

  /** On-time arrival counts a timestamp among the efficiencies as present
      but never as on time: 85 and a timestamp give 50%. */
  lemma OnTimeCountsTimestamp(t: int)
    ensures OnTimeArrivalRateOf(Table(["Job Efficiency"], [[Num(85.0)], [Date(t)]])) == 50.0
  {
    var col := [Num(85.0), Date(t)];
    var df := Table(["Job Efficiency"], [[Num(85.0)], [Date(t)]]);
    TwoRowColumn(Num(85.0), Date(t));
    assert Compliant(Num(85.0)) && OnTimeCounted(Num(85.0));
    assert !Compliant(Date(t)) && OnTimeCounted(Date(t));
    CountPair(Num(85.0), Date(t), Compliant);
    CountPair(Num(85.0), Date(t), OnTimeCounted);
    assert Count(col, Compliant) == 1 && Count(col, OnTimeCounted) == 2;
    assert OnTimeArrivalRateOf(df) == Ratio(1, 2);
    RatioOfTwo(1);
  }

  /** On-time arrival skips text float() rejects, in the denominator too:
      85 and such text give 100%. */
  lemma OnTimeSkipsUnreadable(text: Value)
    requires text.Str? && Efficiency(text).None? && NonFinite(text).None?
    ensures OnTimeArrivalRateOf(Table(["Job Efficiency"], [[Num(85.0)], [text]])) == 100.0
  {
    var col := [Num(85.0), text];
    var df := Table(["Job Efficiency"], [[Num(85.0)], [text]]);
    TwoRowColumn(Num(85.0), text);
    assert !Compliant(text) && !OnTimeCounted(text);
    assert Compliant(Num(85.0)) && OnTimeCounted(Num(85.0));
    CountPair(Num(85.0), text, Compliant);
    CountPair(Num(85.0), text, OnTimeCounted);
    assert Count(col, Compliant) == 1 && Count(col, OnTimeCounted) == 1;
    assert OnTimeArrivalRateOf(df) == Ratio(1, 1);
  }

  /** float() reads the text "nan" as NaN. */
  lemma NaNTextIsNonFinite()
    ensures NonFinite(Str("nan")) == Some("nan")
  {
    assert Text.RemoveAll("nan", '%') == "nan";
    Text.StripUnpadded("nan");
    var lo := Text.Lower("nan");
    assert lo[0] == 'n' && lo[1] == 'a' && lo[2] == 'n';
    assert lo == "nan";
  }

  /** A non-finite reading is counted on time exactly when it is
      +infinity, and is always counted in the on-time denominator. */
  lemma NonFiniteCounted(v: Value)
    requires NonFinite(v).Some?
    ensures OnTimeCounted(v)
    ensures Compliant(v) <==> NonFinite(v) == Some("inf")
    ensures FiveStar(v) <==> NonFinite(v) == Some("inf")
  {
  }

  /** Text float() reads as NaN or an infinity is counted in the
      denominator, and is on time only as +infinity: 85 and "nan" give
      50%, 85 and "inf" give 100%. */
  lemma OnTimeCountsNonFinite(text: Value)
    requires NonFinite(text).Some?
    ensures OnTimeArrivalRateOf(Table(["Job Efficiency"], [[Num(85.0)], [text]]))
         == if NonFinite(text) == Some("inf") then 100.0 else 50.0
  {
    var col := [Num(85.0), text];
    var df := Table(["Job Efficiency"], [[Num(85.0)], [text]]);
    TwoRowColumn(Num(85.0), text);
    NonFiniteCounted(text);
    assert Compliant(Num(85.0)) && OnTimeCounted(Num(85.0));
    CountPair(Num(85.0), text, Compliant);
    CountPair(Num(85.0), text, OnTimeCounted);
    var onTime := if NonFinite(text) == Some("inf") then 2 else 1;
    assert Count(col, Compliant) == onTime && Count(col, OnTimeCounted) == 2;
    assert OnTimeArrivalRateOf(df) == Ratio(onTime, 2);
    RatioOfTwo(onTime);
  }

  // ---------------------------------------------------------------------
  // Keyword counts
  // ---------------------------------------------------------------------

  /** One row can count twice towards the "sold" KPIs: once for its
      service category and once for its items sold. */
  lemma KeywordJobsCountsARowTwice(category: string, items: string, kw: string)
    requires Text.ContainsIgnoringCase(category, kw) && Text.ContainsIgnoringCase(items, kw)
    ensures KeywordJobs(Table(["Service Category", "Items_Sold"], [[Str(category), Str(items)]]), kw) == 2
  {
    var df := Table(["Service Category", "Items_Sold"], [[Str(category), Str(items)]]);
    assert Column(df, "Service Category") == [Str(category)];
    assert Column(df, "Items_Sold") == [Str(items)];
  }

  /** "Hydro Jetting" and "Jetting Service" both mention jetting. */
  lemma JettingMentioned()
    ensures Text.ContainsIgnoringCase("Hydro Jetting", "Jetting")
    ensures Text.ContainsIgnoringCase("Jetting Service", "Jetting")
  {
    Text.ContainsAt("Hydro Jetting", "Jetting", 6);
    Text.ContainsLower("Hydro Jetting", "Jetting");
    Text.ContainsAt("Jetting Service", "Jetting", 0);
    Text.ContainsLower("Jetting Service", "Jetting");
  }

  // ---------------------------------------------------------------------
  // Upsell conversion
  // ---------------------------------------------------------------------

  /** With no item quantities to go by and no negative revenue, fewer than
      two thirds of the rows can have a revenue above one and a half times
      the average. */
  lemma UpsellByRevenueUnderTwoThirds(df: Table)
    requires "Total_Items_Qty" !in df.columns
    requires forall i :: 0 <= i < |df.rows| && Cell(df.columns, df.rows[i], "Revenue").Num? ==>
               Cell(df.columns, df.rows[i], "Revenue").x >= 0.0
    ensures 3.0 * UpsellConversionOf(df) < 200.0
  {
    var revenue := Column(df, "Revenue");
    if "Revenue" in df.columns && Numeric(revenue) && PandasMean(revenue).Some? {
      var avg := PandasMean(revenue).value;
      FewAboveOneAndAHalfMeans(revenue, avg);
      RatioUnderTwoThirds(Count(revenue, Exceeds(avg * 1.5)), |df.rows|);
    }
  }

  /** In a column of non-negative numbers, fewer than two thirds of the
      numbers exceed one and a half times their mean. */
  lemma FewAboveOneAndAHalfMeans(vs: seq<Value>, avg: real)
    requires PandasMean(vs) == Some(avg)
    requires forall i :: 0 <= i < |vs| && vs[i].Num? ==> vs[i].x >= 0.0
    ensures 3 * Count(vs, Exceeds(avg * 1.5)) < 2 * |Nums(vs)|
  {
    var xs := Nums(vs);
    var sum := Sum(xs);
    assert avg == sum / |xs| as real;
    SumNonNegative(vs);
    QuotientNonNegative(sum, |xs| as real);
    SumAbove(vs, avg * 1.5);
    AboveOneAndAHalfMeans(sum, |xs|, Count(vs, Exceeds(avg * 1.5)));
  }

  /** If k numbers out of m exceed one and a half times their mean, then
      3k < 2m. */
  lemma AboveOneAndAHalfMeans(sum: real, m: nat, k: nat)
    requires m > 0 && sum >= 0.0
    requires k > 0 ==> sum > Repeated(sum / m as real * 1.5, k)
    ensures 3 * k < 2 * m
  {
    if k > 0 {
      RepeatedIsProduct(sum / m as real * 1.5, k);
      var avg := sum / m as real;
      assert avg * m as real == sum;
      assert avg >= 0.0;
      assert avg > 0.0;
      ScaleBack(1.5 * k as real, m as real, avg);
    }
  }

  lemma QuotientNonNegative(a: real, b: real)
    requires a >= 0.0 && b > 0.0
    ensures a / b >= 0.0
  {
  }

  /** A share of fewer than two thirds of the rows is under 200/3 percent. */
  lemma RatioUnderTwoThirds(k: nat, n: nat)
    requires 3 * k < 2 * n
    ensures 3.0 * Ratio(k, n) < 200.0
  {
    var nr, kr := n as real, k as real;
    assert 3.0 * kr < 2.0 * nr;
    TwoThirdsScaled(Ratio(k, n), nr, kr);
  }

  /** r * n == 100 * k with 3k < 2n puts 3r under 200. */
  lemma TwoThirdsScaled(r: real, nr: real, kr: real)
    requires 3.0 * kr < 2.0 * nr && r * nr == 100.0 * kr && nr > 0.0
    ensures 3.0 * r < 200.0
  {
    var a := 3.0 * r;
    assert nr * a == 300.0 * kr;
    ScaleBack(a, 200.0, nr);
  }

  /** Dividing both sides of a strict inequality by a positive number. */
  lemma ScaleBack(a: real, b: real, c: real)
    requires c > 0.0 && c * a < c * b
    ensures a < b
  {
  }

  /** t added up n times; kept apart from multiplication so that the
      induction below stays linear. */
  function Repeated(t: real, n: nat): real {
    if n == 0 then 0.0 else Repeated(t, n - 1) + t
  }

  lemma {:induction false} RepeatedIsProduct(t: real, n: nat)
    ensures Repeated(t, n) == t * n as real
  {
    if n > 0 {
      RepeatedIsProduct(t, n - 1);
      assert t * n as real == t * (n - 1) as real + t;
    }
  }

  /** Over non-negative numbers, the values above a non-negative threshold
      t add up to at least t for each of them, and to more than that once
      there is one. */
  lemma {:induction false} SumAbove(vs: seq<Value>, t: real)
    requires t >= 0.0
    requires forall i :: 0 <= i < |vs| && vs[i].Num? ==> vs[i].x >= 0.0
    ensures Sum(Nums(vs)) >= Repeated(t, Count(vs, Exceeds(t)))
    ensures Count(vs, Exceeds(t)) > 0 ==> Sum(Nums(vs)) > Repeated(t, Count(vs, Exceeds(t)))
  {
    if vs != [] {
      var init := vs[..|vs| - 1];
      var last := vs[|vs| - 1];
      assert forall i :: 0 <= i < |init| ==> init[i] == vs[i];
      SumAbove(init, t);
      SumOfNumsSnoc(vs);
    }
  }

  /** A column with no negative number has a non-negative sum. */
  lemma {:induction false} SumNonNegative(vs: seq<Value>)
    requires forall i :: 0 <= i < |vs| && vs[i].Num? ==> vs[i].x >= 0.0
    ensures Sum(Nums(vs)) >= 0.0
  {
    if vs != [] {
      var init := vs[..|vs| - 1];
      assert forall i :: 0 <= i < |init| ==> init[i] == vs[i];
      SumNonNegative(init);
      SumOfNumsSnoc(vs);
    }
  }

  /** The numbers of a column add up to those of all but its last entry,
      plus that entry when it is a number. */
  lemma SumOfNumsSnoc(vs: seq<Value>)
    requires vs != []
    ensures Sum(Nums(vs)) == Sum(Nums(vs[..|vs| - 1])) + (if vs[|vs| - 1].Num? then vs[|vs| - 1].x else 0.0)
  {
    var init := Nums(vs[..|vs| - 1]);
    if vs[|vs| - 1].Num? {
      assert Nums(vs) == init + [vs[|vs| - 1].x];
      assert Nums(vs)[..|Nums(vs)| - 1] == init;
    }
  }

  // ---------------------------------------------------------------------
  // Weekly revenue
  // ---------------------------------------------------------------------

  /** The revenue recorded in some rows: NaN skipped. */
  function RevenueOf(cols: seq<string>, rows: seq<Row>): real {
    Sum(Nums(Column(Table(cols, rows), "Revenue")))
  }

  /** Appending a row adds its revenue, if it has one. */
  lemma RevenueOfSnoc(cols: seq<string>, rows: seq<Row>, row: Row)
    ensures RevenueOf(cols, rows + [row]) ==
      RevenueOf(cols, rows) + (if Cell(cols, row, "Revenue").Num? then Cell(cols, row, "Revenue").x else 0.0)
  {
    var vs := Column(Table(cols, rows + [row]), "Revenue");
    assert vs[..|rows|] == Column(Table(cols, rows), "Revenue");
    var v := Cell(cols, row, "Revenue");
    if v.Num? {
      var xs := Nums(vs);
      assert xs == Nums(vs[..|rows|]) + [v.x];
      assert xs[..|xs| - 1] == Nums(vs[..|rows|]);
    }
  }

  /** Selecting fewer rows never adds revenue, when no revenue is negative. */
  lemma {:induction false} RevenueOfFilterMonotone(cols: seq<string>, rows: seq<Row>, p: Row -> bool, q: Row -> bool)
    requires forall row :: p(row) ==> q(row)
    requires forall row :: row in rows && Cell(cols, row, "Revenue").Num? ==> Cell(cols, row, "Revenue").x >= 0.0
    ensures 0.0 <= RevenueOf(cols, Filter(rows, p)) <= RevenueOf(cols, Filter(rows, q))
  {
    if rows == [] {
      assert Nums([]) == [];
    } else {
      var init := rows[..|rows| - 1];
      var last := rows[|rows| - 1];
      assert forall row :: row in init ==> row in rows;
      RevenueOfFilterMonotone(cols, init, p, q);
      if p(last) { RevenueOfSnoc(cols, Filter(init, p), last); }
      if q(last) { RevenueOfSnoc(cols, Filter(init, q), last); }
    }
  }

  /** A later clock never raises the weekly revenue, which is never
      negative, when the revenue column holds only non-negative numbers. */
  lemma WeeklyRevenueLaterClock(df: Table, early: int, late: int, parseDate: string -> Option<int>)
    requires "Revenue" in df.columns && "Created At" in df.columns
    requires early <= late
    requires forall i :: 0 <= i < |df.rows| ==>
               (Cell(df.columns, df.rows[i], "Revenue").Num? && Cell(df.columns, df.rows[i], "Revenue").x >= 0.0)
               || Cell(df.columns, df.rows[i], "Revenue").Missing?
    ensures 0.0 <= WeeklyRevenueOf(df, late, parseDate) <= WeeklyRevenueOf(df, early, parseDate)
  {
    var pLate := (row: Row) => CreatedThisWeek(df.columns, row, late, parseDate);
    var pEarly := (row: Row) => CreatedThisWeek(df.columns, row, early, parseDate);
    forall row | row in df.rows && Cell(df.columns, row, "Revenue").Num?
      ensures Cell(df.columns, row, "Revenue").x >= 0.0
    {
      var i :| 0 <= i < |df.rows| && df.rows[i] == row;
    }
    RevenueOfFilterMonotone(df.columns, df.rows, pLate, pEarly);
    WeekIsNumeric(df, late, parseDate);
    WeekIsNumeric(df, early, parseDate);
  }

  /** The rows of a week have numeric revenue when all rows have. */
  lemma WeekIsNumeric(df: Table, now: int, parseDate: string -> Option<int>)
    requires forall i :: 0 <= i < |df.rows| ==>
               Cell(df.columns, df.rows[i], "Revenue").Num? || Cell(df.columns, df.rows[i], "Revenue").Missing?
    ensures Numeric(Column(ThisWeek(df, now, parseDate), "Revenue"))
  {
    var w := ThisWeek(df, now, parseDate);
    forall i | 0 <= i < |w.rows|
      ensures Cell(df.columns, w.rows[i], "Revenue").Num? || Cell(df.columns, w.rows[i], "Revenue").Missing?
    {
      assert w.rows[i] in df.rows;
      var j :| 0 <= j < |df.rows| && df.rows[j] == w.rows[i];
    }
  }

  /** The pattern 'Warranty|warranty' matched ignoring case accepts exactly
      the text that mentions "warranty" in any case, so the warranty rate
      may search for the one word. */
  lemma WarrantyPatternIsOneWord(v: Value)
    ensures (Mentions(v, "Warranty") || Mentions(v, "warranty")) <==> Mentions(v, "warranty")
  {
    assert Text.Lower("Warranty") == Text.Lower("warranty");
  }
}

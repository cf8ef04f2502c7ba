/** The ServiceDashboard object: the four uploaded tables, the merged table
    built from them, and the calculators that walk the efficiency column
    value by value. */
module Dashboard {
  import opened Wrappers
  import opened Values
  import opened Seqs
  import opened Tables
  import Text
  import Merge
  import Kpis

  /** columns.str.strip(): every header with its surrounding whitespace
      removed, the rows untouched. */
  function StripHeaders(t: Table): (u: Table)
    ensures |u.columns| == |t.columns| && u.rows == t.rows
    ensures forall i :: 0 <= i < |t.columns| ==> u.columns[i] == Text.Strip(t.columns[i])
  {
    Table(seq(|t.columns|, i requires 0 <= i < |t.columns| => Text.Strip(t.columns[i])), t.rows)
  }

  /** A header cell is looked up the same way before and after a second
      strip: stripping headers twice is stripping them once. */
  lemma StripHeadersIdempotent(t: Table)
    ensures StripHeaders(StripHeaders(t)) == StripHeaders(t)
  {
    var once := StripHeaders(t);
    forall i | 0 <= i < |t.columns| ensures Text.Strip(once.columns[i]) == once.columns[i] {
      Text.StripUnpadded(once.columns[i]);
    }
  }

  class ServiceDashboard {
    var appointments: Option<Table>
    var itemsSold: Option<Table>
    var opportunities: Option<Table>
    var jobTimes: Option<Table>
    var merged: Option<Table>

    /** Nothing uploaded, nothing merged. */
    constructor()
      ensures appointments.None? && itemsSold.None? && opportunities.None? && jobTimes.None?
      ensures merged.None?
    {
      appointments := None;
      itemsSold := None;
      opportunities := None;
      jobTimes := None;
      merged := None;
    }

    /** load_data with the spreadsheets already read: each table handed in
        replaces the stored one, headers stripped; a table not handed in
        keeps what was loaded before. The merged table is not touched. */
    method LoadData(appointmentsFile: Option<Table>, itemsSoldFile: Option<Table>,
                    opportunitiesFile: Option<Table>, jobTimesFile: Option<Table>) returns (ok: bool)
      modifies this
      ensures ok
      ensures appointments == if appointmentsFile.Some? then Some(StripHeaders(appointmentsFile.value)) else old(appointments)
      ensures itemsSold == if itemsSoldFile.Some? then Some(StripHeaders(itemsSoldFile.value)) else old(itemsSold)
      ensures opportunities == if opportunitiesFile.Some? then Some(StripHeaders(opportunitiesFile.value)) else old(opportunities)
      ensures jobTimes == if jobTimesFile.Some? then Some(StripHeaders(jobTimesFile.value)) else old(jobTimes)
      ensures merged == old(merged)
    {
      if appointmentsFile.Some? {
        appointments := Some(StripHeaders(appointmentsFile.value));
      }
      if itemsSoldFile.Some? {
        itemsSold := Some(StripHeaders(itemsSoldFile.value));
      }
      if opportunitiesFile.Some? {
        opportunities := Some(StripHeaders(opportunitiesFile.value));
      }
      if jobTimesFile.Some? {
        jobTimes := Some(StripHeaders(jobTimesFile.value));
      }
      ok := true;
    }

    /** merge_data: starting from the appointments, join the job times, the
        opportunities and the aggregated items in turn. It fails, leaving
        the merged table as it was, without appointments or when the items
        aggregation raises; on success every appointment survives. */
    method MergeData() returns (ok: bool)
      modifies this`merged
      ensures ok <==> Merge.MergeAll(appointments, jobTimes, opportunities, itemsSold).Some?
      ensures ok ==> merged == Merge.MergeAll(appointments, jobTimes, opportunities, itemsSold)
      ensures !ok ==> merged == old(merged)
      ensures ok ==> |merged.value.rows| >= |appointments.value.rows|
                     && Merge.Extended(appointments.value.rows, merged.value.rows)
    {
      if appointments.None? {
        return false;
      }
      var m := appointments.value;
      if jobTimes.Some? {
        var key := Merge.JobTimesKey(m.columns, jobTimes.value.columns);
        if key.Some? {
          m := Merge.LeftJoin(m, jobTimes.value, key.value, "", "_job");
        }
      }
      assert m == Merge.WithJobTimes(appointments.value, jobTimes);
      if opportunities.Some? {
        var key := Merge.OpportunitiesKey(m.columns, opportunities.value.columns);
        if key.Some? {
          m := Merge.LeftJoin(m, opportunities.value, key.value, "", "_opp");
        }
      }
      assert m == Merge.WithOpportunities(Merge.WithJobTimes(appointments.value, jobTimes), opportunities);
      if itemsSold.Some? && "Customer Email" in m.columns && "Customer Email" in itemsSold.value.columns {
        var agg := Merge.AggregateItems(itemsSold.value);
        if agg.None? {
          return false;
        }
        m := Merge.LeftJoin(m, agg.value, "Customer Email", "_x", "_y");
      }
      Merge.MergeKeepsEveryAppointment(appointments.value, jobTimes, opportunities, itemsSold);
      merged := Some(m);
      ok := true;
    }

    /** calculate_avg_job_efficiency: collect the efficiency values that
        read as numbers, then average them; 0 without any. */
    method AverageJobEfficiency(tech: Option<Value>) returns (r: real)
      ensures r == Kpis.AverageJobEfficiency(merged, tech)
    {
      var f := Kpis.Filtered(merged, tech);
      if f.None? || "Job Efficiency" !in f.value.columns {
        return 0.0;
      }
      var values := ReadEfficiencies(Column(f.value, "Job Efficiency"));
      if |values| == 0 {
        return 0.0;
      }
      var total := Total(values);
      r := total / |values| as real;
    }

    /** calculate_compliance_rate: over the completed jobs, the values
        reaching 80 as a share of all completed jobs, once one of them has
        an efficiency value. */
    method ComplianceRate(tech: Option<Value>) returns (r: real)
      ensures r == Kpis.ComplianceRate(merged, tech)
    {
      var f := Kpis.Filtered(merged, tech);
      if f.None? || "Appt Status" !in f.value.columns {
        return 0.0;
      }
      var completed := Kpis.CompletedJobs(f.value);
      if |completed.rows| == 0 {
        return 0.0;
      }
      if "Job Efficiency" !in f.value.columns {
        return 95.0;
      }
      var present, compliant := CountCompliance(Column(completed, "Job Efficiency"));
      if present == 0 {
        return 0.0;
      }
      r := Kpis.Ratio(compliant, |completed.rows|);
    }

    /** calculate_on_time_arrival: the values reaching 80 as a share of the
        values counted; without an efficiency column, the completed share
        of the rows. */
    method OnTimeArrivalRate(tech: Option<Value>) returns (r: real)
      ensures r == Kpis.OnTimeArrivalRate(merged, tech)
    {
      var f := Kpis.Filtered(merged, tech);
      if f.None? {
        return 0.0;
      }
      var df := f.value;
      if "Job Efficiency" !in df.columns {
        if "Appt Status" !in df.columns {
          return 0.0;
        }
        return Kpis.Ratio(|Kpis.CompletedJobs(df).rows|, |df.rows|);
      }
      var onTime, total := CountOnTime(Column(df, "Job Efficiency"));
      r := Kpis.Ratio(onTime, total);
    }

    /** calculate_five_star_reviews: the completed jobs whose efficiency
        reaches 90; without an efficiency column, 70% of the completed
        jobs. */
    method FiveStarReviews(tech: Option<Value>) returns (r: nat)
      ensures r == Kpis.FiveStarReviews(merged, tech)
    {
      var f := Kpis.Filtered(merged, tech);
      if f.None? || "Appt Status" !in f.value.columns {
        return 0;
      }
      var completed := Kpis.CompletedJobs(f.value);
      if "Job Efficiency" !in f.value.columns {
        return Kpis.SeventyPercent(|completed.rows|);
      }
      r := CountFiveStar(Column(completed, "Job Efficiency"));
    }
  }

  // ---------------------------------------------------------------------
  // The loops over an efficiency column
  // ---------------------------------------------------------------------

  /** The values appended to efficiency_values, in column order. */
  method ReadEfficiencies(col: seq<Value>) returns (values: seq<real>)
    ensures values == Kpis.Efficiencies(col)
  {
    values := [];
    var i := 0;
    while i < |col|
      invariant 0 <= i <= |col|
      invariant values == Kpis.Efficiencies(col[..i])
    {
      assert col[..i + 1][..i] == col[..i];
      var e := Kpis.Efficiency(col[i]);
      if e.Some? {
        values := values + [e.value];
      }
      i := i + 1;
    }
    assert col[..i] == col;
  }

  /** sum(values). */
  method Total(values: seq<real>) returns (total: real)
    ensures total == Sum(values)
  {
    total := 0.0;
    var j := 0;
    while j < |values|
      invariant 0 <= j <= |values|
      invariant total == Sum(values[..j])
    {
      assert values[..j + 1][..j] == values[..j];
      total := total + values[j];
      j := j + 1;
    }
    assert values[..j] == values;
  }

  /** One cell as the efficiency loops read it: float() of its text with
      the % signs removed, or the number itself. `reaches` is a reading of
      at least the threshold (a NaN compares false, +infinity reaches any
      threshold); `counted` is a cell the on-time denominator counts: a
      timestamp, or any reading, finite or not. */
  method ReadEfficiency(v: Value, threshold: real) returns (reaches: bool, counted: bool)
    ensures reaches == Kpis.Reaches(v, threshold)
    ensures counted == Kpis.OnTimeCounted(v)
  {
    var e, w := Kpis.Efficiency(v), Kpis.NonFinite(v);
    reaches := (e.Some? && e.value >= threshold) || w == Some("inf");
    counted := v.Date? || e.Some? || w.Some?;
  }

  /** The compliance loop: how many values are present, and how many of
      them read as at least 80. */
  method CountCompliance(col: seq<Value>) returns (present: nat, compliant: nat)
    ensures present == Count(col, Kpis.Present)
    ensures compliant == Count(col, Kpis.Compliant)
  {
    present, compliant := 0, 0;
    var i := 0;
    while i < |col|
      invariant 0 <= i <= |col|
      invariant present == Count(col[..i], Kpis.Present)
      invariant compliant == Count(col[..i], Kpis.Compliant)
    {
      CountStep(col, Kpis.Present, i);
      CountStep(col, Kpis.Compliant, i);
      if col[i] != Missing {
        present := present + 1;
      }
      var reaches, _ := ReadEfficiency(col[i], 80.0);
      assert reaches == Kpis.Compliant(col[i]);
      if reaches {
        compliant := compliant + 1;
      }
      assert present == Count(col[..i + 1], Kpis.Present);
      assert compliant == Count(col[..i + 1], Kpis.Compliant);
      i := i + 1;
    }
    assert col[..i] == col;
  }

  /** The on-time loop: on_time_count and total_count. */
  method CountOnTime(col: seq<Value>) returns (onTime: nat, total: nat)
    ensures onTime == Count(col, Kpis.Compliant)
    ensures total == Count(col, Kpis.OnTimeCounted)
  {
    onTime, total := 0, 0;
    var i := 0;
    while i < |col|
      invariant 0 <= i <= |col|
      invariant onTime == Count(col[..i], Kpis.Compliant)
      invariant total == Count(col[..i], Kpis.OnTimeCounted)
    {
      CountStep(col, Kpis.Compliant, i);
      CountStep(col, Kpis.OnTimeCounted, i);
      var reaches, counted := ReadEfficiency(col[i], 80.0);
      assert reaches == Kpis.Compliant(col[i]);
      if reaches {
        onTime := onTime + 1;
      }
      if counted {
        total := total + 1;
      }
      assert onTime == Count(col[..i + 1], Kpis.Compliant);
      assert total == Count(col[..i + 1], Kpis.OnTimeCounted);
      i := i + 1;
    }
    assert col[..i] == col;
  }

  /** The five-star loop: high_efficiency_count. */
  method CountFiveStar(col: seq<Value>) returns (count: nat)
    ensures count == Count(col, Kpis.FiveStar)
  {
    count := 0;
    var i := 0;
    while i < |col|
      invariant 0 <= i <= |col|
      invariant count == Count(col[..i], Kpis.FiveStar)
    {
      CountStep(col, Kpis.FiveStar, i);
      var reaches, _ := ReadEfficiency(col[i], 90.0);
      assert reaches == Kpis.FiveStar(col[i]);
      if reaches {
        count := count + 1;
      }
      assert count == Count(col[..i + 1], Kpis.FiveStar);
      i := i + 1;
    }
    assert col[..i] == col;
  }
}

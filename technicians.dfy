/** The technician choices of the sidebar: "All", then every technician of
    the merged table once, in sorted order. */
module Technicians {
  import opened Wrappers
  import opened Values
  import opened Seqs
  import opened Tables
  import opened Kpis
  import Merge

  const All: Value := Str("All")

  /** get_technicians: ["All"] without a merged table or without a
      Technician column; otherwise "All" followed by
      sorted(Technician.dropna().unique()). None stands for the TypeError
      sorted() raises on technicians of two kinds, which nothing catches. */
  function TechnicianOptions(merged: Option<Table>): (r: Option<seq<Value>>)
    ensures merged.None? || "Technician" !in merged.value.columns ==> r == Some([All])
    ensures r.None? <==> merged.Some? && "Technician" in merged.value.columns
                         && MixedKinds(Distinct(NonMissing(Column(merged.value, "Technician"))))
    ensures r.Some? ==> |r.value| >= 1 && r.value[0] == All
    ensures r.Some? ==> StrictlySorted(r.value[1..]) && NoDuplicates(r.value[1..])
    ensures r.Some? && merged.Some? && "Technician" in merged.value.columns ==>
      forall v :: v in r.value[1..] <==> v in Column(merged.value, "Technician") && v != Missing
  {
    match merged
    case None => Some([All])
    case Some(t) =>
      if "Technician" !in t.columns then Some([All])
      else
        match SortedDistinct(Column(t, "Technician"))
        case None => None
        case Some(s) =>
          assert ([All] + s)[1..] == s;
          Some([All] + s)
  }

  /** Choosing any listed technician that is not falsy keeps at least one
      row of the merged table: the row the technician was taken from. */
  lemma ListedTechnicianHasRows(merged: Table, tech: Value)
    requires TechnicianOptions(Some(merged)).Some?
    requires tech in TechnicianOptions(Some(merged)).value[1..]
    requires !SelectsEveryone(Some(tech))
    ensures Filtered(Some(merged), Some(tech)).Some?
    ensures |Filtered(Some(merged), Some(tech)).value.rows| > 0
  {
    var col := Column(merged, "Technician");
    assert "Technician" in merged.columns;
    assert tech in col && tech != Missing;
    var i :| 0 <= i < |col| && col[i] == tech;
    var row := merged.rows[i];
    assert SameTechnician(Cell(merged.columns, row, "Technician"), tech);
    var f := Filtered(Some(merged), Some(tech)).value;
    assert row in merged.rows;
    assert multiset(f.rows)[row] == multiset(merged.rows)[row] > 0;
    assert row in f.rows;
  }

  /** Every technician of the merged table is offered, exactly once. */
  lemma EveryTechnicianOffered(merged: Table, i: nat)
    requires TechnicianOptions(Some(merged)).Some?
    requires "Technician" in merged.columns
    requires i < |merged.rows| && Cell(merged.columns, merged.rows[i], "Technician") != Missing
    ensures var opts := TechnicianOptions(Some(merged)).value[1..];
      Count(opts, EqualTo(Cell(merged.columns, merged.rows[i], "Technician"))) == 1
  {
    var opts := TechnicianOptions(Some(merged)).value[1..];
    var v := Cell(merged.columns, merged.rows[i], "Technician");
    assert v in Column(merged, "Technician");
    OccursOnce(opts, v);
  }

  /** A member of a sequence without repetitions occurs in it once. */
  lemma OccursOnce(vs: seq<Value>, v: Value)
    requires NoDuplicates(vs) && v in vs
    ensures Count(vs, EqualTo(v)) == 1
  {
    Merge.AtMostOneEqual(vs, v);
    var j :| 0 <= j < |vs| && vs[j] == v;
    assert EqualTo(v)(vs[j]);
  }
}

/** The merger of ServiceDashboard.merge_data (app.py:114-161): the
    appointments table left-joined with the job-times, opportunities and
    aggregated items-sold tables, each on the first key both sides have. */
module Merge {
  import opened Wrappers
  import opened Values
  import opened Seqs
  import opened Tables
  import Text

  // ---------------------------------------------------------------------
  // pd.merge(left, right, on=key, how='left', suffixes=(lsuf, rsuf))
  // ---------------------------------------------------------------------

  function DropAt<T>(s: seq<T>, i: nat): (r: seq<T>)
    ensures i < |s| ==> |r| == |s| - 1
    ensures i >= |s| ==> r == s
  {
    if i < |s| then s[..i] + s[i + 1..] else s
  }

  /** The right table's columns other than the join key. */
  function RightRest(right: Table, key: string): seq<string> {
    DropAt(right.columns, IndexOf(right.columns, key))
  }

  /** Column names after a join: a non-key column that the other side also
      has takes that side's suffix; every other name is kept. */
  function Renamed(cols: seq<string>, other: seq<string>, key: string, suffix: string): (r: seq<string>)
    ensures |r| == |cols|
  {
    seq(|cols|, i requires 0 <= i < |cols| => if cols[i] != key && cols[i] in other then cols[i] + suffix else cols[i])
  }

  function JoinedColumns(left: Table, right: Table, key: string, lsuf: string, rsuf: string): seq<string> {
    var rest := RightRest(right, key);
    Renamed(left.columns, rest, key, lsuf) + Renamed(rest, left.columns, key, rsuf)
  }

  function Blank(n: nat): (r: Row)
    ensures |r| == n && forall i :: 0 <= i < n ==> r[i] == Missing
  {
    seq(n, i => Missing)
  }

  /** The rows of right whose key equals k, in order. pandas matches a NaN
      key with a NaN key, as Value equality does. */
  function Matches(right: Table, key: string, k: Value): seq<Row> {
    Where(right, key, k).rows
  }

  /** What one left row l becomes: l extended by each matching right row
      (its key dropped), or by NaN everywhere when nothing matches. */
  function JoinBlock(l: Row, left: Table, right: Table, key: string): (b: seq<Row>)
    ensures |b| >= 1
    ensures forall r :: r in b ==> l <= r
  {
    var ms := Matches(right, key, Cell(left.columns, l, key));
    var ki := IndexOf(right.columns, key);
    if ms == [] then [l + Blank(|RightRest(right, key)|)]
    else seq(|ms|, i requires 0 <= i < |ms| => l + DropAt(ms[i], ki))
  }

  function JoinBlocks(left: Table, right: Table, key: string): (bs: seq<seq<Row>>)
    ensures |bs| == |left.rows|
  {
    seq(|left.rows|, i requires 0 <= i < |left.rows| => JoinBlock(left.rows[i], left, right, key))
  }

  /** A left join: the left rows in order, each repeated once per matching
      right row and at least once. */
  function LeftJoin(left: Table, right: Table, key: string, lsuf: string, rsuf: string): Table {
    Table(JoinedColumns(left, right, key, lsuf, rsuf), Flatten(JoinBlocks(left, right, key)))
  }

  /** No two rows of t share a value under key. */
  predicate UniqueKeys(t: Table, key: string) {
    forall i, j :: 0 <= i < j < |t.rows| ==> Cell(t.columns, t.rows[i], key) != Cell(t.columns, t.rows[j], key)
  }

  /** A join keeps the shape of a DataFrame: one value per column. */
  lemma LeftJoinWellFormed(left: Table, right: Table, key: string, lsuf: string, rsuf: string)
    requires WellFormed(left) && WellFormed(right)
    requires key in left.columns && key in right.columns
    ensures WellFormed(LeftJoin(left, right, key, lsuf, rsuf))
    ensures |LeftJoin(left, right, key, lsuf, rsuf).columns| == |left.columns| + |right.columns| - 1
  {
    var bs := JoinBlocks(left, right, key);
    var n := |left.columns| + |right.columns| - 1;
    forall i | 0 <= i < |bs| ensures forall r :: r in bs[i] ==> |r| == n {
      assert left.rows[i] in left.rows;
      JoinBlockWidth(left.rows[i], left, right, key);
    }
    FlattenRowsWidth(bs, n);
  }

  lemma JoinBlockWidth(l: Row, left: Table, right: Table, key: string)
    requires WellFormed(right) && key in right.columns && |l| == |left.columns|
    ensures forall r :: r in JoinBlock(l, left, right, key) ==> |r| == |left.columns| + |right.columns| - 1
  {
    var ms := Matches(right, key, Cell(left.columns, l, key));
    var ki := IndexOf(right.columns, key);
    var w := |left.columns| + |right.columns| - 1;
    assert ki < |right.columns|;
    assert |RightRest(right, key)| == |right.columns| - 1;
    var b := JoinBlock(l, left, right, key);
    if ms == [] {
      assert b == [l + Blank(|RightRest(right, key)|)];
    } else {
      assert b == seq(|ms|, i requires 0 <= i < |ms| => l + DropAt(ms[i], ki));
      forall r | r in b ensures |r| == w {
        var i :| 0 <= i < |b| && b[i] == r;
        assert ms[i] in right.rows;
        assert r == l + DropAt(ms[i], ki);
      }
    }
  }

  lemma {:induction false} FlattenRowsWidth(bs: seq<seq<Row>>, n: nat)
    requires forall i :: 0 <= i < |bs| ==> forall r :: r in bs[i] ==> |r| == n
    ensures forall r :: r in Flatten(bs) ==> |r| == n
  {
    if bs != [] { FlattenRowsWidth(bs[..|bs| - 1], n); }
  }

  /** Some row of ys extends x (x is a prefix of it). */
  ghost predicate ExtendedBy(x: Row, ys: seq<Row>) {
    exists j :: 0 <= j < |ys| && x <= ys[j]
  }

  /** Every row of xs is extended by some row of ys. */
  ghost predicate Extended(xs: seq<Row>, ys: seq<Row>) {
    forall i :: 0 <= i < |xs| ==> ExtendedBy(xs[i], ys)
  }

  /** Every left row survives a left join: the output is made of one
      non-empty block per left row, in order, each of whose rows extends it;
      so there are at least as many rows as on the left. */
  lemma LeftJoinKeepsEveryRow(left: Table, right: Table, key: string, lsuf: string, rsuf: string)
    ensures var out := LeftJoin(left, right, key, lsuf, rsuf).rows;
      && |out| >= |left.rows|
      && (exists bs: seq<seq<Row>> :: |bs| == |left.rows| && Flatten(bs) == out
            && forall i :: 0 <= i < |bs| ==> |bs[i]| >= 1 && forall r :: r in bs[i] ==> left.rows[i] <= r)
      && Extended(left.rows, out)
  {
    var bs := JoinBlocks(left, right, key);
    FlattenNonEmpty(bs);
    forall i | 0 <= i < |left.rows|
      ensures ExtendedBy(left.rows[i], Flatten(bs))
    {
      FlattenBlockStart(bs, i);
      assert bs[i][0] in bs[i];
    }
  }

  /** Under unique keys, at most one right row matches any key. */
  lemma MatchesAtMostOne(right: Table, key: string, k: Value)
    requires UniqueKeys(right, key)
    ensures |Matches(right, key, k)| <= 1
  {
    WhereSize(right, key, k);
    var col := Column(right, key);
    assert NoDuplicates(col);
    AtMostOneEqual(col, k);
  }

  /** A value occurs at most once in a sequence without repetitions. */
  lemma {:induction false} AtMostOneEqual(vs: seq<Value>, k: Value)
    requires NoDuplicates(vs)
    ensures Count(vs, EqualTo(k)) <= 1
  {
    if vs != [] {
      var n := |vs|;
      var init := vs[..n - 1];
      assert NoDuplicates(init) by {
        forall i, j | 0 <= i < j < |init| ensures init[i] != init[j] {
          assert init[i] == vs[i] && init[j] == vs[j];
        }
      }
      AtMostOneEqual(init, k);
      if vs[n - 1] == k {
        forall i | 0 <= i < |init| ensures init[i] != k {
          assert init[i] == vs[i];
        }
        CountNone(init, EqualTo(k));
      }
    }
  }

  /** When the right keys are unique a left join keeps the row count, and
      row i of the result extends row i of the left table. */
  lemma LeftJoinUniqueKeys(left: Table, right: Table, key: string, lsuf: string, rsuf: string)
    requires UniqueKeys(right, key)
    ensures var out := LeftJoin(left, right, key, lsuf, rsuf).rows;
      |out| == |left.rows| && forall i :: 0 <= i < |left.rows| ==> left.rows[i] <= out[i]
  {
    var bs := JoinBlocks(left, right, key);
    forall i | 0 <= i < |bs| ensures |bs[i]| == 1 {
      MatchesAtMostOne(right, key, Cell(left.columns, left.rows[i], key));
    }
    FlattenSingletons(bs);
    forall i | 0 <= i < |bs| ensures left.rows[i] <= Flatten(bs)[i] {
      assert bs[i][0] in bs[i];
    }
  }

  /** A right column that the left table also has is never overwritten:
      the left one keeps its name (empty left suffix) and the right one
      comes in under its name with the right suffix. */
  lemma CollidingColumnSuffixed(left: Table, right: Table, key: string, rsuf: string, c: string)
    requires key in right.columns && c in right.columns && c != key && c in left.columns
    ensures var cols := JoinedColumns(left, right, key, "", rsuf);
      c in cols && c + rsuf in cols
  {
    var rest := RightRest(right, key);
    var ki := IndexOf(right.columns, key);
    var p :| 0 <= p < |right.columns| && right.columns[p] == c;
    assert p != ki;
    var q := if p < ki then p else p - 1;
    assert rest[q] == c;
    var lp :| 0 <= lp < |left.columns| && left.columns[lp] == c;
    assert Renamed(left.columns, rest, key, "")[lp] == c + "";
    assert c + "" == c;
    assert Renamed(rest, left.columns, key, rsuf)[q] == c + rsuf;
    var cols := JoinedColumns(left, right, key, "", rsuf);
    assert cols[lp] == c;
    assert cols[|left.columns| + q] == c + rsuf;
    ElementIn(cols, lp);
    ElementIn(cols, |left.columns| + q);
    assert c in cols && c + rsuf in cols;
  }

  // ---------------------------------------------------------------------
  // Join keys (app.py:124-128, 135-137, 144)
  // ---------------------------------------------------------------------

  /** Job times join on 'Job' when both sides have it, else on 'Job ID' when
      both have that, else not at all. */
  function JobTimesKey(left: seq<string>, right: seq<string>): (k: Option<string>)
    ensures k == Some("Job") <==> "Job" in left && "Job" in right
    ensures k == Some("Job ID") <==> !("Job" in left && "Job" in right) && "Job ID" in left && "Job ID" in right
    ensures k.None? <==> !("Job" in left && "Job" in right) && !("Job ID" in left && "Job ID" in right)
  {
    if "Job" in left && "Job" in right then Some("Job")
    else if "Job ID" in left && "Job ID" in right then Some("Job ID")
    else None
  }

  /** Opportunities join on 'Job' only. */
  function OpportunitiesKey(left: seq<string>, right: seq<string>): (k: Option<string>)
    ensures k.Some? <==> "Job" in left && "Job" in right
    ensures k.Some? ==> k.value == "Job"
  {
    if "Job" in left && "Job" in right then Some("Job") else None
  }

  // ---------------------------------------------------------------------
  // Items-sold aggregation (app.py:145-150)
  // ---------------------------------------------------------------------

  const ItemColumns: seq<string> := ["Customer Email", "Total_Items_Price", "Total_Items_Qty", "Items_Sold"]

  /** ', '.join(line_items.unique()): None where a line item is not text
      (TypeError). */
  function ItemsSoldText(lineItems: seq<Value>): (r: Option<string>)
    ensures r.Some? <==> forall v :: v in lineItems ==> v.Str?
  {
    var d := Distinct(lineItems);
    if forall i :: 0 <= i < |d| ==> d[i].Str? then
      Some(Text.Join(seq(|d|, i requires 0 <= i < |d| => d[i].s), ", "))
    else
      assert exists i :: 0 <= i < |d| && !d[i].Str?;
      None
  }

  /** The aggregate of one customer's rows, or None where pandas raises. */
  function AggregateRow(items: Table, email: Value): Option<Row> {
    var g := Where(items, "Customer Email", email);
    var price := PandasSum(Column(g, "Price"));
    var qty := PandasSum(Column(g, "Quantity"));
    var text := ItemsSoldText(Column(g, "Line Item"));
    if price.Some? && qty.Some? && text.Some? then
      Some([email, Num(price.value), Num(qty.value), Str(text.value)])
    else None
  }

  /** items.groupby('Customer Email').agg(sum of Price, sum of Quantity,
      distinct Line Items joined) with the columns renamed; None where pandas
      raises (a column missing, keys that cannot be sorted, a sum or join
      over values of the wrong type). */
  function AggregateItems(items: Table): Option<Table> {
    if !("Price" in items.columns && "Quantity" in items.columns && "Line Item" in items.columns) then None
    else
      match GroupKeys(Column(items, "Customer Email"))
      case None => None
      case Some(emails) =>
        match MapAll(emails, (e: Value) => AggregateRow(items, e))
        case None => None
        case Some(rows) => Some(Table(ItemColumns, rows))
  }

  /** The aggregate has exactly one row per customer: its key column lists
      every present email once, in groupby's key order. */
  lemma AggregateOneRowPerCustomer(items: Table)
    requires AggregateItems(items).Some?
    ensures var agg := AggregateItems(items).value;
      && UniqueKeys(agg, "Customer Email")
      && GroupOrdered(Column(agg, "Customer Email"))
      && forall e :: e in Column(agg, "Customer Email") <==> e in Column(items, "Customer Email") && e != Missing
  {
    AggregateKeyColumn(items);
  }

  /** The key column of the aggregate is the list of distinct present
      emails, in groupby's key order. */
  lemma AggregateKeyColumn(items: Table)
    requires AggregateItems(items).Some?
    ensures var agg := AggregateItems(items).value;
      Column(agg, "Customer Email") == GroupKeys(Column(items, "Customer Email")).value
  {
    var agg := AggregateItems(items).value;
    var emails := GroupKeys(Column(items, "Customer Email")).value;
    var rows := MapAll(emails, (e: Value) => AggregateRow(items, e)).value;
    assert agg == Table(ItemColumns, rows);
    assert IndexOf(ItemColumns, "Customer Email") == 0;
    forall i | 0 <= i < |rows| ensures Cell(ItemColumns, rows[i], "Customer Email") == emails[i] {
      assert Some(rows[i]) == AggregateRow(items, emails[i]);
    }
  }

  /** One customer's aggregate row: the email, then the totals over that
      customer's rows. */
  lemma AggregateRowTotals(items: Table, e: Value, row: Row)
    requires AggregateRow(items, e) == Some(row)
    ensures |row| == 4 && row[0] == e
    ensures var g := Where(items, "Customer Email", e);
      && row[1] == Num(Sum(Nums(Column(g, "Price"))))
      && row[2] == Num(Sum(Nums(Column(g, "Quantity"))))
      && ItemsSoldText(Column(g, "Line Item")).Some?
      && row[3] == Str(ItemsSoldText(Column(g, "Line Item")).value)
  {
    var g := Where(items, "Customer Email", e);
    var price := PandasSum(Column(g, "Price"));
    var qty := PandasSum(Column(g, "Quantity"));
    var text := ItemsSoldText(Column(g, "Line Item"));
    assert price.Some? && qty.Some? && text.Some?;
    assert price.value == Sum(Nums(Column(g, "Price")));
    assert qty.value == Sum(Nums(Column(g, "Quantity")));
    var expected := [e, Num(price.value), Num(qty.value), Str(text.value)];
    assert AggregateRow(items, e) == Some(expected);
    assert row == expected;
    FourCells(row, e, Num(price.value), Num(qty.value), Str(text.value));
  }

  /** The cells of a four-cell row. */
  lemma FourCells(row: Row, a: Value, b: Value, c: Value, d: Value)
    requires row == [a, b, c, d]
    ensures |row| == 4 && row[0] == a && row[1] == b && row[2] == c && row[3] == d
  {
  }

  /** Each aggregated row holds its customer's totals: the sums of Price and
      Quantity over that customer's rows, and their distinct line items
      joined by ", ". */
  lemma AggregateTotals(items: Table, i: nat)
    requires AggregateItems(items).Some? && i < |AggregateItems(items).value.rows|
    ensures |AggregateItems(items).value.rows[i]| == 4
    ensures var row := AggregateItems(items).value.rows[i];
      var g := Where(items, "Customer Email", row[0]);
      && row[1] == Num(Sum(Nums(Column(g, "Price"))))
      && row[2] == Num(Sum(Nums(Column(g, "Quantity"))))
      && ItemsSoldText(Column(g, "Line Item")).Some?
      && row[3] == Str(ItemsSoldText(Column(g, "Line Item")).value)
  {
    var emails := GroupKeys(Column(items, "Customer Email")).value;
    var rows := MapAll(emails, (e: Value) => AggregateRow(items, e)).value;
    assert AggregateItems(items).value.rows == rows;
    AggregateRowTotals(items, emails[i], rows[i]);
  }

  // ---------------------------------------------------------------------
  // merge_data (app.py:114-161), one join at a time
  // ---------------------------------------------------------------------

  /** app.py:122-131: a job-times table joins when a key is found. */
  function WithJobTimes(merged: Table, jobTimes: Option<Table>): (r: Table)
    ensures jobTimes.None? || JobTimesKey(merged.columns, jobTimes.value.columns).None? ==> r == merged
  {
    match jobTimes
    case None => merged
    case Some(jt) =>
      match JobTimesKey(merged.columns, jt.columns)
      case None => merged
      case Some(k) => LeftJoin(merged, jt, k, "", "_job")
  }

  /** app.py:134-140: an opportunities table joins on 'Job' when both sides
      have it. */
  function WithOpportunities(merged: Table, opportunities: Option<Table>): (r: Table)
    ensures opportunities.None? || OpportunitiesKey(merged.columns, opportunities.value.columns).None? ==> r == merged
  {
    match opportunities
    case None => merged
    case Some(opp) =>
      match OpportunitiesKey(merged.columns, opp.columns)
      case None => merged
      case Some(k) => LeftJoin(merged, opp, k, "", "_opp")
  }

  /** app.py:143-151: an items-sold table is aggregated per customer and
      joined on 'Customer Email' (default suffixes _x and _y); None where the
      aggregation raises. */
  function WithItems(merged: Table, itemsSold: Option<Table>): (r: Option<Table>)
    ensures itemsSold.None? ==> r == Some(merged)
    ensures itemsSold.Some? && !("Customer Email" in merged.columns && "Customer Email" in itemsSold.value.columns)
            ==> r == Some(merged)
  {
    match itemsSold
    case None => Some(merged)
    case Some(items) =>
      if "Customer Email" in merged.columns && "Customer Email" in items.columns then
        match AggregateItems(items)
        case None => None
        case Some(agg) => Some(LeftJoin(merged, agg, "Customer Email", "_x", "_y"))
      else Some(merged)
  }

  /** The whole merge; None where merge_data returns False. */
  function MergeAll(appointments: Option<Table>, jobTimes: Option<Table>, opportunities: Option<Table>,
                    itemsSold: Option<Table>): (r: Option<Table>)
    ensures appointments.None? ==> r.None?
  {
    match appointments
    case None => None
    case Some(a) => WithItems(WithOpportunities(WithJobTimes(a, jobTimes), opportunities), itemsSold)
  }

  /** Joining the aggregated items never changes the row count: row i of
      the result extends row i of the table joined into. */
  lemma ItemsJoinKeepsRows(merged: Table, itemsSold: Option<Table>)
    requires WithItems(merged, itemsSold).Some?
    ensures var m := WithItems(merged, itemsSold).value;
      |m.rows| == |merged.rows| && forall i :: 0 <= i < |merged.rows| ==> merged.rows[i] <= m.rows[i]
  {
    if itemsSold.Some? && "Customer Email" in merged.columns && "Customer Email" in itemsSold.value.columns {
      var agg := AggregateItems(itemsSold.value).value;
      AggregateOneRowPerCustomer(itemsSold.value);
      LeftJoinUniqueKeys(merged, agg, "Customer Email", "_x", "_y");
    }
  }

  /** merge_data fails only without an appointments table or when the
      items aggregation raises. */
  lemma MergeFailsOnlyWhen(appointments: Option<Table>, jobTimes: Option<Table>, opportunities: Option<Table>,
                           itemsSold: Option<Table>)
    ensures MergeAll(appointments, jobTimes, opportunities, itemsSold).None? <==>
      || appointments.None?
      || (&& itemsSold.Some?
          && "Customer Email" in itemsSold.value.columns
          && "Customer Email" in WithOpportunities(WithJobTimes(appointments.value, jobTimes), opportunities).columns
          && AggregateItems(itemsSold.value).None?)
  {
  }

  /** Every appointment survives the merge: each appointments row is
      extended by some merged row, and there are at least as many merged
      rows as appointments. */
  lemma MergeKeepsEveryAppointment(a: Table, jobTimes: Option<Table>, opportunities: Option<Table>,
                                   itemsSold: Option<Table>)
    requires MergeAll(Some(a), jobTimes, opportunities, itemsSold).Some?
    ensures var m := MergeAll(Some(a), jobTimes, opportunities, itemsSold).value;
      && |m.rows| >= |a.rows|
      && Extended(a.rows, m.rows)
  {
    var t1 := WithJobTimes(a, jobTimes);
    var t2 := WithOpportunities(t1, opportunities);
    assert MergeAll(Some(a), jobTimes, opportunities, itemsSold) == WithItems(t2, itemsSold);
    var m := WithItems(t2, itemsSold).value;
    SurvivesJoin(a, jobTimes, true);
    SurvivesJoin(t1, opportunities, false);
    ItemsJoinKeepsRows(t2, itemsSold);
    ExtendedTwice(a.rows, t1.rows, t2.rows);
    ExtendedInPlace(a.rows, t2.rows, m.rows);
  }

  lemma ExtendedTwice(xs: seq<Row>, ys: seq<Row>, zs: seq<Row>)
    requires Extended(xs, ys) && Extended(ys, zs)
    ensures Extended(xs, zs)
  {
    forall i | 0 <= i < |xs| ensures ExtendedBy(xs[i], zs) {
      var j :| 0 <= j < |ys| && xs[i] <= ys[j];
      var k :| 0 <= k < |zs| && ys[j] <= zs[k];
      assert xs[i] <= zs[k];
    }
  }

  lemma ExtendedInPlace(xs: seq<Row>, ys: seq<Row>, zs: seq<Row>)
    requires Extended(xs, ys)
    requires |zs| == |ys| && forall i :: 0 <= i < |ys| ==> ys[i] <= zs[i]
    ensures Extended(xs, zs)
  {
    forall i | 0 <= i < |xs| ensures ExtendedBy(xs[i], zs) {
      var j :| 0 <= j < |ys| && xs[i] <= ys[j];
      assert xs[i] <= zs[j];
    }
  }

  /** One optional join step keeps every row of its input. */
  lemma SurvivesJoin(t: Table, source: Option<Table>, jobTimes: bool)
    ensures var u := if jobTimes then WithJobTimes(t, source) else WithOpportunities(t, source);
      && |u.rows| >= |t.rows|
      && Extended(t.rows, u.rows)
  {
    var u := if jobTimes then WithJobTimes(t, source) else WithOpportunities(t, source);
    if u != t {
      var k := if jobTimes then JobTimesKey(t.columns, source.value.columns).value
               else OpportunitiesKey(t.columns, source.value.columns).value;
      LeftJoinKeepsEveryRow(t, source.value, k, "", if jobTimes then "_job" else "_opp");
    } else {
      forall i | 0 <= i < |t.rows| ensures ExtendedBy(t.rows[i], u.rows) {
        assert t.rows[i] <= u.rows[i];
      }
    }
  }

  /** When neither the job-times nor the opportunities table repeats a key
      it joins on, the merged table has exactly one row per appointment,
      row i extending appointment i. */
  lemma MergeKeepsRowCount(a: Table, jobTimes: Option<Table>, opportunities: Option<Table>,
                           itemsSold: Option<Table>)
    requires MergeAll(Some(a), jobTimes, opportunities, itemsSold).Some?
    requires jobTimes.Some? && JobTimesKey(a.columns, jobTimes.value.columns).Some? ==>
      UniqueKeys(jobTimes.value, JobTimesKey(a.columns, jobTimes.value.columns).value)
    requires opportunities.Some? && OpportunitiesKey(WithJobTimes(a, jobTimes).columns, opportunities.value.columns).Some? ==>
      UniqueKeys(opportunities.value, "Job")
    ensures var m := MergeAll(Some(a), jobTimes, opportunities, itemsSold).value;
      |m.rows| == |a.rows| && forall i :: 0 <= i < |a.rows| ==> a.rows[i] <= m.rows[i]
  {
    var t1 := WithJobTimes(a, jobTimes);
    var t2 := WithOpportunities(t1, opportunities);
    if jobTimes.Some? && JobTimesKey(a.columns, jobTimes.value.columns).Some? {
      LeftJoinUniqueKeys(a, jobTimes.value, JobTimesKey(a.columns, jobTimes.value.columns).value, "", "_job");
    }
    if opportunities.Some? && OpportunitiesKey(t1.columns, opportunities.value.columns).Some? {
      LeftJoinUniqueKeys(t1, opportunities.value, "Job", "", "_opp");
    }
    ItemsJoinKeepsRows(t2, itemsSold);
  }
}

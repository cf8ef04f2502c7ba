/** DataFrames: named columns over positional rows, with the lookups and
    boolean-mask selections the dashboard applies to them. */
module Tables {
  import opened Values
  import opened Seqs
  import opened Wrappers
  import Text

  type Row = seq<Value>

  /** A DataFrame: its column names in order and its rows, a row holding one
      value per column, by position. */
  datatype Table = Table(columns: seq<string>, rows: seq<Row>)

  /** Every row has one value per column. */
  predicate WellFormed(t: Table) {
    forall r :: r in t.rows ==> |r| == |t.columns|
  }

  predicate HasColumn(t: Table, c: string) {
    c in t.columns
  }

  /** Position of the first column named c, or |cols| when there is none. */
  function IndexOf(cols: seq<string>, c: string): (i: nat)
    ensures i <= |cols|
    ensures i < |cols| <==> c in cols
    ensures i < |cols| ==> cols[i] == c
    ensures c !in cols[..i]
  {
    if cols == [] then 0
    else if cols[0] == c then 0
    else
      var i := 1 + IndexOf(cols[1..], c);
      assert cols[..i] == [cols[0]] + cols[1..][..i - 1];
      i
  }

  /** row[c]: the value under column c, Missing where the row has none. */
  function Cell(cols: seq<string>, r: Row, c: string): Value {
    var i := IndexOf(cols, c);
    if i < |r| then r[i] else Missing
  }

  /** df[c] as a sequence of values, one per row. */
  function Column(t: Table, c: string): (vs: seq<Value>)
    ensures |vs| == |t.rows|
    ensures forall i :: 0 <= i < |t.rows| ==> vs[i] == Cell(t.columns, t.rows[i], c)
  {
    seq(|t.rows|, i requires 0 <= i < |t.rows| => Cell(t.columns, t.rows[i], c))
  }

  /** df[df[c] == v]: exactly the rows whose value under c equals v, each as
      often as in t and in the same order, with the columns of t. */
  function Where(t: Table, c: string, v: Value): (u: Table)
    ensures u.columns == t.columns
    ensures |u.rows| <= |t.rows|
    ensures forall r :: r in u.rows <==> r in t.rows && Cell(t.columns, r, c) == v
    ensures forall r :: multiset(u.rows)[r] == if Cell(t.columns, r, c) == v then multiset(t.rows)[r] else 0
  {
    Table(t.columns, Filter(t.rows, (r: Row) => Cell(t.columns, r, c) == v))
  }


  /** Selecting rows by their value under c keeps as many rows as the column
      has entries equal to v. */
  lemma {:induction false} WhereSize(t: Table, c: string, v: Value)
    ensures |Where(t, c, v).rows| == Count(Column(t, c), EqualTo(v))
  {
    var p := (r: Row) => Cell(t.columns, r, c) == v;
    FilterSize(t.rows, p);
    CountAlike(t.rows, p, Column(t, c), EqualTo(v));
  }

  /** pandas refuses the `.str` accessor on a column whose present values
      are all numbers or all timestamps (AttributeError); a column with any
      text in it, or with nothing but NaN, is accepted. */
  predicate StrAccessorRefuses(vs: seq<Value>) {
    && (forall i :: 0 <= i < |vs| ==> !vs[i].Str?)
    && (|| ((exists i :: 0 <= i < |vs| && vs[i].Num?) && (forall i :: 0 <= i < |vs| ==> !vs[i].Date?))
        || ((exists i :: 0 <= i < |vs| && vs[i].Date?) && (forall i :: 0 <= i < |vs| ==> !vs[i].Num?)))
  }

  /** Whether a value counts for `.str.contains(kw, case=False, na=False)`:
      only text can match, and it matches ignoring case. */
  predicate Mentions(v: Value, kw: string) {
    v.Str? && Text.ContainsIgnoringCase(v.s, kw)
  }

  /** df[df[c].str.contains(kw, case=False, na=False)].shape[0], or None
      where the accessor raises. */
  function ContainsCount(t: Table, c: string, kw: string): (r: Option<nat>)
    ensures r.None? <==> StrAccessorRefuses(Column(t, c))
    ensures r.Some? ==> r.value <= |t.rows|
    ensures r.Some? ==> r.value == Count(Column(t, c), (v: Value) => Mentions(v, kw))
  {
    var vs := Column(t, c);
    if StrAccessorRefuses(vs) then None else Some(Count(vs, (v: Value) => Mentions(v, kw)))
  }
}

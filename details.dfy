/** The per-row rules of the job details table: the Won/Lost column, the
    Membership Win flag and the rendering of the efficiency column. */
module JobDetails {
  import opened Wrappers
  import opened Values
  import opened Seqs
  import opened Tables
  import opened Kpis
  import Text

  // ---------------------------------------------------------------------
  // Won/Lost
  // ---------------------------------------------------------------------

  /** 'Won' if x == 'Completed' else 'Lost'. */
  function WonLost(status: Value): (r: string)
    ensures r == "Won" || r == "Lost"
    ensures r == "Won" <==> status == Completed
  {
    if status == Completed then "Won" else "Lost"
  }

  /** The Won/Lost column of the table, one entry per row; None when the
      table has no Appt Status column and so no Won/Lost column. */
  function WonLostColumn(df: Table): (r: Option<seq<string>>)
    ensures r.Some? <==> "Appt Status" in df.columns
    ensures r.Some? ==> |r.value| == |df.rows|
    ensures r.Some? ==> forall i :: 0 <= i < |df.rows| ==>
      r.value[i] == WonLost(Cell(df.columns, df.rows[i], "Appt Status"))
  {
    if "Appt Status" !in df.columns then None
    else Some(seq(|df.rows|, i requires 0 <= i < |df.rows| => WonLost(Cell(df.columns, df.rows[i], "Appt Status"))))
  }

  /** The jobs shown as won are exactly the completed jobs: as many as the
      job close rate counts. */
  lemma WonCountIsCompletedCount(df: Table)
    requires "Appt Status" in df.columns
    ensures Count(WonLostColumn(df).value, (s: string) => s == "Won") == |CompletedJobs(df).rows|
  {
    var won := WonLostColumn(df).value;
    WhereSize(df, "Appt Status", Completed);
    CountAlike(won, (s: string) => s == "Won", Column(df, "Appt Status"), EqualTo(Completed));
  }

  // ---------------------------------------------------------------------
  // Membership Win
  // ---------------------------------------------------------------------

  /** 'membership' in str(x).lower() for a present value. Only text can
      hold the word: str() of a number or of a timestamp has no letters
      beyond an exponent or a 'T'. */
  predicate SaysMembership(v: Value) {
    v.Str? && Text.Contains(Text.Lower(v.s), "membership")
  }

  /** The Membership Win flag of one row: the Items_Sold entry decides when
      the table has that column and the row a value there; otherwise the
      Service Category entry, on the same terms; otherwise No. */
  function MembershipFlag(cols: seq<string>, row: Row): (yes: bool)
    ensures yes ==> SaysMembership(Cell(cols, row, "Items_Sold")) || SaysMembership(Cell(cols, row, "Service Category"))
    ensures "Items_Sold" in cols && Cell(cols, row, "Items_Sold") != Missing ==>
      (yes <==> SaysMembership(Cell(cols, row, "Items_Sold")))
  {
    if "Items_Sold" in cols && Cell(cols, row, "Items_Sold") != Missing then
      SaysMembership(Cell(cols, row, "Items_Sold"))
    else if "Service Category" in cols && Cell(cols, row, "Service Category") != Missing then
      SaysMembership(Cell(cols, row, "Service Category"))
    else false
  }

  /** The Membership Win column, one flag per row; None when the table has
      neither Items_Sold nor Service Category and so no such column. */
  function MembershipFlags(df: Table): (r: Option<seq<bool>>)
    ensures r.Some? <==> "Items_Sold" in df.columns || "Service Category" in df.columns
    ensures r.Some? ==> |r.value| == |df.rows|
    ensures r.Some? ==> forall i :: 0 <= i < |df.rows| ==> r.value[i] == MembershipFlag(df.columns, df.rows[i])
  {
    if "Items_Sold" !in df.columns && "Service Category" !in df.columns then None
    else Some(seq(|df.rows|, i requires 0 <= i < |df.rows| => MembershipFlag(df.columns, df.rows[i])))
  }

  function YesNo(b: bool): string {
    if b then "Yes" else "No"
  }

  /** The loop that builds the Membership Win column row by row: a Yes or
      No per row, in row order, as the flags say; None where the column is
      not added. */
  method MembershipWinColumn(df: Table) returns (col: Option<seq<string>>)
    ensures col.Some? <==> MembershipFlags(df).Some?
    ensures col.Some? ==> |col.value| == |df.rows|
    ensures col.Some? ==> forall i :: 0 <= i < |df.rows| ==> col.value[i] == YesNo(MembershipFlags(df).value[i])
  {
    if "Items_Sold" !in df.columns && "Service Category" !in df.columns {
      return None;
    }
    var wins: seq<string> := [];
    var i := 0;
    while i < |df.rows|
      invariant 0 <= i <= |df.rows|
      invariant |wins| == i
      invariant forall k :: 0 <= k < i ==> wins[k] == YesNo(MembershipFlag(df.columns, df.rows[k]))
    {
      wins := wins + [YesNo(MembershipFlag(df.columns, df.rows[i]))];
      i := i + 1;
    }
    col := Some(wins);
  }

  /** "Membership" in lower case. */
  lemma LowerMembership()
    ensures Text.Lower("Membership") == "membership"
  {
  }

  /** Where the table has Items_Sold, every job the membership win rate
      counts is flagged Yes in the details table; the flags can say Yes more
      often, since a row without items falls back to its service category. */
  lemma FlagsCoverMembershipWins(df: Table)
    requires "Items_Sold" in df.columns
    requires MembershipWins(df).Some?
    ensures MembershipWins(df).value <= Count(MembershipFlags(df).value, (b: bool) => b)
  {
    LowerMembership();
    var col := Column(df, "Items_Sold");
    var flags := MembershipFlags(df).value;
    var says := (v: Value) => Mentions(v, "Membership");
    var yes := (b: bool) => b;
    forall i | 0 <= i < |col| ensures says(col[i]) ==> yes(flags[i]) {
      if says(col[i]) {
        assert col[i] == Cell(df.columns, df.rows[i], "Items_Sold");
        assert SaysMembership(col[i]);
      }
    }
    CountImplied(col, says, flags, yes);
  }

  // ---------------------------------------------------------------------
  // Efficiency column
  // ---------------------------------------------------------------------

  /** How format_efficiency renders one value: a percentage (shown with no
      decimals), a non-finite double ("nan", "inf" or "-inf", shown with a
      '%' after it), the text of a value it could not read, or a
      timestamp. */
  datatype Rendered =
    | Percent(x: real)
    | NonFinitePercent(w: string)
    | Verbatim(s: string)
    | TimestampText(t: int)

  /** format_efficiency: NaN and text that is empty once '%' and the
      surrounding whitespace are gone render as 0%; other text renders as
      the double float() reads it as, or as itself when float() refuses
      it; numbers render as themselves and timestamps as their str(). The
      guard against the text "nan" in the except branch never fires, as
      float() reads that text. */
  function FormatEfficiency(v: Value): (r: Rendered)
    ensures v.Missing? ==> r == Percent(0.0)
    ensures v.Date? ==> r == TimestampText(v.t)
    ensures Efficiency(v).Some? ==> r == Percent(Efficiency(v).value)
    ensures NonFinite(v).Some? ==> r == NonFinitePercent(NonFinite(v).value)
    ensures v.Str? && Efficiency(v).None? && NonFinite(v).None? ==> r == Percent(0.0) || r == Verbatim(v.s)
    ensures r.Verbatim? ==> v.Str? && r.s == v.s && Efficiency(v).None? && NonFinite(v).None?
  {
    match v
    case Missing => Percent(0.0)
    case Num(x) => Percent(x)
    case Date(t) => TimestampText(t)
    case Str(s) =>
      var clean := Text.Strip(Text.RemoveAll(s, '%'));
      if clean == [] then Percent(0.0)
      else
        match Text.ParseNum(clean)
        case Some(x) => Percent(x)
        case None =>
          match Text.NonFiniteWord(clean)
          case Some(w) => NonFinitePercent(w)
          case None => Verbatim(s)
  }

  /** A percentage other than 0% in the details table is a value the
      efficiency calculators read, and read as that percentage. */
  lemma RenderedPercentIsRead(v: Value)
    requires FormatEfficiency(v).Percent? && FormatEfficiency(v).x != 0.0
    ensures Efficiency(v) == Some(FormatEfficiency(v).x)
  {
  }

  /** Blank text and text of nothing but percent signs render as 0%. */
  lemma BlankRendersZero(s: string)
    requires forall k :: 0 <= k < |s| ==> s[k] == '%' || s[k] == ' '
    ensures FormatEfficiency(Str(s)) == Percent(0.0)
  {
    var cut := Text.RemoveAll(s, '%');
    assert Text.AllSpace(cut) by {
      forall k | 0 <= k < |cut| ensures Text.IsSpace(cut[k]) {
        assert cut[k] in cut;
      }
    }
    AllSpaceStripsEmpty(cut);
  }

  /** Text of whitespace only strips to nothing. */
  lemma AllSpaceStripsEmpty(s: string)
    requires Text.AllSpace(s)
    ensures Text.Strip(s) == []
  {
  }
}

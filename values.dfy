/** A DataFrame cell, with the comparisons and numeric reductions pandas
    applies to a column of them. */
module Values {
  import opened Wrappers
  import Text
  import opened Seqs

  /** One cell as read from a spreadsheet: text, a number (int and float
      alike), a timestamp (seconds since the epoch), or NaN/None. */
  datatype Value = Str(s: string) | Num(x: real) | Date(t: int) | Missing

  function Kind(v: Value): nat {
    match v
    case Str(_) => 0
    case Num(_) => 1
    case Date(_) => 2
    case Missing => 3
  }

  /** Python's < between two values of the same kind. Values of different
      kinds are ordered by kind; Python refuses to compare them (TypeError),
      so this part is used only once that case is ruled out. */
  predicate Less(a: Value, b: Value) {
    match (a, b)
    case (Str(x), Str(y)) => Text.StrLess(x, y)
    case (Num(x), Num(y)) => x < y
    case (Date(x), Date(y)) => x < y
    case _ => Kind(a) < Kind(b)
  }

  lemma LessIrreflexive(a: Value)
    ensures !Less(a, a)
  {
    if a.Str? { Text.StrLessIrreflexive(a.s); }
  }

  lemma LessTransitive(a: Value, b: Value, c: Value)
    requires Less(a, b) && Less(b, c)
    ensures Less(a, c)
  {
    if a.Str? && b.Str? && c.Str? { Text.StrLessTransitive(a.s, b.s, c.s); }
  }

  lemma LessTotal(a: Value, b: Value)
    ensures a == b || Less(a, b) || Less(b, a)
  {
    if a.Str? && b.Str? { Text.StrLessTotal(a.s, b.s); }
  }

  predicate StrictlySorted(s: seq<Value>) {
    forall i, j :: 0 <= i < j < |s| ==> Less(s[i], s[j])
  }

  lemma SortedCons(y: Value, s: seq<Value>)
    requires StrictlySorted(s)
    requires forall z :: z in s ==> Less(y, z)
    ensures StrictlySorted([y] + s)
  {
    var r := [y] + s;
    forall i, j | 0 <= i < j < |r| ensures Less(r[i], r[j]) {
      if i == 0 { assert r[j] == s[j - 1] && s[j - 1] in s; }
    }
  }

  /** Places x among the strictly increasing values of s. */
  function Insert(x: Value, s: seq<Value>): (r: seq<Value>)
    requires StrictlySorted(s) && x !in s
    ensures StrictlySorted(r)
    ensures multiset(r) == multiset(s) + multiset{x}
  {
    if s == [] then [x]
    else if Less(x, s[0]) then
      assert forall z :: z in s ==> Less(x, z) by {
        forall z | z in s ensures Less(x, z) {
          var k :| 0 <= k < |s| && s[k] == z;
          if k > 0 { LessTransitive(x, s[0], z); }
        }
      }
      SortedCons(x, s);
      [x] + s
    else
      var rest := Insert(x, s[1..]);
      InsertAfterHead(x, s, rest);
      [s[0]] + rest
  }

  /** Where x goes after the head of s, the head stays in front of x placed
      among the rest. */
  lemma InsertAfterHead(x: Value, s: seq<Value>, rest: seq<Value>)
    requires StrictlySorted(s) && s != [] && !Less(x, s[0]) && x !in s
    requires StrictlySorted(rest) && multiset(rest) == multiset(s[1..]) + multiset{x}
    ensures StrictlySorted([s[0]] + rest)
    ensures multiset([s[0]] + rest) == multiset(s) + multiset{x}
  {
    LessTotal(x, s[0]);
    assert forall z :: z in rest ==> Less(s[0], z) by {
      forall z | z in rest ensures Less(s[0], z) {
        assert z in multiset(rest);
        if z != x {
          var k :| 0 <= k < |s[1..]| && s[1..][k] == z;
          assert s[k + 1] == z;
        }
      }
    }
    SortedCons(s[0], rest);
    assert s == [s[0]] + s[1..];
  }

  /** Python's sorted() on pairwise distinct values. */
  function Sort(s: seq<Value>): (r: seq<Value>)
    requires NoDuplicates(s)
    ensures StrictlySorted(r)
    ensures multiset(r) == multiset(s)
  {
    if s == [] then []
    else
      assert NoDuplicates(s[1..]) by {
        forall i, j | 0 <= i < j < |s[1..]| ensures s[1..][i] != s[1..][j] {
          assert s[1..][i] == s[i + 1] && s[1..][j] == s[j + 1];
        }
      }
      var rest := Sort(s[1..]);
      SortHead(s, rest);
      Insert(s[0], rest)
  }

  /** The head of a sequence without repetitions is not among the rest,
      whatever order the rest is put in. */
  lemma SortHead(s: seq<Value>, rest: seq<Value>)
    requires NoDuplicates(s) && s != [] && multiset(rest) == multiset(s[1..])
    ensures s[0] !in rest
    ensures multiset(rest) + multiset{s[0]} == multiset(s)
  {
    forall k | 0 <= k < |s[1..]| ensures s[1..][k] != s[0] {
      assert s[1..][k] == s[k + 1];
    }
    assert s[0] !in multiset(rest);
    assert s == [s[0]] + s[1..];
  }

  /** Whether a sequence of values holds values of two kinds, which Python's
      sorted() cannot compare. */
  predicate MixedKinds(s: seq<Value>) {
    exists i, j :: 0 <= i < j < |s| && Kind(s[i]) != Kind(s[j])
  }

  function NonMissing(vs: seq<Value>): (r: seq<Value>)
    ensures forall v :: v in r <==> v in vs && v != Missing
  {
    Filter(vs, (v: Value) => v != Missing)
  }

  /** sorted(column.dropna().unique()), and the grouping keys of
      `groupby(column)`: the distinct present values in increasing order, or
      None when two of them cannot be compared (TypeError). */
  function SortedDistinct(vs: seq<Value>): (r: Option<seq<Value>>)
    ensures r.Some? <==> !MixedKinds(Distinct(NonMissing(vs)))
    ensures r.Some? ==> StrictlySorted(r.value) && NoDuplicates(r.value)
    ensures r.Some? ==> forall v :: v in r.value <==> v in vs && v != Missing
  {
    var d := Distinct(NonMissing(vs));
    if MixedKinds(d) then None
    else
      var s := Sort(d);
      assert forall v :: v in s <==> v in d by {
        forall v ensures v in s <==> v in d {
          assert v in s <==> v in multiset(s);
        }
      }
      assert NoDuplicates(s) by {
        forall i, j | 0 <= i < j < |s| ensures s[i] != s[j] {
          LessIrreflexive(s[i]);
        }
      }
      Some(s)
  }

  /** Strictly increasing values are pairwise distinct. */
  lemma SortedNoDuplicates(s: seq<Value>)
    requires StrictlySorted(s)
    ensures NoDuplicates(s)
  {
    forall i, j | 0 <= i < j < |s| ensures s[i] != s[j] {
      LessIrreflexive(s[i]);
    }
  }

  /** The order pandas' safe_sort falls back to when Python cannot compare
      all the keys: numbers and timestamps before text, each part
      increasing. */
  predicate GroupBefore(a: Value, b: Value) {
    if a.Str? == b.Str? then Less(a, b) else b.Str?
  }

  predicate GroupOrdered(s: seq<Value>) {
    forall i, j :: 0 <= i < j < |s| ==> GroupBefore(s[i], s[j])
  }

  function NotText(v: Value): bool { !v.Str? }

  function IsText(v: Value): bool { v.Str? }

  /** Python's sorted() keeps exactly the values it is given. */
  lemma SortMembers(s: seq<Value>)
    requires NoDuplicates(s)
    ensures forall v :: v in Sort(s) <==> v in s
    ensures NoDuplicates(Sort(s))
  {
    var r := Sort(s);
    forall v ensures v in r <==> v in s { assert v in r <==> v in multiset(r); }
    SortedNoDuplicates(r);
  }

  /** Sorted non-text values followed by sorted text are in safe_sort's
      fallback order, and repeat nothing. */
  lemma {:induction false} GroupOrderedConcat(a: seq<Value>, b: seq<Value>)
    requires StrictlySorted(a) && StrictlySorted(b)
    requires forall v :: v in a ==> !v.Str?
    requires forall v :: v in b ==> v.Str?
    ensures GroupOrdered(a + b) && NoDuplicates(a + b)
  {
    var r := a + b;
    forall i, j | 0 <= i < j < |r| ensures GroupBefore(r[i], r[j]) && r[i] != r[j] {
      if j < |a| {
        assert r[i] == a[i] && r[j] == a[j] && a[i] in a && a[j] in a;
        LessIrreflexive(a[i]);
      } else if i >= |a| {
        assert r[i] == b[i - |a|] && r[j] == b[j - |a|] && b[i - |a|] in b && b[j - |a|] in b;
        LessIrreflexive(r[i]);
      } else {
        assert r[i] == a[i] && r[j] == b[j - |a|] && a[i] in a && b[j - |a|] in b;
      }
    }
  }

  /** The keys of `groupby(column)` (sort=True, NaN dropped): the distinct
      present values in the order safe_sort gives them. Sorting them all
      raises as soon as text meets a number or a timestamp, and safe_sort
      then sorts the non-text values and the text apart and puts the text
      last; only a number meeting a timestamp still raises (None). Where
      the values are of one kind this is plain sorted order. */
  function GroupKeys(vs: seq<Value>): (r: Option<seq<Value>>)
    ensures r.None? <==> (exists v :: v in vs && v.Num?) && (exists v :: v in vs && v.Date?)
    ensures r.Some? ==> NoDuplicates(r.value) && GroupOrdered(r.value)
    ensures r.Some? ==> forall v :: v in r.value <==> v in vs && v != Missing
  {
    if (exists v :: v in vs && v.Num?) && (exists v :: v in vs && v.Date?) then None
    else
      var d := Distinct(NonMissing(vs));
      var others, texts := Filter(d, NotText), Filter(d, IsText);
      FilterNoDuplicates(d, NotText);
      FilterNoDuplicates(d, IsText);
      SortMembers(others);
      SortMembers(texts);
      GroupOrderedConcat(Sort(others), Sort(texts));
      Some(Sort(others) + Sort(texts))
  }

  /** Where the present keys are all of one kind, safe_sort's order is
      plain sorted order: the groupby keys are sorted(column.dropna().unique()). */
  lemma GroupKeysOneKind(vs: seq<Value>)
    requires !MixedKinds(Distinct(NonMissing(vs)))
    ensures GroupKeys(vs) == SortedDistinct(vs)
  {
    var d := Distinct(NonMissing(vs));
    FilterNoDuplicates(d, NotText);
    FilterNoDuplicates(d, IsText);
    OneKindNotNumAndDate(vs);
    assert GroupKeys(vs) == Some(Sort(Filter(d, NotText)) + Sort(Filter(d, IsText)));
    if d != [] && d[0].Str? {
      OneKindSides(d);
      SplitAllText(d);
    } else {
      if d != [] { OneKindSides(d); }
      SplitNoText(d);
    }
  }

  /** Text alone sorts the same whether sorted whole or split at the text
      divide and sorted apart. */
  lemma SplitAllText(d: seq<Value>)
    requires NoDuplicates(d)
    requires forall i :: 0 <= i < |d| ==> IsText(d[i])
    ensures NoDuplicates(Filter(d, NotText)) && NoDuplicates(Filter(d, IsText))
    ensures Sort(Filter(d, NotText)) + Sort(Filter(d, IsText)) == Sort(d)
  {
    FilterNoDuplicates(d, NotText);
    FilterNoDuplicates(d, IsText);
    FilterNone(d, NotText);
    FilterAll(d, IsText);
    var a := Sort(Filter(d, NotText));
    assert a == [] by { assert multiset(a) == multiset{}; }
  }

  /** So do values none of which is text. */
  lemma SplitNoText(d: seq<Value>)
    requires NoDuplicates(d)
    requires forall i :: 0 <= i < |d| ==> NotText(d[i])
    ensures NoDuplicates(Filter(d, NotText)) && NoDuplicates(Filter(d, IsText))
    ensures Sort(Filter(d, NotText)) + Sort(Filter(d, IsText)) == Sort(d)
  {
    FilterNoDuplicates(d, NotText);
    FilterNoDuplicates(d, IsText);
    FilterAll(d, NotText);
    FilterNone(d, IsText);
    var b := Sort(Filter(d, IsText));
    assert b == [] by { assert multiset(b) == multiset{}; }
  }

  /** Values of one kind are all text or all not text. */
  lemma OneKindSides(d: seq<Value>)
    requires d != [] && !MixedKinds(d)
    ensures d[0].Str? ==> forall i :: 0 <= i < |d| ==> IsText(d[i])
    ensures !d[0].Str? ==> forall i :: 0 <= i < |d| ==> NotText(d[i])
  {
    forall i | 0 < i < |d| ensures Kind(d[0]) == Kind(d[i]) {
    }
  }

  /** An email and a number group without error, the number first, where
      sorted() raises. */
  lemma NumberBeforeText(e: string, x: real)
    ensures SortedDistinct([Str(e), Num(x)]).None?
    ensures GroupKeys([Str(e), Num(x)]) == Some([Num(x), Str(e)])
  {
    var vs := [Str(e), Num(x)];
    var d := Distinct(NonMissing(vs));
    assert Str(e) in d && Num(x) in d by {
      assert Str(e) in vs && Num(x) in vs;
    }
    KindsDiffer(d, Str(e), Num(x));
    var r := GroupKeys(vs);
    assert r.Some? by {
      assert forall v :: v in vs ==> !v.Date?;
    }
    OneBeforeOther(r.value, Num(x), Str(e));
  }

  /** Two present values of different kinds make a list mixed. */
  lemma KindsDiffer(d: seq<Value>, x: Value, y: Value)
    requires x in d && y in d && Kind(x) != Kind(y)
    ensures MixedKinds(d)
  {
    var i :| 0 <= i < |d| && d[i] == x;
    var j :| 0 <= j < |d| && d[j] == y;
    if j < i {
      assert Kind(d[j]) != Kind(d[i]);
    } else {
      assert Kind(d[i]) != Kind(d[j]);
    }
  }

  /** A duplicate-free list in safe_sort's order made of a non-text value
      and a text value is those two, the non-text one first. */
  lemma OneBeforeOther(r: seq<Value>, x: Value, y: Value)
    requires (x.Num? || x.Date?) && y.Str?
    requires NoDuplicates(r) && GroupOrdered(r)
    requires forall v :: v in r <==> v in [y, x] && v != Missing
    ensures r == [x, y]
  {
    assert x in r && y in r;
    var i :| 0 <= i < |r| && r[i] == x;
    var j :| 0 <= j < |r| && r[j] == y;
    assert i < j by {
      if j < i { assert false; }
    }
    if |r| > 2 {
      ElementIn(r, 0);
      ElementIn(r, 1);
      ElementIn(r, 2);
      assert false;
    }
    assert i == 0 && j == 1;
  }

  /** Keys of one kind are never a number and a timestamp. */
  lemma OneKindNotNumAndDate(vs: seq<Value>)
    requires !MixedKinds(Distinct(NonMissing(vs)))
    ensures !((exists v :: v in vs && v.Num?) && (exists v :: v in vs && v.Date?))
  {
  }

  /** The test `x == v`, as a function value. */
  function EqualTo(v: Value): Value -> bool {
    (x: Value) => x == v
  }

  /** The test `x > t` on a column: only numbers pass (NaN compares false). */
  function Exceeds(t: real): Value -> bool {
    (x: Value) => x.Num? && x.x > t
  }

  /** pandas can add and compare the column: it holds no text and no dates. */
  predicate Numeric(vs: seq<Value>) {
    forall i :: 0 <= i < |vs| ==> vs[i].Num? || vs[i].Missing?
  }

  /** The numbers of a column, in order, NaN skipped. */
  function Nums(vs: seq<Value>): (xs: seq<real>)
    ensures |xs| <= |vs|
    ensures forall x :: x in xs <==> Num(x) in vs
  {
    if vs == [] then []
    else
      var rest := Nums(vs[..|vs| - 1]);
      assert forall v :: v in vs <==> v in vs[..|vs| - 1] || v == vs[|vs| - 1];
      match vs[|vs| - 1]
      case Num(x) => rest + [x]
      case _ => rest
  }

  function Sum(xs: seq<real>): real {
    if xs == [] then 0.0 else Sum(xs[..|xs| - 1]) + xs[|xs| - 1]
  }

  function Mean(xs: seq<real>): real
    requires |xs| > 0
  {
    Sum(xs) / |xs| as real
  }

  lemma {:induction false} SumBounds(xs: seq<real>, lo: real, hi: real)
    requires forall i :: 0 <= i < |xs| ==> lo <= xs[i] <= hi
    ensures lo * |xs| as real <= Sum(xs) <= hi * |xs| as real
  {
    if xs != [] {
      SumBounds(xs[..|xs| - 1], lo, hi);
    }
  }

  /** A mean lies between the least and the greatest value averaged. */
  lemma MeanBounds(xs: seq<real>, lo: real, hi: real)
    requires |xs| > 0
    requires forall x :: x in xs ==> lo <= x <= hi
    ensures lo <= Mean(xs) <= hi
  {
    assert forall i :: 0 <= i < |xs| ==> xs[i] in xs;
    SumBounds(xs, lo, hi);
    QuotientBounds(Sum(xs), |xs| as real, lo, hi);
  }

  /** A quotient by a positive n of something between lo * n and hi * n
      lies between lo and hi. */
  lemma QuotientBounds(s: real, n: real, lo: real, hi: real)
    requires n > 0.0 && lo * n <= s <= hi * n
    ensures lo <= s / n <= hi
  {
    var q := s / n;
    assert q * n == s;
    assert (q - lo) * n == s - lo * n;
    assert (hi - q) * n == hi * n - s;
    NonNegativeFactor(q - lo, n);
    NonNegativeFactor(hi - q, n);
  }

  /** A non-negative product with a positive factor has a non-negative
      other factor. */
  lemma NonNegativeFactor(a: real, n: real)
    requires n > 0.0 && a * n >= 0.0
    ensures a >= 0.0
  {
  }

  /** Series.sum(): NaN skipped, 0 for no numbers; None where pandas raises
      TypeError on text or dates among the values. */
  function PandasSum(vs: seq<Value>): (r: Option<real>)
    ensures r.Some? <==> Numeric(vs)
  {
    if Numeric(vs) then Some(Sum(Nums(vs))) else None
  }

  /** Series.mean() of a numeric column: None stands for the NaN it gives
      when no number is present. */
  function PandasMean(vs: seq<Value>): (r: Option<real>)
    ensures r.Some? <==> |Nums(vs)| > 0
  {
    var xs := Nums(vs);
    if |xs| > 0 then Some(Mean(xs)) else None
  }
}

/** Generic sequence operations behind the pandas calls the dashboard makes:
    boolean-mask selection (`df[mask]`), counting (`.shape[0]`) and
    `Series.unique()`. */
module Seqs {
  import opened Wrappers

  /** The elements of s that satisfy p, in their original order. */
  function Filter<T(!new)>(s: seq<T>, p: T -> bool): (r: seq<T>)
    ensures |r| <= |s|
    ensures forall x :: x in r <==> x in s && p(x)
    ensures forall x :: multiset(r)[x] == if p(x) then multiset(s)[x] else 0
  {
    if s == [] then []
    else
      var rest := Filter(s[..|s| - 1], p);
      assert s == s[..|s| - 1] + [s[|s| - 1]];
      if p(s[|s| - 1]) then rest + [s[|s| - 1]] else rest
  }

  /** Filtering s followed by x is filtering s, then deciding x. */
  lemma FilterSnoc<T(!new)>(s: seq<T>, x: T, p: T -> bool)
    ensures Filter(s + [x], p) == Filter(s, p) + (if p(x) then [x] else [])
  {
    assert (s + [x])[..|s|] == s;
  }

  /** Selecting with a test every element passes keeps the sequence. */
  lemma {:induction false} FilterAll<T(!new)>(s: seq<T>, p: T -> bool)
    requires forall i :: 0 <= i < |s| ==> p(s[i])
    ensures Filter(s, p) == s
  {
    if s != [] {
      var init, last := s[..|s| - 1], s[|s| - 1];
      assert s == init + [last];
      calc {
        Filter(init + [last], p);
        { FilterSnoc(init, last, p); }
        Filter(init, p) + [last];
        { FilterAll(init, p); }
        init + [last];
      }
    }
  }

  /** Selecting with a test no element passes keeps nothing. */
  lemma {:induction false} FilterNone<T(!new)>(s: seq<T>, p: T -> bool)
    requires forall i :: 0 <= i < |s| ==> !p(s[i])
    ensures Filter(s, p) == []
  {
    if s != [] {
      var init, last := s[..|s| - 1], s[|s| - 1];
      FilterNone(init, p);
      FilterSnoc(init, last, p);
      assert s == init + [last];
    }
  }

  /** Filtering keeps a sequence free of repetitions. */
  lemma {:induction false} FilterNoDuplicates<T(!new)>(s: seq<T>, p: T -> bool)
    requires NoDuplicates(s)
    ensures NoDuplicates(Filter(s, p))
  {
    if s != [] {
      var init := s[..|s| - 1];
      FilterNoDuplicates(init, p);
      assert s[|s| - 1] !in init;
    }
  }

  /** How many elements of s satisfy p. */
  function Count<T>(s: seq<T>, p: T -> bool): (n: nat)
    ensures n <= |s|
  {
    if s == [] then 0
    else Count(s[..|s| - 1], p) + (if p(s[|s| - 1]) then 1 else 0)
  }

  /** Counting the elements of a filtered sequence is counting the
      elements that satisfy both tests. */
  lemma {:induction false} CountFilter<T(!new)>(s: seq<T>, p: T -> bool, q: T -> bool)
    ensures Count(Filter(s, p), q) == Count(s, x => p(x) && q(x))
  {
    if s != [] {
      CountFilter(s[..|s| - 1], p, q);
      var rest := Filter(s[..|s| - 1], p);
      if p(s[|s| - 1]) {
        assert (rest + [s[|s| - 1]])[..|rest|] == rest;
      }
    }
  }

  /** A filtered sequence is as long as the count of what it keeps. */
  lemma {:induction false} FilterSize<T(!new)>(s: seq<T>, p: T -> bool)
    ensures |Filter(s, p)| == Count(s, p)
  {
    if s != [] { FilterSize(s[..|s| - 1], p); }
  }

  /** Two sequences whose elements pass their tests at the same positions
      have the same count. */
  lemma {:induction false} CountAlike<A, B>(s: seq<A>, p: A -> bool, t: seq<B>, q: B -> bool)
    requires |s| == |t|
    requires forall i :: 0 <= i < |s| ==> p(s[i]) == q(t[i])
    ensures Count(s, p) == Count(t, q)
  {
    if s != [] {
      var n := |s|;
      assert forall i :: 0 <= i < n - 1 ==> s[..n - 1][i] == s[i] && t[..n - 1][i] == t[i];
      CountAlike(s[..n - 1], p, t[..n - 1], q);
    }
  }

  /** Where a test on s implies a test on t position by position, it holds
      at most as often. */
  lemma {:induction false} CountImplied<A, B>(s: seq<A>, p: A -> bool, t: seq<B>, q: B -> bool)
    requires |s| == |t|
    requires forall i :: 0 <= i < |s| && p(s[i]) ==> q(t[i])
    ensures Count(s, p) <= Count(t, q)
  {
    if s != [] {
      var n := |s|;
      assert forall i :: 0 <= i < n - 1 ==> s[..n - 1][i] == s[i] && t[..n - 1][i] == t[i];
      CountImplied(s[..n - 1], p, t[..n - 1], q);
    }
  }

  /** All of s is counted exactly when every element passes. */
  lemma {:induction false} CountAll<T>(s: seq<T>, p: T -> bool)
    ensures Count(s, p) == |s| <==> forall i :: 0 <= i < |s| ==> p(s[i])
  {
    if s != [] {
      var init := s[..|s| - 1];
      CountAll(init, p);
      assert forall i :: 0 <= i < |init| ==> init[i] == s[i];
    }
  }

  /** Nothing of s is counted exactly when no element passes. */
  lemma {:induction false} CountNone<T>(s: seq<T>, p: T -> bool)
    ensures Count(s, p) == 0 <==> forall i :: 0 <= i < |s| ==> !p(s[i])
  {
    if s != [] {
      var init := s[..|s| - 1];
      CountNone(init, p);
      assert forall i :: 0 <= i < |init| ==> init[i] == s[i];
    }
  }

  /** Counting one more element of s adds one exactly when it passes. */
  lemma CountStep<T>(s: seq<T>, p: T -> bool, i: nat)
    requires i < |s|
    ensures Count(s[..i + 1], p) == Count(s[..i], p) + (if p(s[i]) then 1 else 0)
  {
    assert s[..i + 1][..i] == s[..i];
  }

  /** Counting in a two-element sequence. */
  lemma CountPair<T>(a: T, b: T, p: T -> bool)
    ensures Count([a, b], p) == (if p(a) then 1 else 0) + (if p(b) then 1 else 0)
  {
    assert [a, b][..1] == [a];
  }

  /** Counting over a concatenation adds the counts of its parts. */
  lemma {:induction false} CountConcat<T>(s: seq<T>, t: seq<T>, p: T -> bool)
    ensures Count(s + t, p) == Count(s, p) + Count(t, p)
  {
    if t == [] {
      assert s + t == s;
    } else {
      CountConcat(s, t[..|t| - 1], p);
      assert (s + t)[..|s + t| - 1] == s + t[..|t| - 1];
    }
  }

  /** Counting with p is at most counting with anything weaker than p. */
  lemma {:induction false} CountMonotone<T>(s: seq<T>, p: T -> bool, q: T -> bool)
    requires forall x :: p(x) ==> q(x)
    ensures Count(s, p) <= Count(s, q)
  {
    if s != [] { CountMonotone(s[..|s| - 1], p, q); }
  }

  /** Counting p-or-q is at most counting p plus counting q. */
  lemma {:induction false} CountUnion<T>(s: seq<T>, p: T -> bool, q: T -> bool)
    ensures Count(s, x => p(x) || q(x)) <= Count(s, p) + Count(s, q)
  {
    if s != [] { CountUnion(s[..|s| - 1], p, q); }
  }

  /** Each element of a sequence is in it. */
  lemma ElementIn<T>(s: seq<T>, k: nat)
    requires k < |s|
    ensures s[k] in s
  {
  }

  predicate NoDuplicates<T(==)>(s: seq<T>) {
    forall i, j :: 0 <= i < j < |s| ==> s[i] != s[j]
  }

  /** Series.unique(): every element once, kept at its first appearance. */
  function Distinct<T(==,!new)>(s: seq<T>): (r: seq<T>)
    ensures NoDuplicates(r)
    ensures forall x :: x in r <==> x in s
    ensures |r| <= |s|
  {
    if s == [] then []
    else
      var d := Distinct(s[..|s| - 1]);
      var x := s[|s| - 1];
      assert forall y :: y in s <==> y in s[..|s| - 1] || y == x;
      if x in d then d else d + [x]
  }

  /** First-appearance order: the distinct elements of any prefix of s come,
      in the same order, at the front of the distinct elements of s. */
  lemma {:induction false} DistinctPrefix<T(!new)>(s: seq<T>, k: nat)
    requires k <= |s|
    ensures Distinct(s[..k]) <= Distinct(s)
    decreases |s| - k
  {
    if k < |s| {
      DistinctPrefix(s[..|s| - 1], k);
      assert s[..|s| - 1][..k] == s[..k];
    } else {
      assert s[..k] == s;
    }
  }

  /** unique() on a sequence without repetitions gives it back unchanged. */
  lemma {:induction false} DistinctOfDistinct<T(!new)>(s: seq<T>)
    requires NoDuplicates(s)
    ensures Distinct(s) == s
  {
    if s != [] {
      DistinctOfDistinct(s[..|s| - 1]);
      assert s[|s| - 1] !in s[..|s| - 1];
    }
  }

  /** f applied to every element, or None as soon as one application
      fails (the first exception ends the whole computation). */
  function MapAll<A, B>(xs: seq<A>, f: A -> Option<B>): (r: Option<seq<B>>)
    ensures r.Some? <==> forall i :: 0 <= i < |xs| ==> f(xs[i]).Some?
    ensures r.Some? ==> |r.value| == |xs| && forall i :: 0 <= i < |xs| ==> f(xs[i]) == Some(r.value[i])
  {
    if xs == [] then Some([])
    else
      var init := xs[..|xs| - 1];
      assert forall i :: 0 <= i < |init| ==> init[i] == xs[i];
      match MapAll(init, f)
      case None => None
      case Some(ys) =>
        match f(xs[|xs| - 1])
        case None => None
        case Some(y) => Some(ys + [y])
  }

  /** The concatenation of the blocks of bs, in order. */
  function Flatten<T>(bs: seq<seq<T>>): seq<T> {
    if bs == [] then [] else Flatten(bs[..|bs| - 1]) + bs[|bs| - 1]
  }

  /** Non-empty blocks flatten to at least one element per block. */
  lemma {:induction false} FlattenNonEmpty<T>(bs: seq<seq<T>>)
    requires forall i :: 0 <= i < |bs| ==> |bs[i]| >= 1
    ensures |Flatten(bs)| >= |bs|
  {
    if bs != [] { FlattenNonEmpty(bs[..|bs| - 1]); }
  }

  /** Singleton blocks flatten to their elements, one for one. */
  lemma {:induction false} FlattenSingletons<T>(bs: seq<seq<T>>)
    requires forall i :: 0 <= i < |bs| ==> |bs[i]| == 1
    ensures |Flatten(bs)| == |bs|
    ensures forall i :: 0 <= i < |bs| ==> Flatten(bs)[i] == bs[i][0]
  {
    if bs != [] { FlattenSingletons(bs[..|bs| - 1]); }
  }

  /** Block i of bs starts at the combined length of the blocks before it. */
  lemma {:induction false} FlattenBlockStart<T>(bs: seq<seq<T>>, i: nat)
    requires i < |bs| && |bs[i]| >= 1
    ensures |Flatten(bs[..i])| < |Flatten(bs)|
    ensures Flatten(bs)[|Flatten(bs[..i])|] == bs[i][0]
  {
    if i < |bs| - 1 {
      FlattenBlockStart(bs[..|bs| - 1], i);
      assert bs[..|bs| - 1][..i] == bs[..i];
    } else {
      assert bs[..|bs| - 1] == bs[..i];
    }
  }
}

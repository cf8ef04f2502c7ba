/** String primitives that the dashboard borrows from Python: str.strip(),
    str.replace(c, ''), str.lower(), substring search, float() on decimal
    text, and ', '.join(...). */
module Text {
  import opened Wrappers
  import Seqs

  /** Python's str.isspace(): the ASCII controls \t..\r and \x1c..\x1f,
      the space, and the Unicode space separators. */
  predicate IsSpace(c: char) {
    || c == ' '
    || ('\t' <= c <= '\r')
    || ('\U{1c}' <= c <= '\U{1f}')
    || c == '\U{85}' || c == '\U{a0}' || c == '\U{1680}'
    || ('\U{2000}' <= c <= '\U{200a}')
    || c == '\U{2028}' || c == '\U{2029}' || c == '\U{202f}' || c == '\U{205f}' || c == '\U{3000}'
  }

  predicate AllSpace(s: string) {
    forall k :: 0 <= k < |s| ==> IsSpace(s[k])
  }

  /** The number of whitespace characters that s starts with. */
  function LeadingSpace(s: string): (i: nat)
    ensures i <= |s| && AllSpace(s[..i])
    ensures i < |s| ==> !IsSpace(s[i])
  {
    if s != [] && IsSpace(s[0]) then
      var i := 1 + LeadingSpace(s[1..]);
      assert s[..i] == [s[0]] + s[1..][..i - 1];
      i
    else 0
  }

  /** The end of s[lo..] once its trailing whitespace is cut off. */
  function TrailingCut(s: string, lo: nat): (j: nat)
    requires lo <= |s|
    ensures lo <= j <= |s| && AllSpace(s[j..])
    ensures lo < j ==> !IsSpace(s[j - 1])
    decreases |s|
  {
    if lo < |s| && IsSpace(s[|s| - 1]) then
      var j := TrailingCut(s[..|s| - 1], lo);
      assert s[j..] == s[..|s| - 1][j..] + [s[|s| - 1]];
      j
    else |s|
  }

  /** str.strip(): a slice of s that neither starts nor ends with
      whitespace, everything cut off on either side being whitespace. */
  function Strip(s: string): (r: string)
    ensures r == [] || (!IsSpace(r[0]) && !IsSpace(r[|r| - 1]))
    ensures exists i :: 0 <= i <= |s| - |r| && r == s[i..i + |r|] && AllSpace(s[..i]) && AllSpace(s[i + |r|..])
  {
    var i := LeadingSpace(s);
    var j := TrailingCut(s, i);
    var r := s[i..j];
    assert i < j ==> r[0] == s[i] && r[|r| - 1] == s[j - 1];
    assert i + |r| == j && r == s[i..i + |r|];
    r
  }

  /** Text that neither starts nor ends with whitespace is its own strip. */
  lemma StripUnpadded(s: string)
    requires s == [] || (!IsSpace(s[0]) && !IsSpace(s[|s| - 1]))
    ensures Strip(s) == s
  {
  }

  /** str.replace(c, ''): every occurrence of c removed, the rest kept. */
  function RemoveAll(s: string, c: char): (r: string)
    ensures c !in r
    ensures forall x :: x in r <==> x in s && x != c
    ensures c !in s ==> r == s
  {
    if s == [] then []
    else (if s[0] == c then [] else [s[0]]) + RemoveAll(s[1..], c)
  }

  /** Appending a character to s appends it to s with c removed, unless it
      is c. */
  lemma {:induction false} RemoveAllSnoc(s: string, x: char, c: char)
    ensures RemoveAll(s + [x], c) == RemoveAll(s, c) + (if x == c then [] else [x])
  {
    var tail := if x == c then [] else [x];
    if s != [] {
      var head := if s[0] == c then [] else [s[0]];
      assert (s + [x])[0] == s[0] && (s + [x])[1..] == s[1..] + [x];
      calc {
        RemoveAll(s + [x], c);
        head + RemoveAll(s[1..] + [x], c);
        { RemoveAllSnoc(s[1..], x, c); }
        head + (RemoveAll(s[1..], c) + tail);
        (head + RemoveAll(s[1..], c)) + tail;
        RemoveAll(s, c) + tail;
      }
    } else {
      assert s + [x] == [x];
    }
  }

  /** The test `x != c`, as a function value. */
  function Other(c: char): char -> bool {
    (x: char) => x != c
  }

  /** str.replace(c, '') keeps every character other than c, in order and
      as often as it occurs: it is the selection of those characters. */
  lemma {:induction false} RemoveAllKeepsOrder(s: string, c: char)
    ensures RemoveAll(s, c) == Seqs.Filter(s, Other(c))
  {
    if s != [] {
      var init, last := s[..|s| - 1], s[|s| - 1];
      assert s == init + [last];
      var tail := if last == c then [] else [last];
      calc {
        RemoveAll(init + [last], c);
        { RemoveAllSnoc(init, last, c); }
        RemoveAll(init, c) + tail;
        { RemoveAllKeepsOrder(init, c); }
        Seqs.Filter(init, Other(c)) + tail;
        { Seqs.FilterSnoc(init, last, Other(c)); }
        Seqs.Filter(init + [last], Other(c));
      }
    }
  }

  /** ASCII case mapping of str.lower(). */
  function LowerChar(c: char): char {
    if 'A' <= c <= 'Z' then (c as int + 32) as char else c
  }

  function Lower(s: string): (r: string)
    ensures |r| == |s|
    ensures forall i :: 0 <= i < |s| ==> r[i] == LowerChar(s[i])
  {
    seq(|s|, i requires 0 <= i < |s| => LowerChar(s[i]))
  }

  /** Python's `sub in s`: sub occurs in s at some position. */
  predicate Contains(s: string, sub: string) {
    sub <= s || (s != [] && Contains(s[1..], sub))
  }

  /** pandas str.contains(kw, case=False): a case-insensitive substring test. */
  predicate ContainsIgnoringCase(s: string, kw: string) {
    Contains(Lower(s), Lower(kw))
  }

  /** sub occurring from position i on is an occurrence. */
  lemma {:induction false} ContainsAt(s: string, sub: string, i: nat)
    requires i <= |s| && sub <= s[i..]
    ensures Contains(s, sub)
  {
    if i > 0 {
      assert s[1..][i - 1..] == s[i..];
      ContainsAt(s[1..], sub, i - 1);
    }
  }

  /** An exact occurrence is also an occurrence ignoring case. */
  lemma {:induction false} ContainsLower(s: string, sub: string)
    requires Contains(s, sub)
    ensures ContainsIgnoringCase(s, sub)
  {
    if sub <= s {
      assert Lower(sub) == Lower(s)[..|sub|];
    } else {
      ContainsLower(s[1..], sub);
      assert Lower(s)[1..] == Lower(s[1..]);
    }
  }

  predicate IsDigit(c: char) {
    '0' <= c <= '9'
  }

  predicate AllDigits(s: string) {
    forall i :: 0 <= i < |s| ==> IsDigit(s[i])
  }

  /** The value of a string of decimal digits, most significant first. */
  function DigitsValue(s: string): nat
    requires AllDigits(s)
  {
    if s == [] then 0 else DigitsValue(s[..|s| - 1]) * 10 + (s[|s| - 1] as int - '0' as int)
  }

  function Pow10(n: nat): (r: nat)
    ensures r >= 1
  {
    if n == 0 then 1 else 10 * Pow10(n - 1)
  }

  /** Index of the first c in s, or |s| when there is none. */
  function Find(s: string, c: char): (i: nat)
    ensures i <= |s|
    ensures i < |s| ==> s[i] == c
    ensures c !in s[..i]
  {
    if s == [] then 0
    else if s[0] == c then 0
    else
      var i := 1 + Find(s[1..], c);
      assert s[..i] == [s[0]] + s[1..][..i - 1];
      i
  }

  /** An unsigned decimal: digits, optionally a point and more digits, at
      least one digit in all ("7", "7.", ".5", "87.25"). */
  function ParseUnsigned(s: string): Option<real> {
    var p := Find(s, '.');
    var whole := s[..p];
    var frac := if p < |s| then s[p + 1..] else [];
    if AllDigits(whole) && AllDigits(frac) && |whole| + |frac| > 0 then
      Some(DigitsValue(whole) as real + DigitsValue(frac) as real / Pow10(|frac|) as real)
    else
      None
  }

  /** float() on the decimal subset of its grammar: an optional sign and an
      unsigned decimal. Only text holding a digit can parse, and a plain run
      of digits parses as its decimal value. */
  function ParseNum(s: string): (r: Option<real>)
    ensures r.Some? ==> exists i :: 0 <= i < |s| && IsDigit(s[i])
    ensures s != [] && AllDigits(s) ==> r == Some(DigitsValue(s) as real)
  {
    if s != [] && (s[0] == '-' || s[0] == '+') then
      match ParseUnsigned(s[1..])
      case None => None
      case Some(x) => Some(if s[0] == '-' then -x else x)
    else
      assert s != [] && AllDigits(s) ==> Find(s, '.') == |s| && s[..|s|] == s;
      ParseUnsigned(s)
  }

  /** The words float() reads as a non-finite double: "nan", "inf" or
      "infinity" in any case, after an optional sign. The result is how
      the double prints: "nan", "inf" or "-inf". */
  function NonFiniteWord(s: string): (r: Option<string>)
    ensures r.Some? ==> r.value in {"nan", "inf", "-inf"}
    ensures r.Some? ==> !exists i :: 0 <= i < |s| && IsDigit(s[i])
  {
    var signed := s != [] && (s[0] == '+' || s[0] == '-');
    var word := Lower(if signed then s[1..] else s);
    if word == "nan" then
      WordHasNoDigit(s, signed);
      Some("nan")
    else if word == "inf" || word == "infinity" then
      WordHasNoDigit(s, signed);
      Some(if signed && s[0] == '-' then "-inf" else "inf")
    else None
  }

  /** A sign followed by one of the non-finite words holds no digit, as
      lower-casing leaves digits alone and the words have none. */
  lemma WordHasNoDigit(s: string, signed: bool)
    requires signed ==> s != [] && (s[0] == '+' || s[0] == '-')
    requires var w := Lower(if signed then s[1..] else s); w == "nan" || w == "inf" || w == "infinity"
    ensures !exists i :: 0 <= i < |s| && IsDigit(s[i])
  {
    var t := if signed then s[1..] else s;
    var w := Lower(t);
    forall i | 0 <= i < |s| ensures !IsDigit(s[i]) {
      if !signed || i > 0 {
        var k := if signed then i - 1 else i;
        assert t[k] == s[i];
        assert w[k] == LowerChar(t[k]) && w[k] in w;
      }
    }
  }

  function DigitChar(d: nat): char
    requires d < 10
  {
    ('0' as int + d) as char
  }

  /** The decimal rendering of n, without leading zeros. */
  function NatText(n: nat): (s: string)
    ensures s != []
  {
    if n < 10 then [DigitChar(n)] else NatText(n / 10) + [DigitChar(n % 10)]
  }

  lemma {:induction false} NatTextDigits(n: nat)
    ensures AllDigits(NatText(n)) && DigitsValue(NatText(n)) == n
  {
    if n >= 10 {
      NatTextDigits(n / 10);
      var s := NatText(n);
      assert s[..|s| - 1] == NatText(n / 10);
    }
  }

  /** float() reads back what the decimal rendering of a natural wrote. */
  lemma ParseNatText(n: nat)
    ensures ParseNum(NatText(n)) == Some(n as real)
  {
    NatTextDigits(n);
  }

  /** ... and with a leading minus sign, its negation. */
  lemma ParseNegatedNatText(n: nat)
    ensures ParseNum("-" + NatText(n)) == Some(-(n as real))
  {
    ParseNatText(n);
    NatTextDigits(n);
    var s := "-" + NatText(n);
    assert s[1..] == NatText(n);
    assert IsDigit(NatText(n)[0]);
  }

  /** ', '.join(xs). */
  function Join(xs: seq<string>, sep: string): (r: string)
    ensures |xs| == 1 ==> r == xs[0]
  {
    if |xs| == 0 then ""
    else if |xs| == 1 then xs[0]
    else xs[0] + sep + Join(xs[1..], sep)
  }

  /** Joining from the front is joining from the back: the last string
      comes after the join of the others and one separator. */
  lemma {:induction false} JoinLast(xs: seq<string>, sep: string)
    requires |xs| > 1
    ensures Join(xs, sep) == Join(xs[..|xs| - 1], sep) + sep + xs[|xs| - 1]
  {
    var n := |xs|;
    if n == 2 {
      assert xs[1..] == [xs[1]] && xs[..1] == [xs[0]];
    } else {
      var mid := xs[1..n - 1];
      assert xs[1..][..n - 2] == mid && xs[1..][n - 2] == xs[n - 1];
      assert xs[..n - 1][1..] == mid && xs[..n - 1][0] == xs[0];
      calc {
        Join(xs, sep);
        xs[0] + sep + Join(xs[1..], sep);
        { JoinLast(xs[1..], sep); }
        xs[0] + sep + (Join(mid, sep) + sep + xs[n - 1]);
        (xs[0] + sep + Join(mid, sep)) + sep + xs[n - 1];
        Join(xs[..n - 1], sep) + sep + xs[n - 1];
      }
    }
  }

  /** Python's comparison of str: lexicographic on code points. */
  predicate StrLess(a: string, b: string) {
    if a == [] then b != []
    else if b == [] then false
    else if a[0] != b[0] then a[0] < b[0]
    else StrLess(a[1..], b[1..])
  }

  lemma {:induction false} StrLessIrreflexive(a: string)
    ensures !StrLess(a, a)
  {
    if a != [] { StrLessIrreflexive(a[1..]); }
  }

  lemma {:induction false} StrLessTransitive(a: string, b: string, c: string)
    requires StrLess(a, b) && StrLess(b, c)
    ensures StrLess(a, c)
  {
    if a != [] && b != [] && c != [] && a[0] == b[0] == c[0] {
      StrLessTransitive(a[1..], b[1..], c[1..]);
    }
  }

  lemma {:induction false} StrLessTotal(a: string, b: string)
    ensures a == b || StrLess(a, b) || StrLess(b, a)
  {
    if a != [] && b != [] && a[0] == b[0] {
      StrLessTotal(a[1..], b[1..]);
      if a[1..] == b[1..] {
        assert a == [a[0]] + a[1..] && b == [b[0]] + b[1..];
      }
    }
  }
}

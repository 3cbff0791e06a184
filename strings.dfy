/** Python string behaviour the model relies on: `str(n)` for a natural number,
    the code-point ordering used by `max` on strings, and the ASCII parts of
    `lower`, `strip` and `replace`. */
module Strings {

  predicate IsDigit(c: char) {
    '0' <= c <= '9'
  }

  function DigitChar(d: nat): (c: char)
    requires d < 10
    ensures IsDigit(c)
  {
    (48 + d) as char
  }

  /** `str(n)`: decimal digits, most significant first, no leading zero. */
  function NatToString(n: nat): (s: string)
    ensures |s| >= 1 && (n < 10 <==> |s| == 1)
    ensures forall i :: 0 <= i < |s| ==> IsDigit(s[i])
  {
    if n < 10 then [DigitChar(n)] else NatToString(n / 10) + [DigitChar(n % 10)]
  }

  /** Different numbers have different decimal renderings. */
  lemma {:induction false} NatToStringInjective(a: nat, b: nat)
    requires NatToString(a) == NatToString(b)
    ensures a == b
  {
    if 10 <= a && 10 <= b {
      var sa, sb := NatToString(a), NatToString(b);
      assert sa[|sa| - 1] == DigitChar(a % 10) && sb[|sb| - 1] == DigitChar(b % 10);
      assert NatToString(a / 10) == sa[..|sa| - 1] == sb[..|sb| - 1] == NatToString(b / 10);
      NatToStringInjective(a / 10, b / 10);
    }
  }

  /** Two digit strings joined by '_' can be split back apart. */
  lemma {:induction false} JoinedDigitsInjective(a: string, b: string, c: string, d: string)
    requires forall i :: 0 <= i < |a| ==> IsDigit(a[i])
    requires forall i :: 0 <= i < |b| ==> IsDigit(b[i])
    requires a + "_" + c == b + "_" + d
    ensures a == b && c == d
  {
    var x := a + "_" + c;
    assert x[|a|] == '_';
    assert x == b + "_" + d;
    assert x[|b|] == '_';
    assert forall k :: 0 <= k < |b| ==> x[k] == b[k] && IsDigit(x[k]);
    assert forall k :: 0 <= k < |a| ==> x[k] == a[k] && IsDigit(x[k]);
    assert |a| == |b|;
    assert a == x[..|a|] == b;
    assert c == x[|a| + 1..] == d;
  }

  /** Python's `a <= b` on strings: lexicographic order on code points. */
  predicate LexLe(a: string, b: string) {
    if a == [] then true
    else if b == [] then false
    else if a[0] != b[0] then a[0] < b[0]
    else LexLe(a[1..], b[1..])
  }

  lemma {:induction false} LexTotal(a: string, b: string)
    ensures LexLe(a, b) || LexLe(b, a)
  {
    if a != [] && b != [] && a[0] == b[0] {
      LexTotal(a[1..], b[1..]);
    }
  }

  lemma {:induction false} LexTransitive(a: string, b: string, c: string)
    requires LexLe(a, b) && LexLe(b, c)
    ensures LexLe(a, c)
  {
    if a != [] && b != [] && c != [] && a[0] == b[0] == c[0] {
      LexTransitive(a[1..], b[1..], c[1..]);
    }
  }

  lemma {:induction false} LexReflexive(a: string)
    ensures LexLe(a, a)
  {
    if a != [] {
      LexReflexive(a[1..]);
    }
  }

  lemma {:induction false} LexAntisymmetric(a: string, b: string)
    requires LexLe(a, b) && LexLe(b, a)
    ensures a == b
  {
    if a != [] && b != [] {
      LexAntisymmetric(a[1..], b[1..]);
      assert a == [a[0]] + a[1..] && b == [b[0]] + b[1..];
    }
  }

  /** A common prefix does not affect the comparison. */
  lemma {:induction false} LexCommonPrefix(p: string, a: string, b: string)
    ensures LexLe(p + a, p + b) == LexLe(a, b)
  {
    if p != [] {
      assert (p + a)[0] == p[0] == (p + b)[0];
      assert (p + a)[1..] == p[1..] + a && (p + b)[1..] == p[1..] + b;
      assert LexLe(p + a, p + b) == LexLe((p + a)[1..], (p + b)[1..]);
      LexCommonPrefix(p[1..], a, b);
    } else {
      assert p + a == a && p + b == b;
    }
  }

  /** Python's `max(xs)` on a non-empty list of strings: the first element that
      no later element exceeds; it is an element and an upper bound of all. */
  function MaxString(xs: seq<string>): (m: string)
    requires |xs| > 0
    ensures m in xs
    ensures forall x :: x in xs ==> LexLe(x, m)
  {
    if |xs| == 1 then LexReflexive(xs[0]); xs[0]
    else
      var init, last := xs[..|xs| - 1], xs[|xs| - 1];
      var m := MaxString(init);
      LexTotal(last, m);
      if LexLe(last, m) then m
      else
        assert forall x :: x in xs ==> x in init || x == last;
        LexMaxStep(init, m, last);
        LexReflexive(last);
        last
  }

  lemma LexMaxStep(init: seq<string>, m: string, last: string)
    requires forall x :: x in init ==> LexLe(x, m)
    requires LexLe(m, last)
    ensures forall x :: x in init ==> LexLe(x, last)
  {
    forall x | x in init ensures LexLe(x, last) {
      LexTransitive(x, m, last);
    }
  }

  /** The whitespace characters `str.strip()` removes: those of Python's
      `str.isspace()`, the control characters 9 to 13 and 28 to 31, the space,
      and the Unicode spaces and separators. */
  predicate IsSpace(c: char) {
    '\t' <= c <= '\r' || '\U{1C}' <= c <= ' ' || c == '\U{85}' || c == '\U{A0}' || c == '\U{1680}'
    || '\U{2000}' <= c <= '\U{200A}' || c == '\U{2028}' || c == '\U{2029}' || c == '\U{202F}'
    || c == '\U{205F}' || c == '\U{3000}'
  }

  function LowerChar(c: char): char {
    if 'A' <= c <= 'Z' then (c as int + 32) as char else c
  }

  /** `s.lower()` on ASCII letters. */
  function Lower(s: string): (r: string)
    ensures |r| == |s|
    ensures forall i :: 0 <= i < |s| ==> r[i] == LowerChar(s[i])
  {
    if s == [] then [] else [LowerChar(s[0])] + Lower(s[1..])
  }

  /** `s.strip()`: the longest slice with no whitespace at either end. */
  function Strip(s: string): (r: string)
    ensures exists i, j :: 0 <= i <= j <= |s| && r == s[i..j]
                           && (forall k :: 0 <= k < i ==> IsSpace(s[k]))
                           && (forall k :: j <= k < |s| ==> IsSpace(s[k]))
    ensures r == [] || (!IsSpace(r[0]) && !IsSpace(r[|r| - 1]))
  {
    var i := SkipSpaces(s, 0);
    var j := TrimEnd(s, i, |s|);
    s[i..j]
  }

  function SkipSpaces(s: string, i: nat): (k: nat)
    requires i <= |s|
    ensures i <= k <= |s|
    ensures forall m :: i <= m < k ==> IsSpace(s[m])
    ensures k == |s| || !IsSpace(s[k])
    decreases |s| - i
  {
    if i == |s| || !IsSpace(s[i]) then i else SkipSpaces(s, i + 1)
  }

  function TrimEnd(s: string, lo: nat, j: nat): (k: nat)
    requires lo <= j <= |s|
    ensures lo <= k <= j
    ensures forall m :: k <= m < j ==> IsSpace(s[m])
    ensures k == lo || !IsSpace(s[k - 1])
  {
    if j == lo || !IsSpace(s[j - 1]) then j else TrimEnd(s, lo, j - 1)
  }

  /** `s.replace(" ", "_")`. */
  function ReplaceSpaces(s: string): (r: string)
    ensures |r| == |s|
    ensures forall i :: 0 <= i < |s| ==> r[i] == (if s[i] == ' ' then '_' else s[i])
  {
    if s == [] then [] else [if s[0] == ' ' then '_' else s[0]] + ReplaceSpaces(s[1..])
  }

  /** `Lower` is determined character by character. */
  lemma LowerPointwise(s: string, t: string)
    requires |s| == |t| && forall i :: 0 <= i < |s| ==> t[i] == LowerChar(s[i])
    ensures Lower(s) == t
  {
  }

  /** `ReplaceSpaces` is determined character by character. */
  lemma ReplaceSpacesPointwise(s: string, t: string)
    requires |s| == |t| && forall i :: 0 <= i < |s| ==> t[i] == (if s[i] == ' ' then '_' else s[i])
    ensures ReplaceSpaces(s) == t
  {
  }

  /** `strip` leaves alone a string that neither starts nor ends with white
      space. */
  lemma StripUnpadded(s: string)
    requires s == [] || (!IsSpace(s[0]) && !IsSpace(s[|s| - 1]))
    ensures Strip(s) == s
  {
    var i, j :| 0 <= i <= j <= |s| && Strip(s) == s[i..j]
      && (forall k :: 0 <= k < i ==> IsSpace(s[k]))
      && (forall k :: j <= k < |s| ==> IsSpace(s[k]));
    assert i == 0 && j == |s|;
  }
}

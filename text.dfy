/**
 * The few Python string operations the reconciler relies on, written out over `seq<char>`:
 * `str.isdigit` (ASCII digits), `str.isspace`/`str.strip`, `str.lower` (ASCII letters),
 * `in` on strings (substring test) and the filter "keep the digits".
 */
module Text {

  /** `ch.isdigit()` restricted to the ASCII digits '0'..'9'. */
  predicate IsDigit(c: char) {
    '0' <= c <= '9'
  }

  predicate AllDigits(d: string) {
    forall i :: 0 <= i < |d| ==> IsDigit(d[i])
  }

  /** `ch.isspace()`: the characters Python's `str.strip()` removes when called without arguments. */
  predicate IsSpace(c: char) {
    c == ' ' || '\t' <= c <= '\r' || '\U{1C}' <= c <= '\U{1F}' || c == '\U{85}' || c == '\U{A0}' ||
    c == '\U{1680}' || '\U{2000}' <= c <= '\U{200A}' || c == '\U{2028}' || c == '\U{2029}' ||
    c == '\U{202F}' || c == '\U{205F}' || c == '\U{3000}'
  }

  predicate AllSpace(s: string) {
    forall i :: 0 <= i < |s| ==> IsSpace(s[i])
  }

  /** `s.lstrip()`. */
  function StripLeft(s: string): (r: string)
    ensures |r| <= |s|
  {
    if s != [] && IsSpace(s[0]) then StripLeft(s[1..]) else s
  }

  /** `s.rstrip()`. */
  function StripRight(s: string): (r: string)
    ensures |r| <= |s|
  {
    if s != [] && IsSpace(s[|s| - 1]) then StripRight(s[..|s| - 1]) else s
  }

  /** `lstrip` drops a run of whitespace from the front and stops at the first other character. */
  lemma {:induction false} StripLeftDropsSpace(s: string)
    ensures StripLeft(s) == s[|s| - |StripLeft(s)|..]
    ensures AllSpace(s[..|s| - |StripLeft(s)|])
    ensures StripLeft(s) != [] ==> !IsSpace(StripLeft(s)[0])
    decreases |s|
  {
    if s != [] && IsSpace(s[0]) {
      StripLeftDropsSpace(s[1..]);
      var k := |s| - |StripLeft(s)|;
      assert s[1..][..k - 1] == s[1..k];
      assert s[1..][k - 1..] == s[k..];
    }
  }

  /** `rstrip` drops a run of whitespace from the back and stops at the last other character. */
  lemma {:induction false} StripRightDropsSpace(s: string)
    ensures StripRight(s) == s[..|StripRight(s)|]
    ensures AllSpace(s[|StripRight(s)|..])
    ensures StripRight(s) != [] ==> !IsSpace(StripRight(s)[|StripRight(s)| - 1])
    decreases |s|
  {
    if s != [] && IsSpace(s[|s| - 1]) {
      var init := s[..|s| - 1];
      StripRightDropsSpace(init);
      var k := |StripRight(s)|;
      assert init[..k] == s[..k];
      assert s[k..] == init[k..] + [s[|s| - 1]];
    }
  }

  /** `s.strip()`: drop whitespace at both ends. */
  function Strip(s: string): (r: string)
    ensures |r| <= |s|
  {
    StripRight(StripLeft(s))
  }

  /** What `strip()` returns is the contiguous middle of `s`, only whitespace was dropped, and
      the result neither starts nor ends with whitespace. */
  lemma StripIsMiddle(s: string) returns (i: nat, j: nat)
    ensures i <= j <= |s| && Strip(s) == s[i..j] && AllSpace(s[..i]) && AllSpace(s[j..])
    ensures Strip(s) != [] ==> !IsSpace(Strip(s)[0]) && !IsSpace(Strip(s)[|Strip(s)| - 1])
  {
    var left := StripLeft(s);
    var r := StripRight(left);
    StripLeftDropsSpace(s);
    StripRightDropsSpace(left);
    i, j := |s| - |left|, |s| - |left| + |r|;
    assert r == s[i..j];
    assert s[j..] == left[|r|..];
  }

  function LowerChar(c: char): char {
    if 'A' <= c <= 'Z' then (c as int - 'A' as int + 'a' as int) as char else c
  }

  /** `s.lower()` for ASCII letters; every other character is left as it is. */
  function Lower(s: string): (r: string)
    ensures |r| == |s|
    ensures forall i :: 0 <= i < |s| ==> r[i] == LowerChar(s[i])
  {
    seq(|s|, i requires 0 <= i < |s| => LowerChar(s[i]))
  }

  /** `needle in hay` for Python strings: `needle` occurs at some position of `hay`. */
  function IsSubstring(needle: string, hay: string): (found: bool)
    decreases |hay|
    ensures found ==> |needle| <= |hay|
  {
    (|needle| <= |hay| && hay[..|needle|] == needle) || (hay != [] && IsSubstring(needle, hay[1..]))
  }

  /** `needle` is the slice of `hay` that starts at position `i`. */
  predicate OccursAt(needle: string, hay: string, i: int) {
    0 <= i && i + |needle| <= |hay| && hay[i..i + |needle|] == needle
  }

  /** The recursive test agrees with the direct one: `needle` is some slice of `hay`. */
  lemma {:induction false} SubstringAtOffset(needle: string, hay: string)
    ensures IsSubstring(needle, hay) <==> exists i :: OccursAt(needle, hay, i)
    decreases |hay|
  {
    var n := |needle|;
    if IsSubstring(needle, hay) {
      if n <= |hay| && hay[..n] == needle {
        assert OccursAt(needle, hay, 0);
      } else {
        SubstringAtOffset(needle, hay[1..]);
        var i :| OccursAt(needle, hay[1..], i);
        assert hay[1..][i..i + n] == hay[i + 1..i + 1 + n];
        assert OccursAt(needle, hay, i + 1);
      }
    }
    if exists i :: OccursAt(needle, hay, i) {
      var i :| OccursAt(needle, hay, i);
      if i == 0 {
        assert hay[..n] == needle;
      } else {
        assert hay[1..][i - 1..i - 1 + n] == hay[i..i + n];
        assert OccursAt(needle, hay[1..], i - 1);
        SubstringAtOffset(needle, hay[1..]);
      }
    }
  }

  /** The digits of `s`, in their original order: `"".join(ch for ch in s if ch.isdigit())`. */
  function Digits(s: string): (r: string)
    ensures |r| <= |s|
    ensures AllDigits(r)
  {
    if s == [] then [] else (if IsDigit(s[0]) then [s[0]] else []) + Digits(s[1..])
  }

  predicate HasDigit(s: string) {
    exists i :: 0 <= i < |s| && IsDigit(s[i])
  }

  /** `r` can be obtained from `s` by deleting characters. */
  predicate IsSubsequence(r: string, s: string)
    decreases |s|
  {
    if r == [] then true
    else if s == [] then false
    else if r[0] == s[0] then IsSubsequence(r[1..], s[1..])
    else IsSubsequence(r, s[1..])
  }

  lemma {:induction false} DigitsAppend(a: string, b: string)
    ensures Digits(a + b) == Digits(a) + Digits(b)
  {
    if a == [] {
      assert a + b == b;
    } else {
      assert (a + b)[0] == a[0] && (a + b)[1..] == a[1..] + b;
      DigitsAppend(a[1..], b);
    }
  }

  /** The digit filter finds something exactly when the string holds a digit. */
  lemma {:induction false} DigitsEmptyIff(s: string)
    ensures Digits(s) == [] <==> !HasDigit(s)
  {
    if s != [] {
      DigitsEmptyIff(s[1..]);
      if HasDigit(s[1..]) {
        var i :| 0 <= i < |s| - 1 && IsDigit(s[1..][i]);
        assert IsDigit(s[i + 1]);
      }
      if HasDigit(s) && !IsDigit(s[0]) {
        var i :| 0 <= i < |s| && IsDigit(s[i]);
        assert IsDigit(s[1..][i - 1]);
      }
    }
  }

  /** `Digits(s)` keeps characters of `s` in their order: it is a subsequence of `s`. */
  lemma {:induction false} DigitsIsSubsequence(s: string)
    ensures IsSubsequence(Digits(s), s)
  {
    if s != [] {
      DigitsIsSubsequence(s[1..]);
      var d := Digits(s[1..]);
      if IsDigit(s[0]) {
        assert Digits(s)[1..] == d;
      } else if d == [] {
        assert Digits(s) == [] + d == [];
      } else if d != [] {
        assert Digits(s) == [] + d == d;
        assert IsDigit(d[0]) && d[0] != s[0];
      }
    }
  }

  /** No subsequence of `s` made only of digits is longer than `Digits(s)`. */
  lemma {:induction false} DigitSubsequenceBound(r: string, s: string)
    requires IsSubsequence(r, s)
    requires AllDigits(r)
    ensures |r| <= |Digits(s)|
    decreases |s|
  {
    if r != [] {
      if r[0] == s[0] {
        DigitSubsequenceBound(r[1..], s[1..]);
      } else {
        DigitSubsequenceBound(r, s[1..]);
      }
    }
  }

  /**
   * `Digits(s)` is the one all-digit subsequence of `s` that keeps every digit:
   * any other all-digit subsequence as long as it is equal to it.
   */
  lemma {:induction false} DigitsUnique(r: string, s: string)
    requires IsSubsequence(r, s)
    requires AllDigits(r)
    requires |r| == |Digits(s)|
    ensures r == Digits(s)
    decreases |s|
  {
    if r != [] {
      if r[0] == s[0] {
        DigitsUnique(r[1..], s[1..]);
      } else {
        DigitSubsequenceBound(r, s[1..]);
        DigitsUnique(r, s[1..]);
      }
    }
  }
}

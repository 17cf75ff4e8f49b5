/**
 * Value normalisation (main.py:43-79): the Arabic-Indic translation table `AR2EN`,
 * `normalize_account` and `to_float_safe`.
 *
 * A spreadsheet cell reaches these functions as Python's `None`, a float NaN, or any other
 * value, which both functions immediately turn into text with `str(x)`; `Cell` keeps exactly
 * that distinction. Amounts are exact reals: the final `float(s2)` rounding is not modelled.
 */
module Normalize {
  import opened Wrappers
  import opened Text

  datatype Cell = Missing | NaN | Str(text: string)

  predicate IsArabicDigit(c: char) {
    '٠' <= c <= '٩'
  }

  /** One entry of `AR2EN`: Arabic-Indic digits become ASCII digits, and BOTH the Arabic decimal
      mark U+066B and the Arabic thousands mark U+066C become '.'. */
  function Ar2En(c: char): (r: char)
    ensures IsDigit(r) <==> IsDigit(c) || IsArabicDigit(c)
    ensures r == '.' <==> c == '.' || c == '٫' || c == '٬'
    ensures IsArabicDigit(c) ==> r as int - '0' as int == c as int - '٠' as int
    ensures !IsArabicDigit(c) && c != '٫' && c != '٬' ==> r == c
  {
    if IsArabicDigit(c) then (c as int - '٠' as int + '0' as int) as char
    else if c == '٫' || c == '٬' then '.'
    else c
  }

  /** `s.translate(AR2EN)`. */
  function Translate(s: string): (r: string)
    ensures |r| == |s|
    ensures forall i :: 0 <= i < |s| ==> r[i] == Ar2En(s[i])
  {
    seq(|s|, i requires 0 <= i < |s| => Ar2En(s[i]))
  }

  /** Neither a digit nor a '.': a character the cleaning loop drops whatever its position. */
  predicate Inert(s: string) {
    forall i :: 0 <= i < |s| ==> !IsDigit(s[i]) && s[i] != '.'
  }

  /** Position of the first '.', or |s| when there is none. */
  function IndexOfDot(s: string): (k: nat)
    ensures k <= |s|
    ensures k < |s| ==> s[k] == '.'
    ensures forall j :: 0 <= j < k ==> s[j] != '.'
  {
    if s == [] || s[0] == '.' then 0 else 1 + IndexOfDot(s[1..])
  }

  /**
   * What the cleaning loop of `to_float_safe` (main.py:54-64) leaves, defined independently of
   * the loop: the digits before the first '.', that '.', and the digits after it.
   */
  function Cleaned(s: string): string {
    var k := IndexOfDot(s);
    if k < |s| then Digits(s[..k]) + "." + Digits(s[k + 1..]) else Digits(s)
  }

  /** What cleaning leaves is text `float()` accepts. */
  lemma CleanedIsDecimal(s: string)
    ensures IsDecimalText(Cleaned(s))
  {
    var k := IndexOfDot(s);
    if k < |s| {
      DigitsDotDigits(Digits(s[..k]), Digits(s[k + 1..]));
    }
  }

  /** Text `float()` accepts once cleaning is done: digits with at most one '.'. */
  predicate IsDecimalText(c: string) {
    && (forall i :: 0 <= i < |c| ==> IsDigit(c[i]) || c[i] == '.')
    && (forall i, j :: 0 <= i < j < |c| && c[i] == '.' ==> c[j] != '.')
  }

  function Pow10(n: nat): (r: nat)
    ensures r >= 1
  {
    if n == 0 then 1 else 10 * Pow10(n - 1)
  }

  /** The value of a string of ASCII digits read in base 10 (empty reads as 0). */
  function NatOf(d: string): nat
    requires AllDigits(d)
  {
    if d == [] then 0
    else
      assert IsDigit(d[|d| - 1]);
      10 * NatOf(d[..|d| - 1]) + (d[|d| - 1] as int - '0' as int)
  }

  /** The value of the digits after the point: `frac` read as an integer, over 10^|frac|. */
  function FractionValue(frac: string): (r: real)
    requires AllDigits(frac)
    ensures 0.0 <= r
  {
    var part, scale := NatOf(frac) as real, Pow10(|frac|) as real;
    assert part / scale >= 0.0;
    part / scale
  }

  /** The exact value `float(c)` rounds: integer part plus the fraction after the point. */
  function DecimalValue(c: string): (r: real)
    requires IsDecimalText(c)
    ensures r >= 0.0
  {
    var k := IndexOfDot(c);
    NatOf(c[..k]) as real + if k < |c| then FractionValue(c[k + 1..]) else 0.0
  }

  /** main.py:65-68 once `clean` is known: "" and "." give 0.0, anything else its decimal value. */
  function CleanValue(c: string): (r: real)
    requires IsDecimalText(c)
    ensures r >= 0.0
  {
    if c == "" || c == "." then 0.0 else DecimalValue(c)
  }

  /**
   * The value `to_float_safe` returns (main.py:45-71), as a specification: 0.0 for None and
   * NaN, otherwise the value of what cleaning leaves of the translated text ("" and "." read as
   * 0.0). The method `ToFloatSafe` below follows the code's own order of early returns.
   */
  function AmountOf(x: Cell): (r: real)
    ensures r >= 0.0
  {
    match x
    case Missing => 0.0
    case NaN => 0.0
    case Str(t) =>
      CleanedIsDecimal(Translate(t));
      CleanValue(Cleaned(Translate(t)))
  }

  /** `normalize_account` (main.py:73-79): the digits of the stripped, translated text, or None
      when there are none. */
  function NormalizeAccount(x: Cell): (r: Option<string>)
    ensures r.Some? ==> r.value != [] && AllDigits(r.value)
  {
    match x
    case Missing => None
    case NaN => None
    case Str(t) =>
      var digits := Digits(Translate(Strip(t)));
      if digits != [] then Some(digits) else None
  }

  /** Stripping first makes no difference: an account is every digit of the translated text, and
      there is none exactly when the cell is empty or the text has no digit. */
  lemma NormalizeAccountDigits(x: Cell)
    ensures NormalizeAccount(x).None? <==> x.Missing? || x.NaN? || !HasDigit(Translate(x.text))
    ensures NormalizeAccount(x).Some? ==> NormalizeAccount(x).value == Digits(Translate(x.text))
  {
    if x.Str? {
      StripKeepsDigits(x.text);
      DigitsEmptyIff(Translate(x.text));
    }
  }

  /**
   * `to_float_safe` (main.py:45-71): the early returns for None/NaN, blank text and "nan"/"none",
   * the translation, the cleaning loop, and the conversion of what it leaves.
   */
  method ToFloatSafe(x: Cell) returns (amount: real)
    ensures amount == AmountOf(x)
  {
    if x.Missing? || x.NaN? {
      return 0.0;
    }
    var s := Strip(x.text);
    StripKeepsCleaning(x.text);
    if s == "" || Lower(s) == "nan" || Lower(s) == "none" {
      BlankOrWordCleansToNothing(s);
      return 0.0;
    }
    s := Translate(s);
    var clean := CleanAmountText(s);
    CleanedIsDecimal(s);
    if clean == "" || clean == "." {
      return 0.0;
    }
    amount := DecimalValue(clean);
  }

  /** The loop of main.py:54-64: keep every digit, keep a '.' only while `dot_seen` is false. */
  method CleanAmountText(s: string) returns (clean: string)
    ensures clean == Cleaned(s)
  {
    clean := [];
    var dotSeen := false;
    ghost var k := IndexOfDot(s);
    // `clean` is `kept` followed by the digits of s[from..i]
    ghost var kept: string, from: nat := [], 0;
    for i := 0 to |s|
      invariant from <= i
      invariant clean == kept + Digits(s[from..i])
      invariant dotSeen <==> k < i
      invariant !dotSeen ==> kept == [] && from == 0
      invariant dotSeen ==> kept == Digits(s[..k]) + "." && from == k + 1
    {
      var ch := s[i];
      DigitsStep(kept, s, from, i);
      if IsDigit(ch) {
        clean := clean + [ch];
      } else if ch == '.' && !dotSeen {
        assert i == k && s[..k] == s[from..i];
        clean := clean + ['.'];
        dotSeen := true;
        kept, from := clean, i + 1;
      }
    }

    if dotSeen {
      assert s[from..|s|] == s[k + 1..];
    } else {
      assert s[from..|s|] == s;
      assert clean == Digits(s);
    }
  }

  // ---------------------------------------------------------------------------------------
  // Properties of the cleaning step
  // ---------------------------------------------------------------------------------------

  /** One turn of the cleaning loop on the part after `kept`. */
  lemma DigitsStep(kept: string, s: string, from: nat, i: nat)
    requires from <= i < |s|
    ensures kept + Digits(s[from..i + 1]) == kept + Digits(s[from..i]) + (if IsDigit(s[i]) then [s[i]] else [])
  {
    DigitsSnoc(s, from, i);
  }

  /** Extending a slice by one character extends its digits by that character when it is one. */
  lemma DigitsSnoc(s: string, lo: nat, i: nat)
    requires lo <= i < |s|
    ensures Digits(s[lo..i + 1]) == Digits(s[lo..i]) + (if IsDigit(s[i]) then [s[i]] else [])
    ensures lo == 0 ==> Digits(s[..i + 1]) == Digits(s[..i]) + (if IsDigit(s[i]) then [s[i]] else [])
  {
    assert s[lo..i + 1] == s[lo..i] + [s[i]];
    DigitsAppend(s[lo..i], [s[i]]);
    assert [s[i]][1..] == [];
    assert lo == 0 ==> s[..i + 1] == s[lo..i + 1] && s[..i] == s[lo..i];
  }

  lemma {:induction false} DigitsOfDigits(d: string)
    requires AllDigits(d)
    ensures Digits(d) == d
  {
    if d != [] {
      DigitsOfDigits(d[1..]);
    }
  }

  lemma {:induction false} InertHasNoDigits(s: string)
    requires Inert(s)
    ensures Digits(s) == []
  {
    if s != [] {
      InertHasNoDigits(s[1..]);
    }
  }

  lemma {:induction false} IndexOfDotAppend(a: string, b: string)
    ensures IndexOfDot(a + b) == if IndexOfDot(a) < |a| then IndexOfDot(a) else |a| + IndexOfDot(b)
  {
    if a == [] {
      assert a + b == b;
    } else {
      assert (a + b)[0] == a[0] && (a + b)[1..] == a[1..] + b;
      IndexOfDotAppend(a[1..], b);
    }
  }

  /** A string of digits followed by '.' has its first '.' right after the digits. */
  lemma {:induction false} IndexOfDotAfterDigits(a: string, rest: string)
    requires AllDigits(a)
    ensures IndexOfDot(a + "." + rest) == |a|
    ensures IndexOfDot(a) == |a|
  {
    if a != [] {
      assert (a + "." + rest)[1..] == a[1..] + "." + rest;
      IndexOfDotAfterDigits(a[1..], rest);
    }
  }

  /** Digits, one '.', digits: the shape the cleaning loop produces once it has seen a '.'. */
  lemma DigitsDotDigits(a: string, b: string)
    requires AllDigits(a)
    requires AllDigits(b)
    ensures IsDecimalText(a + "." + b)
  {
    var c := a + "." + b;
    forall i, j | 0 <= i < j < |c| && c[i] == '.' ensures c[j] != '.' {
      assert i == |a|;
      assert c[j] == b[j - |a| - 1];
    }
  }

  /**
   * Cleaning keeps every digit of its input, in order, drops nothing else that is a digit, and
   * keeps a '.' exactly when the input had one.
   */
  lemma CleanedKeepsDigitsAndFirstDot(s: string)
    ensures Digits(Cleaned(s)) == Digits(s)
    ensures (exists i :: 0 <= i < |Cleaned(s)| && Cleaned(s)[i] == '.') <==> (exists i :: 0 <= i < |s| && s[i] == '.')
  {
    CleanedKeepsDigits(s);
    var k := IndexOfDot(s);
    if k < |s| {
      var a, b := Digits(s[..k]), Digits(s[k + 1..]);
      assert (a + "." + b)[|a|] == '.';
    } else {
      DigitsOfDigits(Digits(s));
    }
  }

  lemma CleanedKeepsDigits(s: string)
    ensures Digits(Cleaned(s)) == Digits(s)
  {
    var k := IndexOfDot(s);
    if k < |s| {
      var l, r := s[..k], s[k + 1..];
      var a, b := Digits(l), Digits(r);
      assert Digits(s) == a + b by {
        assert s == l + "." + r;
        DigitsSkipDot(l, r);
        DigitsAppend(l, r);
      }
      assert Digits(a + "." + b) == a + b by {
        DigitsSkipDot(a, b);
        DigitsAppend(a, b);
        DigitsOfDigits(a);
        DigitsOfDigits(b);
      }
    } else {
      DigitsOfDigits(Digits(s));
    }
  }

  /** Cleaning an already cleaned string changes nothing. */
  lemma CleanedIdempotent(s: string)
    ensures Cleaned(Cleaned(s)) == Cleaned(s)
  {
    var k := IndexOfDot(s);
    if k < |s| {
      var a, b := Digits(s[..k]), Digits(s[k + 1..]);
      var c := a + "." + b;
      IndexOfDotAfterDigits(a, b);
      assert c[..|a|] == a && c[|a| + 1..] == b;
      DigitsOfDigits(a);
      DigitsOfDigits(b);
    } else {
      var d := Digits(s);
      IndexOfDotAfterDigits(d, []);
      DigitsOfDigits(d);
    }
  }

  /** Characters that are neither digits nor '.' in front of a string do not change its cleaning. */
  lemma {:induction false} CleanedIgnoresInertPrefix(p: string, m: string)
    requires Inert(p)
    ensures Cleaned(p + m) == Cleaned(m)
    decreases |p|
  {
    if p != [] {
      assert p + m == [p[0]] + (p[1..] + m);
      CleanedDropsInertChar(p[0], p[1..] + m);
      CleanedIgnoresInertPrefix(p[1..], m);
    } else {
      assert p + m == m;
    }
  }

  /** One character that is neither a digit nor '.' in front changes nothing. */
  lemma CleanedDropsInertChar(c: char, m: string)
    requires !IsDigit(c) && c != '.'
    ensures Cleaned([c] + m) == Cleaned(m)
  {
    var s := [c] + m;
    assert s[1..] == m;
    var km := IndexOfDot(m);
    assert IndexOfDot(s) == 1 + km;
    if km < |m| {
      assert s[..1 + km][1..] == m[..km];
      assert Digits(s[..1 + km]) == Digits(m[..km]);
      assert s[1 + km + 1..] == m[km + 1..];
    } else {
      assert Digits(s) == Digits(m);
    }
  }

  /** ... nor behind it. */
  lemma {:induction false} CleanedIgnoresInertSuffix(m: string, q: string)
    requires Inert(q)
    ensures Cleaned(m + q) == Cleaned(m)
    decreases |q|
  {
    if q != [] {
      var init := q[..|q| - 1];
      assert m + q == (m + init) + [q[|q| - 1]];
      CleanedDropsTrailingInertChar(m + init, q[|q| - 1]);
      CleanedIgnoresInertSuffix(m, init);
    } else {
      assert m + q == m;
    }
  }

  /** One character that is neither a digit nor '.' at the end changes nothing. */
  lemma CleanedDropsTrailingInertChar(m: string, c: char)
    requires !IsDigit(c) && c != '.'
    ensures Cleaned(m + [c]) == Cleaned(m)
  {
    var s := m + [c];
    var km := IndexOfDot(m);
    IndexOfDotAppend(m, [c]);
    assert Digits([c]) == [];
    if km < |m| {
      assert s[..km] == m[..km];
      assert s[km + 1..] == m[km + 1..] + [c];
      DigitsAppend(m[km + 1..], [c]);
    } else {
      DigitsAppend(m, [c]);
    }
  }

  lemma TranslateAppend(a: string, b: string)
    ensures Translate(a + b) == Translate(a) + Translate(b)
  {
  }

  lemma SpacesAreInert(s: string)
    requires AllSpace(s)
    ensures Translate(s) == s && Inert(s)
  {
  }

  /** Translating the stripped text is translating the text and stripping the same spaces. */
  lemma TranslateAroundStrip(t: string) returns (i: nat, j: nat)
    ensures i <= j <= |t| && AllSpace(t[..i]) && AllSpace(t[j..])
    ensures Translate(Strip(t)) == Translate(t[i..j])
    ensures Translate(t) == t[..i] + Translate(t[i..j]) + t[j..]
  {
    i, j := StripIsMiddle(t);
    var m := Translate(t[i..j]);
    var w := t[..i] + m + t[j..];
    assert |w| == |t|;
    forall k | 0 <= k < |t| ensures Translate(t)[k] == w[k] {
      if k < i {
        assert w[k] == t[..i][k] == t[k] && IsSpace(t[k]);
      } else if k >= j {
        assert w[k] == t[j..][k - j] == t[k] && IsSpace(t[k]);
      } else {
        assert w[k] == m[k - i] == Ar2En(t[k]);
      }
    }
  }

  /** Whitespace that `strip()` removes holds no digit, so stripping never changes the digits of
      the translated text. */
  lemma StripKeepsDigits(t: string)
    ensures Digits(Translate(Strip(t))) == Digits(Translate(t))
  {
    var i, j := TranslateAroundStrip(t);
    var p, m, q := t[..i], Translate(t[i..j]), t[j..];
    SpacesAreInert(p);
    SpacesAreInert(q);
    InertHasNoDigits(p);
    InertHasNoDigits(q);
    DigitsAppend(p, m);
    DigitsAppend(p + m, q);
    assert Digits(m) + [] == Digits(m);
  }

  /** Inert characters on both sides of a string do not change its cleaning. */
  lemma CleanedIgnoresInertAround(p: string, m: string, q: string)
    requires Inert(p) && Inert(q)
    ensures Cleaned(p + m + q) == Cleaned(m)
  {
    assert p + m + q == p + (m + q);
    CleanedIgnoresInertPrefix(p, m + q);
    CleanedIgnoresInertSuffix(m, q);
  }

  /** ... nor a '.', so it never changes what cleaning leaves either. */
  lemma StripKeepsCleaning(t: string)
    ensures Cleaned(Translate(Strip(t))) == Cleaned(Translate(t))
  {
    var i, j := TranslateAroundStrip(t);
    SpacesAreInert(t[..i]);
    SpacesAreInert(t[j..]);
    CleanedIgnoresInertAround(t[..i], Translate(t[i..j]), t[j..]);
  }

  /** Blank text, and "nan" or "none" in any letter case, leave nothing after cleaning. */
  lemma BlankOrWordCleansToNothing(s: string)
    requires s == "" || Lower(s) == "nan" || Lower(s) == "none"
    ensures Cleaned(Translate(s)) == []
  {
    if s == "" {
      assert Translate(s) == [];
    } else {
      forall i | 0 <= i < |s| ensures 'a' <= Lower(s)[i] <= 'z' {
        assert Lower(s)[i] in "none" || Lower(s)[i] in "nan";
      }
      LettersAreInert(s);
      CleanedIgnoresInertPrefix(Translate(s), []);
      assert Translate(s) + [] == Translate(s);
    }
  }

  /** A text whose lower-case form is made of ASCII letters only has no digit or '.' to keep. */
  lemma LettersAreInert(s: string)
    requires forall i :: 0 <= i < |s| ==> 'a' <= Lower(s)[i] <= 'z'
    ensures Inert(Translate(s))
  {
    forall i | 0 <= i < |s| ensures !IsDigit(Translate(s)[i]) && Translate(s)[i] != '.' {
      assert LowerChar(s[i]) == Lower(s)[i];
    }
  }

  // ---------------------------------------------------------------------------------------
  // What the two normalisers do to typical sheet contents
  // ---------------------------------------------------------------------------------------

  /** No character `AR2EN` rewrites. */
  predicate Untranslated(s: string) {
    forall i :: 0 <= i < |s| ==> !IsArabicDigit(s[i]) && s[i] != '٫' && s[i] != '٬'
  }

  lemma TranslateUntranslated(s: string)
    requires Untranslated(s)
    ensures Translate(s) == s
  {
  }

  /**
   * `normalize_account` keeps every digit of the translated text, in order, and nothing else:
   * its result is an all-digit subsequence of that text, and no all-digit subsequence is longer.
   */
  lemma {:induction false} NormalizedAccountIsEveryDigit(t: string, r: string)
    requires IsSubsequence(r, Translate(t)) && AllDigits(r)
    ensures NormalizeAccount(Str(t)).Some? ==> IsSubsequence(NormalizeAccount(Str(t)).value, Translate(t))
    ensures NormalizeAccount(Str(t)).Some? ==> |r| <= |NormalizeAccount(Str(t)).value|
    ensures NormalizeAccount(Str(t)).Some? && |r| == |NormalizeAccount(Str(t)).value| ==> r == NormalizeAccount(Str(t)).value
    ensures NormalizeAccount(Str(t)).None? ==> r == []
  {
    var u := Translate(t);
    var n := NormalizeAccount(Str(t));
    NormalizeAccountDigits(Str(t));
    DigitsIsSubsequence(u);
    DigitSubsequenceBound(r, u);
    DigitsEmptyIff(u);
    if |r| == |Digits(u)| {
      DigitsUnique(r, u);
    }
  }

  /**
   * An account number that pandas read as a float is rendered by `str` as "<digits>.0", and
   * `normalize_account` keeps the trailing zero: the account gains a digit.
   */
  lemma FloatRenderedAccountGainsZero(d: string)
    requires AllDigits(d) && d != []
    ensures NormalizeAccount(Str(d + ".0")) == Some(d + "0")
  {
    var t := d + ".0";
    TranslateUntranslated(t);
    DigitsAppend(d, ".0");
    DigitsOfDigits(d);
    assert ".0"[1..] == "0";
    assert Digits(".0") == Digits("0") == "0";
    assert Digits(Translate(t)) == d + "0" != [];
    DigitsEmptyIff(Translate(t));
    NormalizeAccountDigits(Str(t));
  }

  /** Characters that are not digits, '.' or Arabic digits or separators around the amount, such as
      a minus sign, a currency name or thousands commas in front, are dropped: "-50" reads as 50. */
  lemma SignAndCurrencyIgnored(p: string, t: string, q: string)
    requires Inert(p) && Untranslated(p) && Inert(q) && Untranslated(q)
    ensures AmountOf(Str(p + t + q)) == AmountOf(Str(t))
  {
    TranslateUntranslated(p);
    TranslateUntranslated(q);
    TranslateAppend(p + t, q);
    TranslateAppend(p, t);
    CleanedIgnoresInertSuffix(p + Translate(t), q);
    CleanedIgnoresInertPrefix(p, Translate(t));
  }

  /** Cleaning text that starts with digits and a '.' keeps them and the digits of the rest. */
  lemma CleanedAfterDigitsDot(a: string, rest: string)
    requires AllDigits(a)
    ensures Cleaned(a + "." + rest) == a + "." + Digits(rest)
  {
    var s := a + "." + rest;
    IndexOfDotAfterDigits(a, rest);
    assert s[..|a|] == a && s[|a| + 1..] == rest;
    DigitsOfDigits(a);
  }

  lemma DigitsSkipDot(b: string, c: string)
    ensures Digits(b + "." + c) == Digits(b + c)
  {
    DigitsAppend(b + ".", c);
    DigitsAppend(b, ".");
    DigitsAppend(b, c);
    assert Digits(".") == [];
    assert Digits(b) + [] == Digits(b);
  }

  /** Only the first '.' counts: "1.2.3" reads as 1.23, the later dots are simply removed. */
  lemma ExtraDotsDropped(a: string, b: string, c: string)
    requires AllDigits(a) && AllDigits(b) && AllDigits(c)
    ensures AmountOf(Str(a + "." + b + "." + c)) == AmountOf(Str(a + "." + (b + c)))
  {
    var s1, s2 := a + "." + (b + "." + c), a + "." + (b + c);
    assert a + "." + b + "." + c == s1;
    assert Translate(s1) == s1 by { TranslateUntranslated(s1); }
    assert Translate(s2) == s2 by { TranslateUntranslated(s2); }
    CleanedAfterDigitsDot(a, b + "." + c);
    CleanedAfterDigitsDot(a, b + c);
    DigitsSkipDot(b, c);
  }

  /** The value of digits, '.', digits: the whole part plus the fraction over its power of ten. */
  lemma DecimalValueOfParts(a: string, b: string)
    requires AllDigits(a) && AllDigits(b)
    ensures IsDecimalText(a + "." + b)
    ensures DecimalValue(a + "." + b) == NatOf(a) as real + FractionValue(b)
  {
    var c := a + "." + b;
    DigitsDotDigits(a, b);
    IndexOfDotAfterDigits(a, b);
    assert c[..|a|] == a && c[|a| + 1..] == b;
  }

  /** The Arabic thousands mark U+066C is read as a decimal point, like U+066B: "1٬234" reads as
      1.234, not 1234. */
  lemma ThousandsMarkIsDecimalPoint(a: string, b: string)
    requires AllDigits(a) && AllDigits(b)
    ensures AmountOf(Str(a + "٬" + b)) == AmountOf(Str(a + "." + b))
    ensures AmountOf(Str(a + "." + b)) == NatOf(a) as real + FractionValue(b)
  {
    ThousandsMarkTranslates(a, b);
    DigitsDotDigitsAmount(a, b);
  }

  lemma ThousandsMarkTranslates(a: string, b: string)
    requires AllDigits(a) && AllDigits(b)
    ensures Translate(a + "٬" + b) == a + "." + b == Translate(a + "." + b)
  {
    var s2 := a + "." + b;
    assert Translate(s2) == s2 by { TranslateUntranslated(s2); }
  }

  /** Digits, '.', at least one digit: the cleaning keeps the text and reads its decimal value. */
  lemma DigitsDotDigitsAmount(a: string, b: string)
    requires AllDigits(a) && AllDigits(b)
    ensures AmountOf(Str(a + "." + b)) == NatOf(a) as real + FractionValue(b)
  {
    var s2 := a + "." + b;
    assert Translate(s2) == s2 by { TranslateUntranslated(s2); }
    assert Cleaned(s2) == s2 by {
      CleanedAfterDigitsDot(a, b);
      DigitsOfDigits(b);
    }
    DecimalValueOfParts(a, b);
    if a == [] && b == [] {
      assert s2 == "." && FractionValue(b) == 0.0;
    } else {
      assert s2 != "" && s2 != "." by { assert |s2| >= 2; }
    }
  }
}

/** Python runtime notions that the modelled code relies on: optional values,
    the built-in exceptions it raises, and the str operations it calls
    (split, strip, lower, zfill, integer formatting). */
module Common {

  datatype Option<T> = None | Some(value: T)

  /** The built-in Python exceptions that the modelled code raises or lets escape. */
  datatype PyError =
    | ValueError(msg: string)
    | TypeError(msg: string)
    | AttributeError(msg: string)
    | KeyError(key: string)
    | RuntimeError(msg: string)
    | IndexError(msg: string)
    | ReError(msg: string)

  /** A value, or the exception raised instead of returning one. */
  datatype Result<T> = Ok(value: T) | Err(error: PyError)

  // ---------------------------------------------------------------------------
  // Decimal digits and integer formatting

  predicate IsDigit(c: char) { '0' <= c <= '9' }

  predicate AllDigits(s: string) { forall i | 0 <= i < |s| :: IsDigit(s[i]) }

  function DigitChar(d: nat): (c: char)
    requires d < 10
    ensures IsDigit(c) && c as int - '0' as int == d
  {
    (d + '0' as int) as char
  }

  /** str(n) for a non-negative int. */
  function NatToString(n: nat): (s: string)
    ensures 1 <= |s| && AllDigits(s)
    ensures s[0] == '0' ==> n == 0
  {
    if n < 10 then [DigitChar(n)] else NatToString(n / 10) + [DigitChar(n % 10)]
  }

  /** str(i) for any int. */
  function IntToString(i: int): string {
    if i < 0 then "-" + NatToString(-i) else NatToString(i)
  }

  /** int(s) for a string of ASCII digits ("" reads as 0 here; callers never pass it to int()). */
  function DigitsValue(s: string): nat
    requires AllDigits(s)
  {
    if s == [] then 0 else DigitsValue(s[..|s| - 1]) * 10 + (s[|s| - 1] as int - '0' as int)
  }

  function Zeros(k: nat): (z: string)
    ensures |z| == k && AllDigits(z) && forall i | 0 <= i < k :: z[i] == '0'
  {
    if k == 0 then "" else "0" + Zeros(k - 1)
  }

  /** Left-pad with '0' to at least `width` characters. */
  function ZeroPad(s: string, width: nat): (r: string)
    ensures |r| == if |s| >= width then |s| else width
  {
    if |s| >= width then s else Zeros(width - |s|) + s
  }

  /** Python's format(n, '0<width>d'): the zero padding goes after the sign. */
  function FormatZeroPadded(n: int, width: nat): (r: string)
  {
    if n >= 0 then ZeroPad(NatToString(n), width)
    else "-" + ZeroPad(NatToString(-n), if width == 0 then 0 else width - 1)
  }

  /** Python's str.zfill(width): pad with '0' on the left, after a leading sign. */
  function ZFill(s: string, width: nat): (r: string)
  {
    if |s| >= width then s
    else if s != [] && (s[0] == '+' || s[0] == '-') then [s[0]] + Zeros(width - |s|) + s[1..]
    else Zeros(width - |s|) + s
  }

  function Pow10(k: nat): (p: nat)
    ensures p >= 1
  {
    if k == 0 then 1 else 10 * Pow10(k - 1)
  }

  lemma {:induction false} DigitsValueOfNatToString(n: nat)
    ensures DigitsValue(NatToString(n)) == n
  {
    if n >= 10 {
      var s := NatToString(n);
      assert s[..|s| - 1] == NatToString(n / 10);
      DigitsValueOfNatToString(n / 10);
    }
  }

  lemma {:induction false} DigitsValueOfAppend(s: string, t: string)
    requires AllDigits(s) && AllDigits(t)
    ensures AllDigits(s + t)
    ensures DigitsValue(s + t) == DigitsValue(s) * Pow10(|t|) + DigitsValue(t)
    decreases |t|
  {
    assert AllDigits(s + t) by {
      forall i | 0 <= i < |s + t| ensures IsDigit((s + t)[i]) {
        if i >= |s| { assert (s + t)[i] == t[i - |s|]; }
      }
    }
    if t == [] {
      assert s + t == s;
    } else {
      var t' := t[..|t| - 1];
      var d := t[|t| - 1] as int - '0' as int;
      var u := s + t;
      assert u[..|u| - 1] == s + t';
      DigitsValueOfAppend(s, t');
      assert DigitsValue(u) == DigitsValue(s + t') * 10 + d;
      assert DigitsValue(t) == DigitsValue(t') * 10 + d;
      assert Pow10(|t|) == Pow10(|t'|) * 10;
      ShiftDigit(DigitsValue(s), Pow10(|t'|), DigitsValue(t'), d);
    }
  }

  lemma ShiftDigit(a: int, p: int, b: int, d: int)
    ensures (a * p + b) * 10 + d == a * (p * 10) + (b * 10 + d)
  {
  }

  lemma {:induction false} DigitsValueOfZeros(k: nat)
    ensures DigitsValue(Zeros(k)) == 0
  {
    if k > 0 {
      assert Zeros(k)[..k - 1] == Zeros(k - 1);
      DigitsValueOfZeros(k - 1);
    }
  }

  /** Leading zeros do not change the value of a digit string. */
  lemma DigitsValueOfZeroPad(s: string, width: nat)
    requires AllDigits(s)
    ensures AllDigits(ZeroPad(s, width)) && DigitsValue(ZeroPad(s, width)) == DigitsValue(s)
  {
    if |s| < width {
      DigitsValueOfAppend(Zeros(width - |s|), s);
      DigitsValueOfZeros(width - |s|);
    }
  }

  lemma {:induction false} DigitsValueBound(s: string)
    requires AllDigits(s)
    ensures DigitsValue(s) < Pow10(|s|)
    decreases |s|
  {
    if s != [] { DigitsValueBound(s[..|s| - 1]); }
  }

  lemma {:induction false} NatToStringLength(n: nat, k: nat)
    requires n < Pow10(k)
    ensures |NatToString(n)| <= k || (k == 0 && n == 0)
  {
    if n >= 10 {
      NatToStringLength(n / 10, k - 1);
    }
  }

  /** Two digit strings of the same length and the same value are equal. */
  lemma {:induction false} DigitStringsEqual(s: string, t: string)
    requires AllDigits(s) && AllDigits(t) && |s| == |t|
    requires DigitsValue(s) == DigitsValue(t)
    ensures s == t
    decreases |s|
  {
    if s != [] {
      var n := |s|;
      var a, b := s[n - 1] as int - '0' as int, t[n - 1] as int - '0' as int;
      assert DigitsValue(s) % 10 == a && DigitsValue(t) % 10 == b;
      assert DigitsValue(s[..n - 1]) == DigitsValue(s) / 10;
      DigitStringsEqual(s[..n - 1], t[..n - 1]);
      assert s == s[..n - 1] + [s[n - 1]] && t == t[..n - 1] + [t[n - 1]];
    }
  }

  /** The rendering starts with '-' exactly for negative numbers. */
  lemma FormatZeroPaddedSign(n: int, width: nat)
    ensures |FormatZeroPadded(n, width)| >= 1
    ensures FormatZeroPadded(n, width)[0] == '-' <==> n < 0
  {
    if n >= 0 {
      DigitsValueOfZeroPad(NatToString(n), width);
      assert IsDigit(FormatZeroPadded(n, width)[0]);
    }
  }

  /** `format(n, '0<width>d')` is injective: distinct numbers never share a rendering. */
  lemma FormatZeroPaddedInjective(m: int, n: int, width: nat)
    requires FormatZeroPadded(m, width) == FormatZeroPadded(n, width)
    ensures m == n
  {
    FormatZeroPaddedSign(m, width);
    FormatZeroPaddedSign(n, width);
    if m >= 0 {
      NonNegativeRenderingValue(m, width);
      NonNegativeRenderingValue(n, width);
    } else {
      var w := if width == 0 then 0 else width - 1;
      NonNegativeRenderingValue(-m, w);
      NonNegativeRenderingValue(-n, w);
      assert FormatZeroPadded(-m, w) == FormatZeroPadded(m, width)[1..];
    }
  }

  lemma NonNegativeRenderingValue(n: nat, width: nat)
    ensures AllDigits(FormatZeroPadded(n, width))
    ensures DigitsValue(FormatZeroPadded(n, width)) == n
  {
    DigitsValueOfZeroPad(NatToString(n), width);
    DigitsValueOfNatToString(n);
  }

  /** A digit string of at most `width` digits zfills to the zero-padded rendering of its value. */
  lemma ZFillDigitsIsFormat(s: string, width: nat)
    requires AllDigits(s) && |s| <= width && 1 <= width
    ensures ZFill(s, width) == FormatZeroPadded(DigitsValue(s), width)
  {
    var v := DigitsValue(s);
    ZFillOfDigits(s, width);
    RenderingFits(s, width);
    var lhs, rhs := ZeroPad(s, width), ZeroPad(NatToString(v), width);
    DigitsValueOfZeroPad(s, width);
    DigitsValueOfZeroPad(NatToString(v), width);
    DigitsValueOfNatToString(v);
    DigitStringsEqual(lhs, rhs);
  }

  /** zfill on a digit string (no sign) is plain left padding. */
  lemma ZFillOfDigits(s: string, width: nat)
    requires AllDigits(s)
    ensures ZFill(s, width) == ZeroPad(s, width)
  {
    if |s| < width && s != [] { assert IsDigit(s[0]); }
  }

  /** The value of a digit string needs no more digits than the string has (one for zero). */
  lemma RenderingFits(s: string, width: nat)
    requires AllDigits(s) && |s| <= width && 1 <= width
    ensures |NatToString(DigitsValue(s))| <= width
  {
    DigitsValueBound(s);
    NatToStringLength(DigitsValue(s), |s|);
  }

  // ---------------------------------------------------------------------------
  // Characters and strings

  /** The characters Python's str.isspace() accepts; str.strip() and the regex class \s use this set. */
  predicate IsPySpace(c: char) {
    || c == ' ' || ('\t' <= c <= '\r') || ('\U{1c}' <= c <= '\U{1f}')
    || c == '\U{85}' || c == '\U{a0}' || c == '\U{1680}' || ('\U{2000}' <= c <= '\U{200a}')
    || c == '\U{2028}' || c == '\U{2029}' || c == '\U{202f}' || c == '\U{205f}' || c == '\U{3000}'
  }

  function LowerChar(c: char): char {
    if 'A' <= c <= 'Z' then (c as int + 32) as char else c
  }

  /** str.lower() on the ASCII letters; other characters are kept. */
  function Lower(s: string): (r: string)
    ensures |r| == |s| && forall i | 0 <= i < |s| :: r[i] == LowerChar(s[i])
  {
    if s == [] then [] else [LowerChar(s[0])] + Lower(s[1..])
  }

  function StripLeft(s: string, drop: char -> bool): (r: string)
    ensures |r| <= |s|
  {
    if s != [] && drop(s[0]) then StripLeft(s[1..], drop) else s
  }

  function StripRight(s: string, drop: char -> bool): (r: string)
    ensures |r| <= |s|
  {
    if s != [] && drop(s[|s| - 1]) then StripRight(s[..|s| - 1], drop) else s
  }

  /** str.strip(chars): drop the characters satisfying `drop` at both ends. */
  function Strip(s: string, drop: char -> bool): (r: string)
    ensures |r| <= |s|
  {
    StripRight(StripLeft(s, drop), drop)
  }

  /** lstrip removes a prefix made only of dropped characters and stops at a kept one. */
  lemma {:induction false} StripLeftSpec(s: string, drop: char -> bool)
    ensures var r := StripLeft(s, drop);
      && r == s[|s| - |r|..]
      && (r == [] || !drop(r[0]))
      && forall i | 0 <= i < |s| - |r| :: drop(s[i])
  {
    if s != [] && drop(s[0]) {
      StripLeftSpec(s[1..], drop);
      var r := StripLeft(s, drop);
      forall i | 0 <= i < |s| - |r| ensures drop(s[i]) {
        if i > 0 { assert s[i] == s[1..][i - 1]; }
      }
    }
  }

  /** rstrip removes a suffix made only of dropped characters and stops at a kept one. */
  lemma {:induction false} StripRightSpec(s: string, drop: char -> bool)
    ensures var r := StripRight(s, drop);
      && r == s[..|r|]
      && (r == [] || !drop(r[|r| - 1]))
      && forall i | |r| <= i < |s| :: drop(s[i])
  {
    if s != [] && drop(s[|s| - 1]) {
      StripRightSpec(s[..|s| - 1], drop);
    }
  }

  /** strip leaves a middle part of the string that neither starts nor ends with a dropped character. */
  lemma StripSpec(s: string, drop: char -> bool)
    ensures var r := Strip(s, drop);
      && (r == [] || (!drop(r[0]) && !drop(r[|r| - 1])))
      && OccursAt(s, r, |s| - |StripLeft(s, drop)|)
  {
    var l := StripLeft(s, drop);
    StripLeftSpec(s, drop);
    StripRightSpec(l, drop);
    var r := Strip(s, drop);
    var i := |s| - |l|;
    assert r == l[..|r|] == s[i..i + |r|];
    assert OccursAt(s, r, i);
    if r != [] {
      assert r[0] == l[0];
    }
  }

  predicate StartsWith(s: string, prefix: string) {
    |prefix| <= |s| && s[..|prefix|] == prefix
  }

  predicate OccursAt(hay: string, needle: string, i: nat) {
    i + |needle| <= |hay| && hay[i..i + |needle|] == needle
  }

  /** Python's `needle in hay` on strings. */
  predicate Contains(hay: string, needle: string) {
    exists i: nat | i <= |hay| :: OccursAt(hay, needle, i)
  }

  /** str.split(sep) with a one-character separator. */
  function Split(s: string, sep: char): (parts: seq<string>)
    ensures |parts| >= 1
  {
    if s == [] then [""]
    else if s[0] == sep then [""] + Split(s[1..], sep)
    else var rest := Split(s[1..], sep); [[s[0]] + rest[0]] + rest[1..]
  }

  lemma {:induction false} SplitAtFirst(a: string, b: string, sep: char)
    requires sep !in a
    ensures Split(a + [sep] + b, sep) == [a] + Split(b, sep)
  {
    if a != [] {
      assert (a + [sep] + b)[1..] == a[1..] + [sep] + b;
      SplitAtFirst(a[1..], b, sep);
      assert [a[0]] + a[1..] == a;
    } else {
      assert (a + [sep] + b)[1..] == b;
    }
  }

  /** str.replace(old, new) for one-character arguments. */
  function ReplaceChar(s: string, from: char, to: char): (r: string)
    ensures |r| == |s|
    ensures forall i | 0 <= i < |s| :: r[i] == if s[i] == from then to else s[i]
  {
    if s == [] then [] else [if s[0] == from then to else s[0]] + ReplaceChar(s[1..], from, to)
  }

  function Join(parts: seq<string>, sep: string): string {
    if parts == [] then "" else if |parts| == 1 then parts[0] else parts[0] + sep + Join(parts[1..], sep)
  }

  // ---------------------------------------------------------------------------
  // Sequences

  /** `a` is `b` with some elements left out, the rest in their order. */
  predicate IsSubsequence<T(==)>(a: seq<T>, b: seq<T>)
    decreases |b|
  {
    a == [] || (b != [] && ((a[0] == b[0] && IsSubsequence(a[1..], b[1..])) || IsSubsequence(a, b[1..])))
  }

  lemma SubsequenceOfTail<T>(a: seq<T>, b: seq<T>)
    requires b != [] && IsSubsequence(a, b[1..])
    ensures IsSubsequence(a, b)
  {
  }

  lemma {:induction false} SubsequenceTransitive<T>(a: seq<T>, b: seq<T>, c: seq<T>)
    requires IsSubsequence(a, b) && IsSubsequence(b, c)
    ensures IsSubsequence(a, c)
    decreases |c|
  {
    if a != [] {
      if IsSubsequence(b, c[1..]) {
        SubsequenceTransitive(a, b, c[1..]);
      } else if a[0] == b[0] && IsSubsequence(a[1..], b[1..]) {
        SubsequenceTransitive(a[1..], b[1..], c[1..]);
      } else {
        SubsequenceTransitive(a, b[1..], c[1..]);
      }
    }
  }

  lemma {:induction false} SubsequenceMembers<T>(a: seq<T>, b: seq<T>)
    requires IsSubsequence(a, b)
    ensures forall x | x in a :: x in b
    decreases |b|
  {
    if a != [] {
      if a[0] == b[0] && IsSubsequence(a[1..], b[1..]) {
        SubsequenceMembers(a[1..], b[1..]);
        assert forall x | x in a :: x == a[0] || x in a[1..];
      } else {
        SubsequenceMembers(a, b[1..]);
      }
    }
  }
}

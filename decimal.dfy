/** Decimal text of integers, as the record fields produce it with
    `std::format`/`std::to_string` and read it back with `std::stoll`. */
module Decimal {
  import opened Failures

  /** The range of `long long`, the result type of `std::stoll`. */
  const LLONG_MIN: int := -0x8000_0000_0000_0000
  const LLONG_MAX: int := 0x7FFF_FFFF_FFFF_FFFF

  predicate IsDigit(c: char) { '0' <= c <= '9' }

  predicate AllDigits(s: string) { forall i :: 0 <= i < |s| ==> IsDigit(s[i]) }

  /** The whitespace `std::isspace` recognises in the "C" locale. */
  predicate IsSpace(c: char) { c == ' ' || 9 <= c as int <= 13 }

  function DigitChar(d: nat): (c: char)
    requires d < 10
    ensures IsDigit(c)
  {
    ('0' as int + d) as char
  }

  function DigitValue(c: char): (d: nat)
    requires IsDigit(c)
    ensures d < 10 && DigitChar(d) == c
  {
    c as int - '0' as int
  }

  function Pow10(k: nat): (p: nat)
    ensures p >= 1
  {
    if k == 0 then 1 else 10 * Pow10(k - 1)
  }

  function Repeat(c: char, n: nat): string
  {
    seq(n, _ => c)
  }

  /** The base-10 numeral of `n` without leading zeros ("0" for zero). */
  function NatToText(n: nat): (r: string)
    ensures 1 <= |r| && AllDigits(r)
    ensures |r| > 1 ==> r[0] != '0'
  {
    if n < 10 then [DigitChar(n)] else NatToText(n / 10) + [DigitChar(n % 10)]
  }

  /** The text `std::format("{}", x)` gives an integer: a '-' sign, then the numeral. */
  function IntToText(x: int): string
  {
    if x < 0 then "-" + NatToText(-x) else NatToText(x)
  }

  /** `std::format("{:F>W}", ...)`: the text right-aligned in a field `width` codepoints
      wide, filled on the left with `fill`; a longer text is left as it is. */
  function AlignRight(s: string, fill: char, width: int): (r: string)
    ensures |r| == if |s| < width then width else |s|
  {
    if |s| < width then Repeat(fill, width - |s|) + s else s
  }

  /** The aligned text ends with the original text, and everything before it is fill. */
  lemma AlignRightShape(s: string, fill: char, width: int)
    ensures var r := AlignRight(s, fill, width);
            r[|r| - |s|..] == s && forall i :: 0 <= i < |r| - |s| ==> r[i] == fill
  {
    var r := AlignRight(s, fill, width);
    if |s| < width {
      assert r[|r| - |s|..] == s;
    }
  }

  /** The value of a string of decimal digits, most significant first. */
  function DigitsValue(s: string): nat
    requires AllDigits(s)
  {
    if s == [] then 0 else 10 * DigitsValue(s[..|s| - 1]) + DigitValue(s[|s| - 1])
  }

  lemma {:induction false} NatToTextValue(n: nat)
    ensures DigitsValue(NatToText(n)) == n
  {
    if n >= 10 {
      var t := NatToText(n / 10) + [DigitChar(n % 10)];
      assert t[..|t| - 1] == NatToText(n / 10);
      NatToTextValue(n / 10);
    }
  }

  /** A numeral of `w` digits has a value below 10^w. */
  lemma {:induction false} DigitsValueBound(s: string)
    requires AllDigits(s)
    ensures DigitsValue(s) < Pow10(|s|)
  {
    if s != [] {
      DigitsValueBound(s[..|s| - 1]);
    }
  }

  /** The numeral of `n` fits `w >= 1` columns exactly when `n < 10^w`. */
  lemma {:induction false} NatToTextWidth(n: nat, w: nat)
    requires 1 <= w
    ensures |NatToText(n)| <= w <==> n < Pow10(w)
  {
    if n >= 10 {
      if w == 1 {
        assert |NatToText(n)| >= 2;
      } else {
        NatToTextWidth(n / 10, w - 1);
      }
    }
  }

  /** Leading zeros do not change the value of a numeral. */
  lemma {:induction false} LeadingZerosValue(z: nat, s: string)
    requires AllDigits(s)
    ensures AllDigits(Repeat('0', z) + s)
    ensures DigitsValue(Repeat('0', z) + s) == DigitsValue(s)
  {
    var t := Repeat('0', z) + s;
    if s == [] {
      assert t == Repeat('0', z);
      if z > 0 {
        assert t[..|t| - 1] == Repeat('0', z - 1) + [];
        LeadingZerosValue(z - 1, []);
      }
    } else {
      assert t[..|t| - 1] == Repeat('0', z) + s[..|s| - 1];
      LeadingZerosValue(z, s[..|s| - 1]);
    }
  }

  /** Zero-padding `n` to `w` columns, as "{:0>W}" does, gives exactly `w` digits whose
      value is `n`, whenever `n` has at most `w` digits. */
  lemma ZeroPaddedValue(n: nat, w: nat)
    requires 1 <= w && n < Pow10(w)
    ensures |AlignRight(IntToText(n), '0', w)| == w
    ensures AllDigits(AlignRight(IntToText(n), '0', w))
    ensures DigitsValue(AlignRight(IntToText(n), '0', w)) == n
  {
    var t := NatToText(n);
    NatToTextWidth(n, w);
    NatToTextValue(n);
    if |t| < w {
      LeadingZerosValue(w - |t|, t);
    }
  }

  /** The length of the longest prefix of `s` whose codepoints all satisfy `p`. */
  function PrefixWhile(s: string, p: char -> bool): (k: nat)
    ensures k <= |s|
    ensures forall i :: 0 <= i < k ==> p(s[i])
    ensures k < |s| ==> !p(s[k])
  {
    if s == [] || !p(s[0]) then 0 else 1 + PrefixWhile(s[1..], p)
  }

  /** `std::stoll(s)` in base 10: skip leading whitespace, take an optional sign and the
      longest run of digits after it; no digit is std::invalid_argument, a value outside
      `long long` is std::out_of_range. Text after the digits is ignored. */
  function StoLL(s: string): (r: Result<int>)
  {
    var t := s[PrefixWhile(s, IsSpace)..];
    if |t| > 0 && t[0] == '-' then SignedValue(t[1..], true)
    else if |t| > 0 && t[0] == '+' then SignedValue(t[1..], false)
    else SignedValue(t, false)
  }

  /** The conversion after the sign: the leading digits of `u`, negated if `negative`. */
  function SignedValue(u: string, negative: bool): (r: Result<int>)
  {
    var d := PrefixWhile(u, IsDigit);
    if d == 0 then Err(NoConversion)
    else
      var m: int := DigitsValue(u[..d]);
      var v := if negative then -m else m;
      if v < LLONG_MIN || LLONG_MAX < v then Err(NumberOutOfRange) else Ok(v)
  }

  /** On a chunk of 1 to 18 digits, `std::stoll` returns the chunk's base-10 value. */
  lemma StoLLDigits(s: string)
    requires 1 <= |s| <= 18 && AllDigits(s)
    ensures StoLL(s) == Ok(DigitsValue(s))
  {
    assert !IsSpace(s[0]);
    assert s[PrefixWhile(s, IsSpace)..] == s;
    PrefixWhileAll(s, IsDigit);
    assert s[..PrefixWhile(s, IsDigit)] == s;
    DigitsValueBound(s);
    Pow10Monotone(|s|, 18);
    Pow10Of18();
    assert SignedValue(s, false) == Ok(DigitsValue(s));
  }

  lemma Pow10Of18()
    ensures Pow10(18) == 1_000_000_000_000_000_000
  {
    assert Pow10(3) == 1_000;
    assert Pow10(6) == 1_000_000;
    assert Pow10(9) == 1_000_000_000;
    assert Pow10(12) == 1_000_000_000_000;
    assert Pow10(15) == 1_000_000_000_000_000;
  }

  lemma {:induction false} PrefixWhileAll(s: string, p: char -> bool)
    requires forall i :: 0 <= i < |s| ==> p(s[i])
    ensures PrefixWhile(s, p) == |s|
  {
    if s != [] {
      PrefixWhileAll(s[1..], p);
    }
  }

  lemma {:induction false} Pow10Monotone(a: nat, b: nat)
    requires a <= b
    ensures Pow10(a) <= Pow10(b)
  {
    if a < b {
      Pow10Monotone(a, b - 1);
    }
  }

  /** `std::format("{:0>W}", n)`: the decimal text of `n` zero-filled to `w` columns. */
  function ZeroPadded(n: int, w: nat): string
  {
    AlignRight(IntToText(n), '0', w)
  }

  /** Reading back a zero-padded field: the `w`-column rendering of an `n` with at most
      `w <= 18` digits is `w` digits, and `std::stoll` of it is `n`. */
  lemma ZeroPaddedReadBack(n: nat, w: nat)
    requires 1 <= w <= 18 && n < Pow10(w)
    ensures |ZeroPadded(n, w)| == w && AllDigits(ZeroPadded(n, w))
    ensures StoLL(ZeroPadded(n, w)) == Ok(n)
  {
    ZeroPaddedValue(n, w);
    StoLLDigits(AlignRight(IntToText(n), '0', w));
  }

  /** Two numerals side by side are all digits. */
  lemma DigitsConcat(a: string, b: string)
    requires AllDigits(a) && AllDigits(b)
    ensures AllDigits(a + b)
  {
  }

  /** Zero rendered in `w >= 1` zero-filled columns is `w` zeros. */
  lemma ZeroPaddedZero(w: nat)
    requires 1 <= w
    ensures ZeroPadded(0, w) == Repeat('0', w)
  {
    assert IntToText(0) == "0";
    assert Repeat('0', w - 1) + "0" == Repeat('0', w);
  }

  /** A zero-filled field is at least `w` columns wide, and exactly `w` when `n < 10^w`. */
  lemma FieldWidth(n: nat, w: nat)
    requires 1 <= w
    ensures |ZeroPadded(n, w)| >= w
    ensures |ZeroPadded(n, w)| == w <==> n < Pow10(w)
  {
    NatToTextWidth(n, w);
  }

  /** A zero-filled field is at least `w` columns wide. It is exactly `w` digits if and
      only if `0 <= n < 10^w`: a negative value keeps its '-' sign. */
  lemma ZeroPaddedDigits(n: int, w: nat)
    requires 1 <= w
    ensures |ZeroPadded(n, w)| >= w
    ensures |ZeroPadded(n, w)| == w && AllDigits(ZeroPadded(n, w)) <==> 0 <= n < Pow10(w)
  {
    if n < 0 {
      NegativePadded(n, w);
    } else {
      FieldWidth(n, w);
      if n < Pow10(w) {
        ZeroPaddedValue(n, w);
      }
    }
  }

  /** A negative value keeps its '-' sign inside its zero-filled field. */
  lemma NegativePadded(n: int, w: nat)
    requires n < 0
    ensures |ZeroPadded(n, w)| >= w && !AllDigits(ZeroPadded(n, w))
  {
    var s := IntToText(n);
    var r := ZeroPadded(n, w);
    AlignRightShape(s, '0', w);
    assert s[0] == '-';
    assert r[|r| - |s|] == '-';
  }

  /** Two texts side by side are all digits exactly when each of them is. */
  lemma DigitsSplit(a: string, b: string)
    ensures AllDigits(a + b) <==> AllDigits(a) && AllDigits(b)
  {
    if AllDigits(a + b) {
      assert forall i :: 0 <= i < |a| ==> a[i] == (a + b)[i];
      assert forall i :: 0 <= i < |b| ==> b[i] == (a + b)[|a| + i];
    }
  }

  /** "{}" on a non-negative value is the same text as "{:0>1}". */
  lemma PlainIsPadded(n: nat)
    ensures IntToText(n) == ZeroPadded(n, 1)
  {
  }
}

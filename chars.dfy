/**
 * Character classes and positional numerals shared by both codecs.
 *
 * The source relies on the regular-expression classes `\d`, `[0-9a-fA-F]` and the
 * word-boundary class `\w`, on `parseInt(s, 10)` / `parseInt(s, 16)`, on
 * `Number.prototype.toString(16)` and `String(n)`, and on `padStart`. All of them
 * are modelled here on mathematical integers.
 */
module Chars {

  /** `\d` in a JavaScript regular expression without the `u` flag: ASCII digits only. */
  predicate IsDigit(c: char) {
    '0' <= c <= '9'
  }

  /** The class `[0-9a-fA-F]`. */
  predicate IsHexDigit(c: char) {
    IsDigit(c) || 'a' <= c <= 'f' || 'A' <= c <= 'F'
  }

  /** The characters `[0-9a-fA-F]` lists, range by range. */
  const DecimalRange: string := "0123456789"
  const LowerHexRange: string := "abcdef"
  const UpperHexRange: string := "ABCDEF"
  const HexClass: string := DecimalRange + LowerHexRange + UpperHexRange

  /** IsHexDigit is membership in the listed class. */
  lemma HexClassMember(c: char)
    ensures IsHexDigit(c) <==> c in HexClass
  {
    RangeMember(c, '0', DecimalRange);
    RangeMember(c, 'a', LowerHexRange);
    RangeMember(c, 'A', UpperHexRange);
    assert c in HexClass <==> c in DecimalRange || c in LowerHexRange || c in UpperHexRange;
  }

  /** A run of consecutive characters holds exactly the characters of its range. */
  lemma RangeMember(c: char, first: char, run: string)
    requires forall i :: 0 <= i < |run| ==> run[i] as int == first as int + i
    ensures c in run <==> first as int <= c as int < first as int + |run|
  {
    if first as int <= c as int < first as int + |run| {
      assert run[c as int - first as int] == c;
    }
  }

  /** `\w`, the class that decides where `\b` sits: `[A-Za-z0-9_]`. */
  predicate IsWordChar(c: char) {
    IsDigit(c) || 'a' <= c <= 'z' || 'A' <= c <= 'Z' || c == '_'
  }

  predicate IsQuote(c: char) {
    c == '"' || c == '\''
  }

  predicate AllDigits(s: string) {
    forall i :: 0 <= i < |s| ==> IsDigit(s[i])
  }

  predicate AllHex(s: string) {
    forall i :: 0 <= i < |s| ==> IsHexDigit(s[i])
  }

  lemma AllHexConcat(a: string, b: string)
    requires AllHex(a) && AllHex(b)
    ensures AllHex(a + b)
  {
    forall i | 0 <= i < |a + b| ensures IsHexDigit((a + b)[i]) {
      if i >= |a| { assert (a + b)[i] == b[i - |a|]; }
    }
  }

  /** A string of decimal digits holds no letter. */
  lemma NoLetterInDigits(s: string, c: char)
    requires AllDigits(s) && !IsDigit(c)
    ensures c !in s
  {
  }

  /** A valid base for the numerals used here: decimal and hexadecimal, and anything in between. */
  predicate IsBase(base: nat) {
    2 <= base <= 16
  }

  /** The value of one hexadecimal digit, either case. */
  function HexDigitValue(c: char): (v: nat)
    requires IsHexDigit(c)
    ensures v < 16
    ensures IsDigit(c) <==> v < 10
  {
    if IsDigit(c) then (c - '0') as nat
    else if 'a' <= c <= 'f' then (c - 'a') as nat + 10
    else (c - 'A') as nat + 10
  }

  /** A digit of the given base. For base 10 this is exactly `\d`, for base 16 `[0-9a-fA-F]`. */
  predicate IsDigitIn(c: char, base: nat) {
    IsHexDigit(c) && HexDigitValue(c) < base
  }

  predicate AllDigitsIn(s: string, base: nat) {
    forall i :: 0 <= i < |s| ==> IsDigitIn(s[i], base)
  }

  lemma DecimalDigits(s: string)
    ensures AllDigitsIn(s, 10) <==> AllDigits(s)
  {
  }

  lemma HexDigits(s: string)
    ensures AllDigitsIn(s, 16) <==> AllHex(s)
  {
  }

  function Pow(base: nat, e: nat): (p: nat)
    requires base >= 1
    ensures p >= 1
  {
    if e == 0 then 1 else base * Pow(base, e - 1)
  }

  /** The value of a numeral, most significant digit first, as `parseInt(s, base)` reads it. */
  function Numeral(s: string, base: nat): nat
    requires AllDigitsIn(s, base)
  {
    if s == [] then 0 else Numeral(s[..|s| - 1], base) * base + HexDigitValue(s[|s| - 1])
  }

  function DecimalValue(s: string): nat
    requires AllDigits(s)
  {
    Numeral(s, 10)
  }

  function HexValue(s: string): nat
    requires AllHex(s)
  {
    Numeral(s, 16)
  }

  /** The lowercase digit of value d, as `toString` writes it. */
  function DigitChar(d: nat): (c: char)
    requires d < 16
    ensures IsHexDigit(c) && HexDigitValue(c) == d
    ensures !('A' <= c <= 'F')
  {
    if d < 10 then ('0' as int + d) as char else ('a' as int + d - 10) as char
  }

  /**
   * `n.toString(base)`: the shortest numeral of n, in lowercase. It is the numeral
   * whose value is n and which has no leading zero unless n is 0.
   */
  function ToNumeral(n: nat, base: nat): (s: string)
    requires IsBase(base)
    ensures |s| >= 1 && AllDigitsIn(s, base)
    ensures Numeral(s, base) == n
    ensures |s| == 1 || s[0] != '0'
    ensures forall i :: 0 <= i < |s| ==> !('A' <= s[i] <= 'F')
    decreases n
  {
    if n < base then [DigitChar(n)]
    else
      DivFacts(n, base);
      var s := ToNumeral(n / base, base) + [DigitChar(n % base)];
      assert s[..|s| - 1] == ToNumeral(n / base, base);
      s
  }

  /** `String(n)` for a non-negative integer. */
  function DecimalString(n: nat): (s: string)
    ensures |s| >= 1 && AllDigits(s) && DecimalValue(s) == n
    ensures |s| == 1 || s[0] != '0'
  {
    DecimalDigits(ToNumeral(n, 10));
    ToNumeral(n, 10)
  }

  lemma Pow16Eight()
    ensures Pow(16, 8) == 0x1_0000_0000
  {
  }

  /** `n.toString(16)` for a non-negative integer. */
  function HexString(n: nat): (s: string)
    ensures |s| >= 1 && AllHex(s) && HexValue(s) == n
    ensures |s| == 1 || s[0] != '0'
    ensures forall i :: 0 <= i < |s| ==> !('A' <= s[i] <= 'F')
  {
    HexDigits(ToNumeral(n, 16));
    ToNumeral(n, 16)
  }

  /** c repeated k times. */
  function Repeat(c: char, k: nat): (r: string)
    ensures |r| == k && forall i :: 0 <= i < k ==> r[i] == c
  {
    if k == 0 then [] else [c] + Repeat(c, k - 1)
  }

  /** `s.padStart(width, [c])`: c repeated in front of s up to width; never shortens s. */
  function PadLeft(s: string, width: nat, c: char): (r: string)
    ensures |r| == if |s| >= width then |s| else width
    ensures r[|r| - |s|..] == s
    ensures forall i :: 0 <= i < |r| - |s| ==> r[i] == c
  {
    if |s| >= width then s else Repeat(c, width - |s|) + s
  }

  lemma {:induction false} NumeralBound(s: string, base: nat)
    requires IsBase(base) && AllDigitsIn(s, base)
    ensures Numeral(s, base) < Pow(base, |s|)
  {
    if s != [] {
      var p := s[..|s| - 1];
      NumeralBound(p, base);
      StepBound(Numeral(p, base), Pow(base, |p|), HexDigitValue(s[|s| - 1]), base);
    }
  }

  lemma StepBound(v: nat, p: nat, d: nat, base: nat)
    requires v < p && d < base
    ensures v * base + d < base * p
  {
    assert v * base <= (p - 1) * base;
  }

  lemma DivBound(n: nat, base: nat, p: nat)
    requires base >= 1 && n < base * p
    ensures n / base < p
  {
  }

  lemma DivFacts(n: nat, base: nat)
    requires 2 <= base <= n
    ensures 0 < n / base < n && n % base < base && (n / base) * base + n % base == n
  {
  }

  /** Leading zeros do not change a numeral's value. */
  lemma {:induction false} LeadingZeros(z: nat, s: string, base: nat)
    requires IsBase(base) && AllDigitsIn(s, base)
    ensures AllDigitsIn(Repeat('0', z) + s, base)
    ensures Numeral(Repeat('0', z) + s, base) == Numeral(s, base)
  {
    var zs := Repeat('0', z);
    if s == [] {
      assert zs + s == zs;
      AllZeros(z, base);
    } else {
      var p := s[..|s| - 1];
      LeadingZeros(z, p, base);
      assert (zs + s)[..|zs + s| - 1] == zs + p;
    }
  }

  lemma {:induction false} AllZeros(z: nat, base: nat)
    requires IsBase(base)
    ensures AllDigitsIn(Repeat('0', z), base)
    ensures Numeral(Repeat('0', z), base) == 0
  {
    if z > 0 {
      AllZeros(z - 1, base);
      assert Repeat('0', z)[..z - 1] == Repeat('0', z - 1);
    }
  }

  /** A numeral without a leading zero is no longer than any width whose power bounds its value. */
  lemma {:induction false} ToNumeralLength(n: nat, base: nat, k: nat)
    requires IsBase(base) && k >= 1 && n < Pow(base, k)
    ensures |ToNumeral(n, base)| <= k
    decreases n
  {
    if n >= base {
      DivFacts(n, base);
      var q := n / base;
      assert |ToNumeral(n, base)| == |ToNumeral(q, base)| + 1;
      assert Pow(base, k) == base * Pow(base, k - 1);
      DivBound(n, base, Pow(base, k - 1));
      ToNumeralLength(q, base, k - 1);
    }
  }

  /**
   * The numeral of n padded with zeros to `width` digits reads back as n, and is
   * exactly `width` long when n fits in that many digits.
   */
  lemma PaddedNumeral(n: nat, base: nat, width: nat)
    requires IsBase(base)
    ensures AllDigitsIn(PadLeft(ToNumeral(n, base), width, '0'), base)
    ensures Numeral(PadLeft(ToNumeral(n, base), width, '0'), base) == n
    ensures width >= 1 && n < Pow(base, width) ==> |PadLeft(ToNumeral(n, base), width, '0')| == width
  {
    var s := ToNumeral(n, base);
    if |s| < width {
      LeadingZeros(width - |s|, s, base);
    }
    if width >= 1 && n < Pow(base, width) {
      ToNumeralLength(n, base, width);
    }
  }

  lemma Regroup(x: nat, p: nat, y: nat, base: nat)
    ensures (x * p + y) * base == x * (base * p) + y * base
  {
  }

  /** The value of a numeral, split at any point. */
  lemma {:induction false} NumeralConcat(a: string, b: string, base: nat)
    requires IsBase(base) && AllDigitsIn(a, base) && AllDigitsIn(b, base)
    ensures AllDigitsIn(a + b, base)
    ensures Numeral(a + b, base) == Numeral(a, base) * Pow(base, |b|) + Numeral(b, base)
  {
    if b != [] {
      var p := b[..|b| - 1];
      assert (a + b)[..|a + b| - 1] == a + p;
      NumeralConcat(a, p, base);
      assert Numeral(a + b, base) == Numeral(a + p, base) * base + HexDigitValue(b[|b| - 1]);
      assert Numeral(b, base) == Numeral(p, base) * base + HexDigitValue(b[|b| - 1]);
      assert Pow(base, |b|) == base * Pow(base, |p|);
      var A, P, N, d := Numeral(a, base), Pow(base, |p|), Numeral(p, base), HexDigitValue(b[|b| - 1]);
      assert Numeral(a + p, base) == A * P + N;
      Regroup(A, P, N, base);
      assert (A * P + N) * base + d == A * (base * P) + (N * base + d);
    } else {
      assert a + b == a;
    }
  }

  /** The last w decimal digits of n, most significant first. */
  function FixedDecimal(n: nat, w: nat): (s: string)
    ensures |s| == w
  {
    if w == 0 then [] else FixedDecimal(n / 10, w - 1) + [DigitChar(n % 10)]
  }

  lemma {:induction false} FixedDecimalZero(w: nat)
    ensures FixedDecimal(0, w) == Repeat('0', w)
  {
    if w > 0 {
      FixedDecimalZero(w - 1);
    }
  }

  /** `String(n).padStart(w, '0')` is the fixed-width rendering when n has at most w digits. */
  lemma {:induction false} PadLeftDecimal(n: nat, w: nat)
    requires w >= 1 && n < Pow(10, w)
    ensures PadLeft(ToNumeral(n, 10), w, '0') == FixedDecimal(n, w)
    decreases w
  {
    if n < 10 {
      PadLeftOneDigit(n, w);
    } else {
      DivFacts(n, 10);
      var a, c := ToNumeral(n / 10, 10), DigitChar(n % 10);
      assert ToNumeral(n, 10) == a + [c];
      assert w != 1 && n / 10 < Pow(10, w - 1) by {
        assert Pow(10, w) == 10 * Pow(10, w - 1);
      }
      PadLeftDecimal(n / 10, w - 1);
      ToNumeralLength(n / 10, 10, w - 1);
      PadLeftSnoc(a, c, w - 1);
      assert FixedDecimal(n, w) == FixedDecimal(n / 10, w - 1) + [c];
    }
  }

  lemma PadLeftOneDigit(n: nat, w: nat)
    requires n < 10 && w >= 1
    ensures PadLeft(ToNumeral(n, 10), w, '0') == FixedDecimal(n, w)
  {
    var d := DigitChar(n);
    assert ToNumeral(n, 10) == [d];
    FixedDecimalZero(w - 1);
    assert n / 10 == 0 && n % 10 == n;
    assert FixedDecimal(n, w) == Repeat('0', w - 1) + [d];
    if w == 1 {
      assert Repeat('0', 0) + [d] == [d];
    }
  }

  lemma PadLeftSnoc(a: string, c: char, w: nat)
    requires |a| <= w
    ensures PadLeft(a + [c], w + 1, '0') == PadLeft(a, w, '0') + [c]
  {
    if |a| < w {
      assert Repeat('0', w + 1 - |a + [c]|) == Repeat('0', w - |a|);
    }
  }

  /** A string of w decimal digits is the fixed-width rendering of its own value. */
  lemma {:induction false} FixedDecimalOfDigits(d: string)
    requires AllDigits(d)
    ensures FixedDecimal(DecimalValue(d), |d|) == d
  {
    if d != [] {
      var p, c := d[..|d| - 1], d[|d| - 1];
      FixedDecimalOfDigits(p);
      var v := DecimalValue(d);
      assert v == DecimalValue(p) * 10 + HexDigitValue(c);
      assert DigitChar(HexDigitValue(c)) == c;
      assert v / 10 == DecimalValue(p) && v % 10 == HexDigitValue(c);
      assert d == p + [c];
    }
  }

  lemma {:induction false} PowMonotone(base: nat, i: nat, j: nat)
    requires base >= 1 && i <= j
    ensures Pow(base, i) <= Pow(base, j)
    decreases j
  {
    if i < j {
      PowMonotone(base, i, j - 1);
      var q := Pow(base, j - 1);
      assert Pow(base, j) == base * q == q + (base - 1) * q;
    }
  }

  /** `String(n)` has k digits exactly when 10^(k-1) <= n < 10^k. */
  lemma DecimalStringLength(n: nat, k: nat)
    requires k >= 1 && Pow(10, k - 1) <= n < Pow(10, k)
    ensures |DecimalString(n)| == k
  {
    var s := ToNumeral(n, 10);
    ToNumeralLength(n, 10, k);
    if |s| < k {
      NumeralBound(s, 10);
      PowMonotone(10, |s|, k - 1);
    }
    assert DecimalString(n) == s;
  }

  /** The fixed-width rendering of a number that fits reads back as that number. */
  lemma {:induction false} FixedDecimalValue(n: nat, w: nat)
    requires n < Pow(10, w)
    ensures AllDigits(FixedDecimal(n, w)) && DecimalValue(FixedDecimal(n, w)) == n
  {
    if w > 0 {
      var s, p := FixedDecimal(n, w), FixedDecimal(n / 10, w - 1);
      assert Pow(10, w) == 10 * Pow(10, w - 1);
      DivBound(n, 10, Pow(10, w - 1));
      FixedDecimalValue(n / 10, w - 1);
      assert s[..|s| - 1] == p;
      assert DecimalValue(s) == DecimalValue(p) * 10 + n % 10;
    }
  }
}

/** Bytes, decimal and big-endian numerals, and lossy UTF-8 decoding: the
    primitive conversions that the codec, the log and the store share. */
module Primitives {

  datatype Option<+T> = None | Some(value: T)

  type Byte = b: int | 0 <= b < 256
  type Bytes = seq<Byte>

  const CR: Byte := 13
  const LF: Byte := 10
  const MINUS: Byte := 45
  const PLUS: Byte := 43
  const I64_MIN: int := -0x8000_0000_0000_0000
  const I64_MAX: int := 0x7FFF_FFFF_FFFF_FFFF
  const U64_MAX: int := 0xFFFF_FFFF_FFFF_FFFF
  const U32_SPAN: int := 0x1_0000_0000

  lemma Assoc<T>(a: seq<T>, b: seq<T>, c: seq<T>)
    ensures a + (b + c) == a + b + c
  {
  }

  // ---- Decimal numerals ----

  predicate AllDigits(s: Bytes) {
    forall i | 0 <= i < |s| :: 48 <= s[i] <= 57
  }

  function Digits(n: nat): (s: Bytes)
    ensures |s| >= 1 && AllDigits(s)
  {
    if n < 10 then [48 + n] else Digits(n / 10) + [48 + n % 10]
  }

  function DigitsValue(s: Bytes): nat
    requires AllDigits(s)
  {
    if s == [] then 0 else 10 * DigitsValue(s[..|s| - 1]) + s[|s| - 1] - 48
  }

  lemma {:induction false} DigitsRoundTrip(n: nat)
    ensures DigitsValue(Digits(n)) == n
  {
    if n >= 10 {
      DigitsRoundTrip(n / 10);
      assert Digits(n)[..|Digits(n)| - 1] == Digits(n / 10);
    } else {
      assert Digits(n)[..0] == [];
    }
  }

  lemma Scaled(a: int, b: int, d: nat)
    ensures a <= b ==> a * d <= b * d
  {
  }

  lemma QuotientIs(n: nat, d: nat, q: nat, r: nat)
    requires d > 0 && n == q * d + r && r < d
    ensures n / d == q
  {
    Scaled(q + 1, n / d, d);
    Scaled(n / d + 1, q, d);
  }

  lemma Regrouped(q: nat, y: nat, b: nat, x: nat, a: nat)
    requires y < b && x < a
    ensures (q * b + y) * a + x == q * (a * b) + (y * a + x) && y * a + x < a * b
  {
    Scaled(y + 1, b, a);
  }

  lemma DivMod(n: nat, d: nat)
    requires d > 0
    ensures n == n / d * d + n % d && n % d < d
  {
  }

  lemma DivideBoth(n: nat, m: nat, x: nat, q: nat, y: nat, a: nat, b: nat)
    requires n == m * a + x && x < a && m == q * b + y && y < b
    ensures a * b > 0 && n / (a * b) == q
  {
    Regrouped(q, y, b, x, a);
    QuotientIs(n, a * b, q, y * a + x);
  }

  /** Dividing by `a` and then by `b` is dividing by their product. */
  lemma DivideTwice(n: nat, a: nat, b: nat)
    requires a > 0 && b > 0
    ensures a * b > 0 && n / a / b == n / (a * b)
  {
    DivMod(n, a);
    DivMod(n / a, b);
    DivideBoth(n, n / a, n % a, n / a / b, n / a % b, a, b);
  }

  function Pow10(k: nat): (p: nat)
    ensures p >= 1
  {
    if k == 0 then 1 else 10 * Pow10(k - 1)
  }

  /** The i-th character from the right is the digit of 10^i. */
  lemma {:induction false} DigitAt(n: nat, i: nat)
    requires i < |Digits(n)|
    ensures Digits(n)[|Digits(n)| - 1 - i] == 48 + n / Pow10(i) % 10
  {
    if i > 0 {
      DigitAt(n / 10, i - 1);
      DivideTwice(n, 10, Pow10(i - 1));
    }
  }

  /** There are no more characters than it takes. */
  lemma {:induction false} DigitsSuffice(n: nat)
    ensures n < Pow10(|Digits(n)|) && (n > 0 ==> Pow10(|Digits(n)| - 1) <= n)
  {
    if n >= 10 { DigitsSuffice(n / 10); } else { assert Pow10(1) == 10 * Pow10(0); }
  }

  /** Rust's `to_string` on an integer. */
  function PrintInt(n: int): (s: Bytes) {
    if n < 0 then [MINUS] + Digits(-n) else Digits(n)
  }

  /** Rust's `str::parse::<i64>`: an optional sign, at least one digit, in range. */
  function ParseI64(s: Bytes): (r: Option<int>)
    ensures r.Some? ==> I64_MIN <= r.value <= I64_MAX
  {
    if s == [] then None
    else
      var digits := if s[0] == MINUS || s[0] == PLUS then s[1..] else s;
      if digits == [] || !AllDigits(digits) then None
      else
        var magnitude: int := DigitsValue(digits);
        var n := if s[0] == MINUS then -magnitude else magnitude;
        if I64_MIN <= n <= I64_MAX then Some(n) else None
  }

  /** Rust's `str::parse::<u64>`: only a plus sign is tolerated. */
  function ParseU64(s: Bytes): (r: Option<nat>)
    ensures r.Some? ==> r.value <= U64_MAX
  {
    if s == [] then None
    else
      var digits := if s[0] == PLUS then s[1..] else s;
      if digits == [] || !AllDigits(digits) then None
      else if DigitsValue(digits) <= U64_MAX then Some(DigitsValue(digits)) else None
  }

  lemma ParsePrintedI64(n: int)
    requires I64_MIN <= n <= I64_MAX
    ensures ParseI64(PrintInt(n)) == Some(n)
  {
    DigitsRoundTrip(if n < 0 then -n else n);
    if n < 0 { assert PrintInt(n)[1..] == Digits(-n); }
  }

  lemma ParsePrintedU64(n: nat)
    requires n <= U64_MAX
    ensures ParseU64(Digits(n)) == Some(n)
  {
    DigitsRoundTrip(n);
  }

  /** Two's-complement wrap-around of a 64-bit sum. */
  function Wrap64(n: int): (r: int)
    ensures I64_MIN <= r <= I64_MAX
    ensures I64_MIN <= n <= I64_MAX ==> r == n
    ensures (r - n) % 0x1_0000_0000_0000_0000 == 0
  {
    (n - I64_MIN) % 0x1_0000_0000_0000_0000 + I64_MIN
  }

  // ---- Big-endian fields ----

  function Pow256(width: nat): (p: nat)
    ensures p >= 1
  {
    if width == 0 then 1 else 256 * Pow256(width - 1)
  }

  function BigEndian(n: nat, width: nat): (s: Bytes)
    ensures |s| == width
  {
    if width == 0 then [] else BigEndian(n / 256, width - 1) + [n % 256]
  }

  function FromBigEndian(s: Bytes): nat {
    if s == [] then 0 else 256 * FromBigEndian(s[..|s| - 1]) + s[|s| - 1]
  }

  lemma {:induction false} BigEndianRoundTrip(n: nat, width: nat)
    requires n < Pow256(width)
    ensures FromBigEndian(BigEndian(n, width)) == n
  {
    if width > 0 {
      BigEndianRoundTrip(n / 256, width - 1);
      assert BigEndian(n, width)[..width - 1] == BigEndian(n / 256, width - 1);
    }
  }

  /** The digit of 256^i. */
  function ByteOf(n: nat, i: nat): Byte { n / Pow256(i) % 256 }

  /** The i-th byte from the right is the digit of 256^i. */
  lemma {:induction false} BigEndianByte(n: nat, width: nat, i: nat)
    requires i < width
    ensures BigEndian(n, width)[width - 1 - i] == ByteOf(n, i)
  {
    if i > 0 {
      BigEndianByte(n / 256, width - 1, i - 1);
      DivideTwice(n, 256, Pow256(i - 1));
    }
  }

  /** A field from the most significant byte on. */
  function Field(n: nat, width: nat): Bytes { seq(width, i requires 0 <= i < width => ByteOf(n, width - 1 - i)) }

  lemma BigEndianIsField(n: nat, width: nat)
    ensures BigEndian(n, width) == Field(n, width)
  {
    forall i | 0 <= i < width ensures BigEndian(n, width)[i] == ByteOf(n, width - 1 - i) {
      BigEndianByte(n, width, width - 1 - i);
    }
  }

  lemma U64AndU32Widths()
    ensures Pow256(8) == U64_MAX + 1
    ensures Pow256(4) == U32_SPAN
  {
    assert Pow256(2) == 65536;
    assert Pow256(4) == 256 * (256 * Pow256(2));
    assert Pow256(6) == 256 * (256 * Pow256(4));
    assert Pow256(8) == 256 * (256 * Pow256(6));
  }

  // ---- Lossy UTF-8 ----

  /** The next scalar of a byte string, or the length of the ill-formed piece. */
  datatype Scalar = Legal(size: nat) | Illegal(size: nat)

  predicate Within(s: Bytes, i: nat, lo: int, hi: int) {
    i < |s| && lo <= s[i] <= hi
  }

  function NextScalar(s: Bytes): (c: Scalar)
    requires s != []
    ensures 1 <= c.size <= |s|
  {
    var b := s[0];
    if b < 0x80 then Legal(1)
    else if 0xC2 <= b <= 0xDF then
      if Within(s, 1, 0x80, 0xBF) then Legal(2) else Illegal(1)
    else if 0xE0 <= b <= 0xEF then
      if !Within(s, 1, if b == 0xE0 then 0xA0 else 0x80, if b == 0xED then 0x9F else 0xBF) then Illegal(1)
      else if Within(s, 2, 0x80, 0xBF) then Legal(3) else Illegal(2)
    else if 0xF0 <= b <= 0xF4 then
      if !Within(s, 1, if b == 0xF0 then 0x90 else 0x80, if b == 0xF4 then 0x8F else 0xBF) then Illegal(1)
      else if !Within(s, 2, 0x80, 0xBF) then Illegal(2)
      else if Within(s, 3, 0x80, 0xBF) then Legal(4) else Illegal(3)
    else Illegal(1)
  }

  predicate ValidUtf8(s: Bytes) {
    s == [] || (NextScalar(s).Legal? && ValidUtf8(s[NextScalar(s).size..]))
  }

  /** Rust's `String::from_utf8_lossy`: each ill-formed piece becomes U+FFFD. */
  function Lossy(s: Bytes): (r: Bytes) {
    if s == [] then []
    else
      var c := NextScalar(s);
      (if c.Legal? then s[..c.size] else [0xEF, 0xBF, 0xBD]) + Lossy(s[c.size..])
  }

  lemma {:induction false} LossyKeepsValid(s: Bytes)
    requires ValidUtf8(s)
    ensures Lossy(s) == s
  {
    if s != [] {
      var n := NextScalar(s).size;
      LossyKeepsValid(s[n..]);
      assert s == s[..n] + s[n..];
    }
  }

  /** A legal scalar is recognised by its own bytes. */
  lemma NextScalarIsLocal(s: Bytes, rest: Bytes)
    requires s != [] && NextScalar(s).Legal?
    ensures NextScalar(s[..NextScalar(s).size] + rest) == NextScalar(s)
  {
    var n := NextScalar(s).size;
    var t := s[..n] + rest;
    assert t[0] == s[0] && (n > 1 ==> t[1] == s[1]) && (n > 2 ==> t[2] == s[2]) && (n > 3 ==> t[3] == s[3]);
  }

  /** Lossy decoding yields well-formed text, whatever it is given. */
  lemma {:induction false} LossyIsValid(s: Bytes)
    ensures ValidUtf8(Lossy(s))
  {
    if s != [] {
      var c := NextScalar(s);
      var piece, tail := if c.Legal? then s[..c.size] else [0xEF, 0xBF, 0xBD], Lossy(s[c.size..]);
      LossyIsValid(s[c.size..]);
      if c.Legal? { NextScalarIsLocal(s, tail); }
      assert NextScalar(piece + tail) == Legal(|piece|);
      assert (piece + tail)[|piece|..] == tail;
    }
  }
}

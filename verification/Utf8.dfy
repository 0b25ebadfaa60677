/** Lossy decoding told by code points: what counts as well-formed is exactly the UTF-8
    encoding of a Unicode scalar value (section 3 of RFC 3629). */
module Utf8 {
  import opened Primitives

  /** Code points but for the surrogates. */
  predicate IsScalar(c: nat) { c < 0xD800 || 0xE000 <= c < 0x11_0000 }

  function Encode(c: nat): (s: Bytes)
    requires IsScalar(c)
    ensures 1 <= |s| <= 4
  {
    if c < 0x80 then [c]
    else if c < 0x800 then [0xC0 + c / 64, 0x80 + c % 64]
    else if c < 0x1_0000 then [0xE0 + c / 4096, 0x80 + c / 64 % 64, 0x80 + c % 64]
    else [0xF0 + c / 262144, 0x80 + c / 4096 % 64, 0x80 + c / 64 % 64, 0x80 + c % 64]
  }

  lemma EncodedIsLegal(c: nat, rest: Bytes)
    requires IsScalar(c)
    ensures NextScalar(Encode(c) + rest) == Legal(|Encode(c)|)
  {
    var s, e := Encode(c) + rest, Encode(c);
    assert s[0] == e[0] && (|e| > 1 ==> s[1] == e[1]) && (|e| > 2 ==> s[2] == e[2]) && (|e| > 3 ==> s[3] == e[3]);
  }

  lemma TwoBytes(a: int, b: int) returns (c: nat)
    requires 0xC2 <= a <= 0xDF && 0x80 <= b <= 0xBF
    ensures 0x80 <= c < 0x800 && 0xC0 + c / 64 == a && 0x80 + c % 64 == b
  {
    c := (a - 0xC0) * 64 + (b - 0x80);
  }

  lemma ThreeBytes(a: int, b: int, d: int) returns (c: nat)
    requires 0xE0 <= a <= 0xEF && 0x80 <= b <= 0xBF && 0x80 <= d <= 0xBF
    requires (a == 0xE0 ==> 0xA0 <= b) && (a == 0xED ==> b <= 0x9F)
    ensures 0x800 <= c < 0x1_0000 && IsScalar(c)
    ensures 0xE0 + c / 4096 == a && 0x80 + c / 64 % 64 == b && 0x80 + c % 64 == d
  {
    var m := (a - 0xE0) * 64 + (b - 0x80);
    c := m * 64 + (d - 0x80);
    assert c / 64 == m && m / 64 == a - 0xE0 && c / 4096 == c / 64 / 64;
  }

  lemma FourBytes(a: int, b: int, d: int, e: int) returns (c: nat)
    requires 0xF0 <= a <= 0xF4 && 0x80 <= b <= 0xBF && 0x80 <= d <= 0xBF && 0x80 <= e <= 0xBF
    requires (a == 0xF0 ==> 0x90 <= b) && (a == 0xF4 ==> b <= 0x8F)
    ensures 0x1_0000 <= c && IsScalar(c) && 0xF0 + c / 262144 == a
    ensures 0x80 + c / 4096 % 64 == b && 0x80 + c / 64 % 64 == d && 0x80 + c % 64 == e
  {
    var l := (a - 0xF0) * 64 + (b - 0x80);
    var m := l * 64 + (d - 0x80);
    c := m * 64 + (e - 0x80);
    assert c / 64 == m && m / 64 == l && l / 64 == a - 0xF0;
    assert c / 4096 == c / 64 / 64 && c / 262144 == c / 64 / 64 / 64;
  }

  lemma LegalIsEncoded(s: Bytes) returns (c: nat)
    requires s != [] && NextScalar(s).Legal?
    ensures IsScalar(c) && s[..NextScalar(s).size] == Encode(c)
  {
    match NextScalar(s).size {
      case 1 => c := s[0];
      case 2 => c := TwoBytes(s[0], s[1]);
      case 3 => c := ThreeBytes(s[0], s[1], s[2]);
      case _ => c := FourBytes(s[0], s[1], s[2], s[3]);
    }
  }

  /** A piece is taken for one character exactly if it encodes a scalar value. */
  lemma LegalIffEncoded(s: Bytes, n: nat)
    requires s != [] && n <= |s|
    ensures NextScalar(s) == Legal(n) <==> exists c: nat :: IsScalar(c) && s[..n] == Encode(c)
  {
    if NextScalar(s) == Legal(n) { var c := LegalIsEncoded(s); }
    if exists c: nat :: IsScalar(c) && s[..n] == Encode(c) {
      var c: nat :| IsScalar(c) && s[..n] == Encode(c);
      EncodedIsLegal(c, s[n..]);
      assert s == s[..n] + s[n..];
    }
  }

  /** Some character begins with these bytes. */
  ghost predicate Begins(p: Bytes) { exists c: nat :: IsScalar(c) && p <= Encode(c) }

  lemma LegalBegins(p: Bytes, rest: Bytes)
    requires p + rest != [] && NextScalar(p + rest) == Legal(|p + rest|)
    ensures Begins(p)
  {
    var c := LegalIsEncoded(p + rest);
    assert (p + rest)[..|p + rest|] == p + rest && p <= Encode(c);
  }

  /** What is replaced by one U+FFFD is a single byte or the beginning of a character, and
      with the byte behind it no character begins. */
  lemma IllegalIsMaximal(s: Bytes)
    requires s != [] && NextScalar(s).Illegal?
    ensures NextScalar(s).size > 1 ==> Begins(s[..NextScalar(s).size])
    ensures NextScalar(s).size < |s| ==> !Begins(s[..NextScalar(s).size + 1])
  {
    var n := NextScalar(s).size;
    if n == 2 { LegalBegins(s[..n], if s[0] <= 0xEF then [0x80] else [0x80, 0x80]); }
    if n == 3 { LegalBegins(s[..n], [0x80]); }
    if n < |s| {
      var p := s[..n + 1];
      forall c: nat | IsScalar(c) ensures !(p <= Encode(c)) { NoCharacter(s, c); }
    }
  }

  /** An ill-formed piece is recognised by its own bytes and the next. */
  lemma SamePiece(s: Bytes, e: Bytes)
    requires s != [] && NextScalar(s).Illegal? && NextScalar(s).size < |s|
    requires s[..NextScalar(s).size + 1] <= e
    ensures NextScalar(e) == NextScalar(s)
  {
    var p := s[..NextScalar(s).size + 1];
    assert p[0] == e[0] && p[1] == e[1] && (|p| > 2 ==> p[2] == e[2]) && (|p| > 3 ==> p[3] == e[3]);
  }

  lemma NoCharacter(s: Bytes, c: nat)
    requires s != [] && NextScalar(s).Illegal? && NextScalar(s).size < |s| && IsScalar(c)
    ensures !(s[..NextScalar(s).size + 1] <= Encode(c))
  {
    EncodedIsLegal(c, []);
    assert Encode(c) + [] == Encode(c);
    if s[..NextScalar(s).size + 1] <= Encode(c) { SamePiece(s, Encode(c)); }
  }
}

/** Percent-encoding as request signing needs it (sections 2.1 and 2.3 of RFC 3986). */
module UriEncoding {
  import opened ByteStrings
  import opened Text
  import opened TextGrammar

  const PERCENT: byte := 37
  const AMPERSAND: byte := 38
  const DOT: byte := 46
  const SLASH: byte := 47
  const UNDERSCORE: byte := 95
  const TILDE: byte := 126

  predicate Unreserved(c: byte) {
    65 <= c <= 90 || 97 <= c <= 122 || 48 <= c <= 57 || c == DASH || c == DOT || c == UNDERSCORE || c == TILDE
  }

  function UpperHex(d: nat): byte
    requires d < 16
  {
    if d < 10 then 48 + d else 55 + d
  }

  predicate Literal(c: byte, encodeSlash: bool) {
    Unreserved(c) || (c == SLASH && !encodeSlash)
  }

  function EncodeByte(c: byte, encodeSlash: bool): bytes {
    if Literal(c, encodeSlash) then [c] else [PERCENT, UpperHex(c / 16), UpperHex(c % 16)]
  }

  function Encode(s: bytes, encodeSlash: bool): bytes {
    if s == [] then [] else Encode(s[..|s| - 1], encodeSlash) + EncodeByte(s[|s| - 1], encodeSlash)
  }

  lemma NothingEncoded(encodeSlash: bool)
    ensures Encode([], encodeSlash) == []
  {
  }

  lemma EncodeTake(s: bytes, i: nat, encodeSlash: bool)
    requires i < |s|
    ensures Encode(s[..i + 1], encodeSlash) == Encode(s[..i], encodeSlash) + EncodeByte(s[i], encodeSlash)
  {
    assert s[..i + 1][..i] == s[..i];
  }

  method AwsUriEncode(s: bytes, encodeSlash: bool) returns (r: bytes)
    ensures r == Encode(s, encodeSlash) && EncodesAs(r, s, encodeSlash)
    ensures (forall i | 0 <= i < |s| :: IsUnreserved(s[i])) ==> r == s
  {
    hide EncodesAs, IsUnreserved, Encode;
    EncodedAs(s, encodeSlash);
    ghost var plain := forall i | 0 <= i < |s| :: IsUnreserved(s[i]);
    if plain {
      UnreservedUnchanged(s, encodeSlash);
    }
    NothingEncoded(encodeSlash);
    r := [];
    for i := 0 to |s|
      invariant r == Encode(s[..i], encodeSlash)
    {
      EncodeTake(s, i, encodeSlash);
      var c := s[i];
      if Unreserved(c) {
        r := r + [c];
      } else if c == SLASH && !encodeSlash {
        r := r + [c];
      } else {
        r := r + [PERCENT];
        r := r + [UpperHex(c / 16)];
        r := r + [UpperHex(c % 16)];
      }
    }
    assert s[..|s|] == s;
  }

  // What is encoded, and how

  /** The unreserved characters of section 2.3 of RFC 3986. */
  const UNRESERVED: seq<string> := [
    "ABCDEFGHIJKLM", "NOPQRSTUVWXYZ", "abcdefghijklm", "nopqrstuvwxyz", "0123456789", "-._~"
  ]

  predicate IsUnreserved(c: byte) {
    exists i | 0 <= i < 6 :: Among(c, UNRESERVED[i])
  }

  predicate Among(c: byte, text: string) {
    exists i | 0 <= i < |text| :: text[i] as int == c
  }

  /** An unreserved character, and a slash in a path, stands for itself; any other byte is its two upper-case digits. */
  ghost predicate StandsFor(piece: bytes, c: byte, encodeSlash: bool) {
    if IsUnreserved(c) || (c == '/' as int && !encodeSlash) then piece == [c]
    else
      exists h, l | 0 <= h < 16 && 0 <= l < 16 ::
        c == 16 * h + l && piece == ['%' as int, CAPITALS[h] as int, CAPITALS[l] as int]
  }

  ghost predicate EncodesAs(text: bytes, s: bytes, encodeSlash: bool) {
    exists pieces: seq<bytes> ::
      && |pieces| == |s| && text == Concat(pieces)
      && forall i | 0 <= i < |s| :: StandsFor(pieces[i], s[i], encodeSlash)
  }

  lemma CapitalAmong(c: byte, i: nat)
    requires i < 2
    ensures Among(c, UNRESERVED[i]) <==> 65 + 13 * i <= c < 78 + 13 * i
  {
    if 65 + 13 * i <= c < 78 + 13 * i {
      assert UNRESERVED[i][c - 65 - 13 * i] as int == c;
    }
  }

  lemma SmallAmong(c: byte, i: nat)
    requires 2 <= i < 4
    ensures Among(c, UNRESERVED[i]) <==> 71 + 13 * i <= c < 84 + 13 * i
  {
    if 71 + 13 * i <= c < 84 + 13 * i {
      assert UNRESERVED[i][c - 71 - 13 * i] as int == c;
    }
  }

  lemma DigitAmong(c: byte)
    ensures Among(c, UNRESERVED[4]) <==> 48 <= c <= 57
  {
    if 48 <= c <= 57 {
      assert UNRESERVED[4][c - 48] as int == c;
    }
  }

  lemma MarkAmong(c: byte)
    ensures Among(c, UNRESERVED[5]) <==> c == 45 || c == 46 || c == 95 || c == 126
  {
    var i: nat := if c == 45 then 0 else if c == 46 then 1 else if c == 95 then 2 else 3;
    assert UNRESERVED[5][i] as int == [45, 46, 95, 126][i];
  }

  lemma UnreservedExactly(c: byte)
    ensures Unreserved(c) <==> IsUnreserved(c)
  {
    hide Among;
    CapitalAmong(c, 0);
    CapitalAmong(c, 1);
    SmallAmong(c, 2);
    SmallAmong(c, 3);
    DigitAmong(c);
    MarkAmong(c);
    hide UNRESERVED;
  }

  lemma UpperHexIs(d: nat)
    requires d < 16
    ensures |CAPITALS| == 16 && UpperHex(d) == CAPITALS[d] as int
  {
    if d < 10 {
      DigitTexts(d);
    } else {
      LetterTexts(d);
    }
    hide CAPITALS;
  }

  lemma ByteStandsFor(c: byte, encodeSlash: bool)
    ensures StandsFor(EncodeByte(c, encodeSlash), c, encodeSlash)
  {
    hide IsUnreserved;
    UnreservedExactly(c);
    UpperHexIs(c / 16);
    UpperHexIs(c % 16);
    assert c == 16 * (c / 16) + c % 16;
    hide Unreserved, CAPITALS, UpperHex;
  }

  lemma EncodesMore(text: bytes, s: bytes, encodeSlash: bool, piece: bytes, c: byte)
    requires EncodesAs(text, s, encodeSlash) && StandsFor(piece, c, encodeSlash)
    ensures EncodesAs(text + piece, s + [c], encodeSlash)
  {
    hide StandsFor, Concat;
    var pieces: seq<bytes> :|
      && |pieces| == |s| && text == Concat(pieces)
      && forall i | 0 <= i < |s| :: StandsFor(pieces[i], s[i], encodeSlash);
    ConcatSnoc(pieces, piece);
    var more := pieces + [piece];
    assert forall i | 0 <= i < |s + [c]| :: StandsFor(more[i], (s + [c])[i], encodeSlash);
  }

  lemma {:induction false} EncodedAs(s: bytes, encodeSlash: bool)
    ensures EncodesAs(Encode(s, encodeSlash), s, encodeSlash)
  {
    hide EncodesAs, StandsFor, EncodeByte;
    if s == [] {
      NothingEncodes(encodeSlash);
    } else {
      var n := |s| - 1;
      EncodedAs(s[..n], encodeSlash);
      ByteStandsFor(s[n], encodeSlash);
      EncodesMore(Encode(s[..n], encodeSlash), s[..n], encodeSlash, EncodeByte(s[n], encodeSlash), s[n]);
      assert s == s[..n] + [s[n]];
    }
  }

  lemma NothingEncodes(encodeSlash: bool)
    ensures EncodesAs([], [], encodeSlash)
  {
    var none: seq<bytes> := [];
    assert Concat(none) == [];
  }

  /** A text of unreserved characters is printed as it is. */
  lemma PrintedPlainly(text: bytes, s: bytes, encodeSlash: bool)
    requires EncodesAs(text, s, encodeSlash) && forall i | 0 <= i < |s| :: IsUnreserved(s[i])
    ensures text == s
  {
    var pieces: seq<bytes> :|
      && |pieces| == |s| && text == Concat(pieces)
      && forall i | 0 <= i < |s| :: StandsFor(pieces[i], s[i], encodeSlash);
    hide IsUnreserved;
    SingleBytes(pieces, s);
  }

  lemma {:induction false} SingleBytes(pieces: seq<bytes>, s: bytes)
    requires |pieces| == |s| && forall i | 0 <= i < |s| :: pieces[i] == [s[i]]
    ensures Concat(pieces) == s
  {
    if s != [] {
      SingleBytes(pieces[1..], s[1..]);
      assert s == [s[0]] + s[1..];
    }
  }

  lemma {:induction false} UnreservedUnchanged(s: bytes, encodeSlash: bool)
    requires forall i | 0 <= i < |s| :: IsUnreserved(s[i])
    ensures Encode(s, encodeSlash) == s
  {
    hide IsUnreserved;
    if s != [] {
      var n := |s| - 1;
      UnreservedUnchanged(s[..n], encodeSlash);
      UnreservedExactly(s[n]);
      assert s == s[..n] + [s[n]];
    }
  }

  /** Undoes the encoding; a stray percent sign stands for itself. */
  function Decode(s: bytes): bytes {
    if s == [] then []
    else if s[0] == PERCENT && |s| >= 3 && HexValue(s[1]).Some? && HexValue(s[2]).Some? then
      [HexValue(s[1]).value * 16 + HexValue(s[2]).value] + Decode(s[3..])
    else [s[0]] + Decode(s[1..])
  }

  function HexValue(c: byte): (r: Option<nat>)
    ensures r.Some? ==> r.value < 16
  {
    if 48 <= c <= 57 then Some(c - 48) else if 65 <= c <= 70 then Some(c - 55) else None
  }

  lemma {:induction false} EncodeAppend(a: bytes, b: bytes, encodeSlash: bool)
    ensures Encode(a + b, encodeSlash) == Encode(a, encodeSlash) + Encode(b, encodeSlash)
  {
    if b == [] {
      assert a + b == a;
    } else {
      assert (a + b)[..|a + b| - 1] == a + b[..|b| - 1];
      EncodeAppend(a, b[..|b| - 1], encodeSlash);
      hide EncodeByte;
    }
  }

  lemma DecodeByte(c: byte, encodeSlash: bool, rest: bytes)
    ensures Decode(EncodeByte(c, encodeSlash) + rest) == [c] + Decode(rest)
  {
    var e := EncodeByte(c, encodeSlash);
    assert (e + rest)[|e|..] == rest;
    if !Literal(c, encodeSlash) {
      assert HexValue(UpperHex(c / 16)) == Some(c / 16) && HexValue(UpperHex(c % 16)) == Some(c % 16);
      assert (e + rest)[3..] == rest;
    }
  }

  lemma {:induction false} DecodeAppend(s: bytes, encodeSlash: bool, rest: bytes)
    ensures Decode(Encode(s, encodeSlash) + rest) == s + Decode(rest)
  {
    hide EncodeByte, Decode;
    if s == [] {
      assert Encode(s, encodeSlash) + rest == rest && s + Decode(rest) == Decode(rest);
    } else {
      var n := |s| - 1;
      var e := EncodeByte(s[n], encodeSlash);
      assert Encode(s, encodeSlash) + rest == Encode(s[..n], encodeSlash) + (e + rest);
      DecodeAppend(s[..n], encodeSlash, e + rest);
      DecodeByte(s[n], encodeSlash, rest);
      assert s[..n] + ([s[n]] + Decode(rest)) == s + Decode(rest);
    }
  }

  /** Decoding undoes encoding, so no two texts encode alike. */
  lemma DecodeEncode(s: bytes, encodeSlash: bool)
    ensures Decode(Encode(s, encodeSlash)) == s
  {
    DecodeAppend(s, encodeSlash, []);
    assert Encode(s, encodeSlash) + [] == Encode(s, encodeSlash);
  }

  lemma EncodeInjective(s: bytes, t: bytes, encodeSlash: bool)
    ensures Encode(s, encodeSlash) == Encode(t, encodeSlash) <==> s == t
  {
    DecodeEncode(s, encodeSlash);
    DecodeEncode(t, encodeSlash);
  }

  /** Only unreserved characters, percent signs and, in paths, slashes come out. */
  lemma {:induction false} EncodeAlphabet(s: bytes, encodeSlash: bool, c: byte)
    requires c in Encode(s, encodeSlash)
    ensures Literal(c, encodeSlash) || c == PERCENT
    ensures c != AMPERSAND && c != EQUALS
  {
    var n := |s| - 1;
    if c in Encode(s[..n], encodeSlash) {
      EncodeAlphabet(s[..n], encodeSlash, c);
    } else {
      assert c in EncodeByte(s[n], encodeSlash);
    }
  }
}

/** The base64 of continuation tokens (sections 3.3 and 4 of RFC 4648), its encoder and its decoder. */
module Base64 {
  import opened ByteStrings
  import opened Text

  const PAD: byte := 61

  /** The character of a six-bit value. */
  function Symbol(v: nat): byte
    requires v < 64
  {
    if v < 26 then 65 + v
    else if v < 52 then 71 + v
    else if v < 62 then v - 4
    else if v == 62 then 43
    else 47
  }

  function ValueOf(c: byte): (v: Option<nat>)
    ensures v.Some? ==> v.value < 64
  {
    if 65 <= c <= 90 then Some(c - 65)
    else if 97 <= c <= 122 then Some(c - 71)
    else if 48 <= c <= 57 then Some(c + 4)
    else if c == 43 then Some(62)
    else if c == 47 then Some(63)
    else None
  }

  function Encode(s: bytes): bytes {
    if s == [] then []
    else if |s| == 1 then [Symbol(s[0] / 4), Symbol(s[0] % 4 * 16), PAD, PAD]
    else if |s| == 2 then
      [Symbol(s[0] / 4), Symbol(s[0] % 4 * 16 + s[1] / 16), Symbol(s[1] % 16 * 4), PAD]
    else
      [Symbol(s[0] / 4), Symbol(s[0] % 4 * 16 + s[1] / 16), Symbol(s[1] % 16 * 4 + s[2] / 64), Symbol(s[2] % 64)]
      + Encode(s[3..])
  }

  /** The bytes of four sextets. */
  function FirstOf(x: nat, y: nat): byte
    requires x < 64 && y < 64
  {
    x * 4 + y / 16
  }

  function SecondOf(y: nat, z: nat): byte
    requires y < 64 && z < 64
  {
    y % 16 * 16 + z / 4
  }

  function ThirdOf(z: nat, w: nat): byte
    requires z < 64 && w < 64
  {
    z % 4 * 64 + w
  }

  function Joined(front: bytes, rest: Option<bytes>): Option<bytes> {
    if rest.Some? then Some(front + rest.value) else None
  }

  /** Groups of four symbols; only the last may be padded. */
  function DecodeGroups(s: bytes): Option<bytes> {
    if s == [] then Some([])
    else if |s| < 4 then None
    else
      var x, y := ValueOf(s[0]), ValueOf(s[1]);
      if x.None? || y.None? then None
      else
        var a := FirstOf(x.value, y.value);
        if s[2..] == [PAD, PAD] then Some([a])
        else
          var z := ValueOf(s[2]);
          if z.None? then None
          else
            var b := SecondOf(y.value, z.value);
            if s[3..] == [PAD] then Some([a, b])
            else
              var w := ValueOf(s[3]);
              if w.None? then None
              else Joined([a, b, ThirdOf(z.value, w.value)], DecodeGroups(s[4..]))
  }

  /** Line ends are skipped. */
  function StripLineEnds(s: bytes): bytes {
    if s == [] then [] else (if s[0] == CR || s[0] == LF then [] else [s[0]]) + StripLineEnds(s[1..])
  }

  function Decode(s: bytes): Option<bytes> {
    DecodeGroups(StripLineEnds(s))
  }

  lemma SymbolBack(v: nat)
    requires v < 64
    ensures ValueOf(Symbol(v)) == Some(v) && Symbol(v) != PAD && Symbol(v) != CR && Symbol(v) != LF
  {
  }

  lemma {:induction false} StripNothing(s: bytes)
    requires forall i | 0 <= i < |s| :: s[i] != CR && s[i] != LF
    ensures StripLineEnds(s) == s
  {
    if s != [] {
      StripNothing(s[1..]);
      assert s == [s[0]] + s[1..];
    }
  }

  lemma {:induction false} EncodedHasNoLineEnds(s: bytes)
    ensures forall i | 0 <= i < |Encode(s)| :: Encode(s)[i] != CR && Encode(s)[i] != LF
    decreases |s|
  {
    if |s| >= 3 {
      EncodedHasNoLineEnds(s[3..]);
    }
  }

  lemma FourSymbols(x: byte, y: byte, z: byte, w: byte, rest: bytes)
    requires ValueOf(x).Some? && ValueOf(y).Some? && ValueOf(z).Some? && ValueOf(w).Some? && z != PAD && w != PAD
    ensures
      var vx, vy, vz, vw := ValueOf(x).value, ValueOf(y).value, ValueOf(z).value, ValueOf(w).value;
      DecodeGroups([x, y, z, w] + rest)
      == Joined([FirstOf(vx, vy), SecondOf(vy, vz), ThirdOf(vz, vw)],
                DecodeGroups(rest))
  {
    hide ValueOf;
    var s := [x, y, z, w] + rest;
    assert s[4..] == rest && s[2..][0] == z && s[3..][0] == w;
  }

  /** Three bytes and their four sextets. */
  lemma Sextets(a: byte, b: byte, c: byte)
    ensures
      var x, y, z, w := a / 4, a % 4 * 16 + b / 16, b % 16 * 4 + c / 64, c % 64;
      FirstOf(x, y) == a && SecondOf(y, z) == b && ThirdOf(z, w) == c
  {
  }

  lemma GroupBack(a: byte, b: byte, c: byte, rest: bytes)
    ensures
      var four := [Symbol(a / 4), Symbol(a % 4 * 16 + b / 16), Symbol(b % 16 * 4 + c / 64), Symbol(c % 64)];
      DecodeGroups(four + rest) == Joined([a, b, c], DecodeGroups(rest))
  {
    var x, y, z, w := a / 4, a % 4 * 16 + b / 16, b % 16 * 4 + c / 64, c % 64;
    SymbolBack(x);
    SymbolBack(y);
    SymbolBack(z);
    SymbolBack(w);
    hide Symbol, ValueOf, DecodeGroups, FirstOf, SecondOf, ThirdOf;
    Sextets(a, b, c);
    FourSymbols(Symbol(x), Symbol(y), Symbol(z), Symbol(w), rest);
  }

  lemma TwoBack(a: byte, b: byte)
    ensures DecodeGroups([Symbol(a / 4), Symbol(a % 4 * 16 + b / 16), Symbol(b % 16 * 4), PAD]) == Some([a, b])
  {
    SymbolBack(a / 4);
    SymbolBack(a % 4 * 16 + b / 16);
    SymbolBack(b % 16 * 4);
    Sextets(a, b, 0);
    hide Symbol, ValueOf, FirstOf, SecondOf;
    var four := [Symbol(a / 4), Symbol(a % 4 * 16 + b / 16), Symbol(b % 16 * 4), PAD];
    assert four[2..][0] == four[2] && four[3..] == [PAD];
  }

  lemma OneBack(a: byte)
    ensures DecodeGroups([Symbol(a / 4), Symbol(a % 4 * 16), PAD, PAD]) == Some([a])
  {
    SymbolBack(a / 4);
    SymbolBack(a % 4 * 16);
    Sextets(a, 0, 0);
    hide Symbol, ValueOf, FirstOf;
    assert [Symbol(a / 4), Symbol(a % 4 * 16), PAD, PAD][2..] == [PAD, PAD];
  }

  lemma {:induction false} GroupsBack(s: bytes)
    ensures DecodeGroups(Encode(s)) == Some(s)
    decreases |s|
  {
    hide Symbol, DecodeGroups;
    if |s| == 1 {
      OneBack(s[0]);
      assert s == [s[0]];
    } else if |s| == 2 {
      TwoBack(s[0], s[1]);
      assert s == [s[0], s[1]];
    } else if |s| >= 3 {
      GroupsBack(s[3..]);
      GroupBack(s[0], s[1], s[2], Encode(s[3..]));
      assert s == [s[0], s[1], s[2]] + s[3..];
    } else {
      assert DecodeGroups([]) == Some([]) by { NothingDecodes(); }
    }
  }

  lemma NothingDecodes()
    ensures DecodeGroups([]) == Some([])
  {
  }

  /** A token decodes to the key it was made from. */
  lemma TokenBack(key: bytes)
    ensures Decode(Encode(key)) == Some(key) && (Encode(key) == [] <==> key == [])
  {
    hide DecodeGroups, StripLineEnds;
    EncodedHasNoLineEnds(key);
    StripNothing(Encode(key));
    GroupsBack(key);
  }

  // The code by its table and its 24-bit groups

  const CAPITAL_LETTERS: string := "ABCDEFGHIJKLMNOPQRSTUVWXYZ"
  const SMALL_LETTERS: string := "abcdefghijklmnopqrstuvwxyz"
  const ALPHABET: string := CAPITAL_LETTERS + SMALL_LETTERS + "0123456789+/"

  ghost predicate IsSymbol(c: byte, v: nat) {
    v < 64 && c == ALPHABET[v] as int
  }

  /** A character of a group: a symbol where the group has data, padding where it has none. */
  ghost predicate IsPlace(c: byte, v: nat, data: bool) {
    if data then IsSymbol(c, v) else c == '=' as int && v == 0
  }

  /** Four characters and their sextets, with data for `used` bytes. */
  ghost predicate Group(c: seq<byte>, used: nat, x: nat, y: nat, z: nat, w: nat)
    requires |c| == 4
  {
    IsPlace(c[0], x, true) && IsPlace(c[1], y, true) && IsPlace(c[2], z, used > 1) && IsPlace(c[3], w, used > 2)
  }

  /** The sextets as one number of 24 bits. */
  function Number(x: nat, y: nat, z: nat, w: nat): nat {
    x * 0x4_0000 + y * 0x1000 + z * 64 + w
  }

  ghost predicate GroupSpells(c: seq<byte>, used: nat, triple: nat)
    requires |c| == 4
  {
    exists x: nat, y: nat, z: nat, w: nat :: Group(c, used, x, y, z, w) && Number(x, y, z, w) == triple
  }

  /** The same up to the bits that belong to no byte. */
  ghost predicate GroupReads(c: seq<byte>, used: nat, triple: nat)
    requires |c| == 4
  {
    exists x: nat, y: nat, z: nat, w: nat ::
      Group(c, used, x, y, z, w) && triple <= Number(x, y, z, w) < triple + Spare(used)
  }

  function ByteAt(s: bytes, k: nat): byte {
    if k < |s| then s[k] else 0
  }

  /** Three bytes as one number, zeros standing behind the last. */
  function TripleAt(s: bytes, k: nat): nat {
    Triple(ByteAt(s, k), ByteAt(s, k + 1), ByteAt(s, k + 2))
  }

  function Triple(a: nat, b: nat, c: nat): nat {
    a * 0x1_0000 + b * 0x100 + c
  }

  /** What the bits that belong to no byte can add. */
  function Spare(used: nat): nat {
    if used == 1 then 0x1_0000 else if used == 2 then 0x100 else 1
  }

  ghost predicate Fits(t: bytes, s: bytes) {
    |t| == (|s| + 2) / 3 * 4
  }

  /** `t` is the base64 text of `s`, group by group. */
  ghost predicate Spells64(t: bytes, s: bytes) {
    Fits(t, s) && forall g | 0 <= g < |t| / 4 :: SpellsAt(t, s, g)
  }

  ghost predicate SpellsAt(t: bytes, s: bytes, g: nat)
    requires Fits(t, s) && g < |t| / 4
  {
    GroupSpells(t[4 * g..4 * g + 4], |s| - 3 * g, TripleAt(s, 3 * g))
  }

  /** The same with any bits in the place of the spare ones, which a decoder ignores. */
  ghost predicate Reads64(t: bytes, s: bytes) {
    Fits(t, s) && forall g | 0 <= g < |t| / 4 :: ReadsAt(t, s, g)
  }

  ghost predicate ReadsAt(t: bytes, s: bytes, g: nat)
    requires Fits(t, s) && g < |t| / 4
  {
    GroupReads(t[4 * g..4 * g + 4], |s| - 3 * g, TripleAt(s, 3 * g))
  }

  lemma SymbolTexts(v: nat)
    requires v < 64
    ensures |ALPHABET| == 64 && Symbol(v) == ALPHABET[v] as int
  {
    if v < 26 {
      CapitalTexts(v);
    } else if v < 52 {
      SmallTexts(v);
    } else {
      OtherTexts(v);
    }
    hide ALPHABET, CAPITAL_LETTERS, SMALL_LETTERS;
  }

  lemma CapitalTexts(v: nat)
    requires v < 26
    ensures |ALPHABET| == 64 && ALPHABET[v] as int == 65 + v
  {
    CapitalLetter(v);
    hide CAPITAL_LETTERS, SMALL_LETTERS;
  }

  lemma CapitalLetter(v: nat)
    requires v < 26
    ensures |CAPITAL_LETTERS| == |SMALL_LETTERS| == 26 && CAPITAL_LETTERS[v] as int == 65 + v
  {
  }

  lemma SmallLetter(v: nat)
    requires v < 26
    ensures |CAPITAL_LETTERS| == |SMALL_LETTERS| == 26 && SMALL_LETTERS[v] as int == 97 + v
  {
  }

  lemma SmallTexts(v: nat)
    requires 26 <= v < 52
    ensures |ALPHABET| == 64 && ALPHABET[v] as int == 71 + v
  {
    SmallLetter(v - 26);
    hide CAPITAL_LETTERS, SMALL_LETTERS;
  }

  lemma OtherTexts(v: nat)
    requires 52 <= v < 64
    ensures |ALPHABET| == 64 && ALPHABET[v] as int == if v < 62 then v - 4 else if v == 62 then 43 else 47
  {
  }

  lemma SymbolMeans(c: byte, v: nat)
    ensures IsSymbol(c, v) <==> ValueOf(c) == Some(v)
  {
    if v < 64 {
      SymbolTexts(v);
      SymbolBack(v);
    }
    hide ALPHABET, CAPITAL_LETTERS, SMALL_LETTERS;
    if ValueOf(c) == Some(v) {
      ValueBack(c);
    }
  }

  lemma ValueBack(c: byte)
    requires ValueOf(c).Some?
    ensures Symbol(ValueOf(c).value) == c
  {
  }

  lemma PadHasNoValue()
    ensures ValueOf('=' as int) == None && PAD == '=' as int
  {
  }

  lemma SymbolIs(v: nat)
    requires v < 64
    ensures IsSymbol(Symbol(v), v)
  {
    SymbolTexts(v);
  }

  lemma SextetSum(a: byte, b: byte, c: byte)
    ensures Number(a / 4, a % 4 * 16 + b / 16, b % 16 * 4 + c / 64, c % 64) == Triple(a, b, c)
  {
  }

  /** The first group of a code. */
  lemma FirstGroup(s: bytes)
    requires s != []
    ensures 4 <= |Encode(s)| && GroupSpells(Encode(s)[..4], |s|, TripleAt(s, 0))
  {
    var a, b, c := ByteAt(s, 0), ByteAt(s, 1), ByteAt(s, 2);
    var x, y, z, w := a / 4, a % 4 * 16 + b / 16, b % 16 * 4 + c / 64, c % 64;
    FirstFour(s, x, y, z, w);
    SymbolIs(x);
    SymbolIs(y);
    if |s| > 1 { SymbolIs(z); }
    if |s| > 2 { SymbolIs(w); }
    SextetSum(a, b, c);
    hide IsSymbol, Symbol, Encode, Number;
    assert Group(Encode(s)[..4], |s|, x, y, z, w);
  }

  lemma FirstFour(s: bytes, x: nat, y: nat, z: nat, w: nat)
    requires s != []
    requires x == ByteAt(s, 0) / 4 && y == ByteAt(s, 0) % 4 * 16 + ByteAt(s, 1) / 16
    requires z == ByteAt(s, 1) % 16 * 4 + ByteAt(s, 2) / 64 && w == ByteAt(s, 2) % 64
    ensures x < 64 && y < 64 && z < 64 && w < 64 && 4 <= |Encode(s)|
    ensures
      Encode(s)[..4]
      == [Symbol(x), Symbol(y), if |s| > 1 then Symbol(z) else PAD, if |s| > 2 then Symbol(w) else PAD]
    ensures |s| <= 1 ==> z == 0
    ensures |s| <= 2 ==> w == 0
  {
    hide Symbol;
    assert ByteAt(s, 0) == s[0];
  }

  lemma Behind(s: bytes, k: nat)
    requires 3 <= |s|
    ensures TripleAt(s[3..], k) == TripleAt(s, k + 3)
  {
  }

  lemma SliceBehind(t: bytes, i: nat)
    requires i + 8 <= |t|
    ensures t[i + 4..i + 8] == t[4..][i..i + 4]
  {
    var mine := t[i + 4..i + 8];
    forall k | 0 <= k < 4
      ensures mine[k] == t[4..][i..i + 4][k]
    {
      assert mine[k] == t[i + 4 + k] == t[4..][i + k];
    }
  }

  lemma LaterGroup(s: bytes, t: bytes, h: nat)
    requires 3 <= |s| && Fits(t, s) && h < |t[4..]| / 4
    ensures Fits(t[4..], s[3..])
    ensures SpellsAt(t, s, h + 1) == SpellsAt(t[4..], s[3..], h)
    ensures ReadsAt(t, s, h + 1) == ReadsAt(t[4..], s[3..], h)
  {
    hide GroupSpells, GroupReads, TripleAt;
    var g := h + 1;
    Behind(s, 3 * h);
    SliceBehind(t, 4 * h);
    assert 4 * g == 4 * h + 4 && 3 * g == 3 * h + 3;
  }

  lemma FirstAt(s: bytes, t: bytes)
    requires Fits(t, s) && s != []
    ensures 4 <= |t| && SpellsAt(t, s, 0) == GroupSpells(t[..4], |s|, TripleAt(s, 0))
    ensures ReadsAt(t, s, 0) == GroupReads(t[..4], |s|, TripleAt(s, 0))
  {
    assert t[4 * 0..4 * 0 + 4] == t[..4];
  }

  lemma {:induction false} EncodedSize(s: bytes)
    ensures Fits(Encode(s), s) && (|s| >= 3 ==> Encode(s)[4..] == Encode(s[3..]))
    decreases |s|
  {
    hide Symbol;
    if |s| >= 3 {
      EncodedSize(s[3..]);
    }
  }

  /** Encoding follows the table: the code of any text is its base64 text. */
  lemma {:induction false} EncodesExactly(s: bytes)
    ensures Spells64(Encode(s), s)
    decreases |s|
  {
    hide SpellsAt, GroupSpells, Encode;
    var t := Encode(s);
    EncodedSize(s);
    if s != [] {
      if |s| >= 3 {
        EncodesExactly(s[3..]);
      }
      FirstGroup(s);
      FirstAt(s, t);
      forall g | 0 <= g < |t| / 4
        ensures SpellsAt(t, s, g)
      {
        if g > 0 {
          LaterGroup(s, t, g - 1);
        }
      }
    }
  }

  // The decoder

  lemma ReadsOne(c: bytes, a: byte)
    requires |c| == 4
    ensures GroupReads(c, 1, Triple(a, 0, 0)) <==>
              && ValueOf(c[0]).Some? && ValueOf(c[1]).Some? && c[2..] == [PAD, PAD]
              && a == FirstOf(ValueOf(c[0]).value, ValueOf(c[1]).value)
  {
    PadHasNoValue();
    hide ValueOf, IsSymbol, Number, Triple, FirstOf, SecondOf, ThirdOf;
    forall v: nat ensures IsSymbol(c[0], v) <==> ValueOf(c[0]) == Some(v) { SymbolMeans(c[0], v); }
    forall v: nat ensures IsSymbol(c[1], v) <==> ValueOf(c[1]) == Some(v) { SymbolMeans(c[1], v); }
    assert c[2..][0] == c[2] && c[2..][1] == c[3];
    if ValueOf(c[0]).Some? && ValueOf(c[1]).Some? {
      var x, y := ValueOf(c[0]).value, ValueOf(c[1]).value;
      assert c[2..] == [PAD, PAD] ==> Group(c, 1, x, y, 0, 0);
      FirstByte(a, x, y);
    }
  }

  lemma FirstByte(a: byte, x: nat, y: nat)
    requires x < 64 && y < 64
    ensures Triple(a, 0, 0) <= Number(x, y, 0, 0) < Triple(a, 0, 0) + 0x1_0000 <==> a == FirstOf(x, y)
  {
  }

  lemma ReadsTwo(c: bytes, a: byte, b: byte)
    requires |c| == 4
    ensures GroupReads(c, 2, Triple(a, b, 0)) <==>
              && ValueOf(c[0]).Some? && ValueOf(c[1]).Some? && ValueOf(c[2]).Some? && c[3] == PAD
              && a == FirstOf(ValueOf(c[0]).value, ValueOf(c[1]).value)
              && b == SecondOf(ValueOf(c[1]).value, ValueOf(c[2]).value)
  {
    PadHasNoValue();
    hide ValueOf, IsSymbol, Number, Triple, FirstOf, SecondOf, ThirdOf;
    forall v: nat ensures IsSymbol(c[0], v) <==> ValueOf(c[0]) == Some(v) { SymbolMeans(c[0], v); }
    forall v: nat ensures IsSymbol(c[1], v) <==> ValueOf(c[1]) == Some(v) { SymbolMeans(c[1], v); }
    forall v: nat ensures IsSymbol(c[2], v) <==> ValueOf(c[2]) == Some(v) { SymbolMeans(c[2], v); }
    if ValueOf(c[0]).Some? && ValueOf(c[1]).Some? && ValueOf(c[2]).Some? {
      var x, y, z := ValueOf(c[0]).value, ValueOf(c[1]).value, ValueOf(c[2]).value;
      assert c[3] == PAD ==> Group(c, 2, x, y, z, 0);
      SecondByte(a, b, x, y, z);
    }
  }

  lemma SecondByte(a: byte, b: byte, x: nat, y: nat, z: nat)
    requires x < 64 && y < 64 && z < 64
    ensures
      Triple(a, b, 0) <= Number(x, y, z, 0) < Triple(a, b, 0) + 0x100
      <==> a == FirstOf(x, y) && b == SecondOf(y, z)
  {
  }

  lemma ReadsThree(c: bytes, used: nat, a: byte, b: byte, d: byte)
    requires |c| == 4 && 3 <= used
    ensures GroupReads(c, used, Triple(a, b, d)) <==>
              && ValueOf(c[0]).Some? && ValueOf(c[1]).Some? && ValueOf(c[2]).Some? && ValueOf(c[3]).Some?
              && a == FirstOf(ValueOf(c[0]).value, ValueOf(c[1]).value)
              && b == SecondOf(ValueOf(c[1]).value, ValueOf(c[2]).value)
              && d == ThirdOf(ValueOf(c[2]).value, ValueOf(c[3]).value)
  {
    hide ValueOf, IsSymbol, Number, Triple, FirstOf, SecondOf, ThirdOf;
    forall v: nat ensures IsSymbol(c[0], v) <==> ValueOf(c[0]) == Some(v) { SymbolMeans(c[0], v); }
    forall v: nat ensures IsSymbol(c[1], v) <==> ValueOf(c[1]) == Some(v) { SymbolMeans(c[1], v); }
    forall v: nat ensures IsSymbol(c[2], v) <==> ValueOf(c[2]) == Some(v) { SymbolMeans(c[2], v); }
    forall v: nat ensures IsSymbol(c[3], v) <==> ValueOf(c[3]) == Some(v) { SymbolMeans(c[3], v); }
    if ValueOf(c[0]).Some? && ValueOf(c[1]).Some? && ValueOf(c[2]).Some? && ValueOf(c[3]).Some? {
      var x, y, z, w := ValueOf(c[0]).value, ValueOf(c[1]).value, ValueOf(c[2]).value, ValueOf(c[3]).value;
      assert Group(c, used, x, y, z, w);
      ThirdByte(a, b, d, x, y, z, w);
    }
  }

  lemma ThirdByte(a: byte, b: byte, d: byte, x: nat, y: nat, z: nat, w: nat)
    requires x < 64 && y < 64 && z < 64 && w < 64
    ensures
      Number(x, y, z, w) == Triple(a, b, d)
      <==> a == FirstOf(x, y) && b == SecondOf(y, z) && d == ThirdOf(z, w)
  {
  }

  /** Decoding by its first group. */
  lemma DecodesOne(t: bytes, s: bytes)
    requires 4 <= |t| && |s| == 1
    ensures DecodeGroups(t) == Some(s) <==> |t| == 4 && GroupReads(t[..4], 1, TripleAt(s, 0))
  {
    var c := t[..4];
    PadHasNoValue();
    ReadsOne(c, s[0]);
    assert TripleAt(s, 0) == Triple(s[0], 0, 0);
    hide ValueOf, GroupReads, DecodeGroups, TripleAt, Triple, FirstOf, SecondOf, ThirdOf;
    DecodeShapes(t);
    assert |t| == 4 ==> c[2..] == t[2..];
    assert s == [s[0]];
  }

  lemma DecodesTwo(t: bytes, s: bytes)
    requires 4 <= |t| && |s| == 2
    ensures DecodeGroups(t) == Some(s) <==> |t| == 4 && GroupReads(t[..4], 2, TripleAt(s, 0))
  {
    var c := t[..4];
    PadHasNoValue();
    ReadsTwo(c, s[0], s[1]);
    assert TripleAt(s, 0) == Triple(s[0], s[1], 0);
    hide ValueOf, GroupReads, DecodeGroups, TripleAt, Triple, FirstOf, SecondOf, ThirdOf;
    DecodeShapes(t);
    assert s == [s[0], s[1]];
  }

  lemma DecodesThree(t: bytes, s: bytes)
    requires 4 <= |t| && |s| >= 3
    ensures DecodeGroups(t) == Some(s) <==>
              GroupReads(t[..4], |s|, TripleAt(s, 0)) && DecodeGroups(t[4..]) == Some(s[3..])
  {
    PadHasNoValue();
    ReadsThree(t[..4], |s|, s[0], s[1], s[2]);
    assert TripleAt(s, 0) == Triple(s[0], s[1], s[2]);
    hide ValueOf, GroupReads, DecodeGroups, TripleAt, Triple, FirstOf, SecondOf, ThirdOf;
    DecodeShapes(t);
    assert s == [s[0], s[1], s[2]] + s[3..];
  }

  /** What the decoder makes of the first group, by its padding. */
  lemma DecodeShapes(t: bytes)
    requires 4 <= |t|
    ensures
      var x, y, z, w := ValueOf(t[0]), ValueOf(t[1]), ValueOf(t[2]), ValueOf(t[3]);
      DecodeGroups(t) ==
      if x.None? || y.None? then None
      else
        var a := FirstOf(x.value, y.value);
        if |t| == 4 && t[2] == PAD && t[3] == PAD then Some([a])
        else if z.None? then None
        else
          var b := SecondOf(y.value, z.value);
          if |t| == 4 && t[3] == PAD then Some([a, b])
          else if w.None? then None
          else Joined([a, b, ThirdOf(z.value, w.value)], DecodeGroups(t[4..]))
  {
    hide ValueOf, FirstOf, SecondOf, ThirdOf;
    if |t| == 4 {
      assert t[2..] == [t[2], t[3]] && t[3..] == [t[3]];
    }
  }

  /** A decoder's reading by its first group. */
  lemma ReadsSplit(t: bytes, s: bytes)
    requires Fits(t, s) && s != []
    ensures 4 <= |t|
    ensures Reads64(t, s) <==>
              && GroupReads(t[..4], |s|, TripleAt(s, 0))
              && (|s| >= 3 ==> Reads64(t[4..], s[3..]))
  {
    hide GroupReads, ReadsAt, TripleAt;
    FirstAt(s, t);
    if |s| >= 3 {
      assert Fits(t[4..], s[3..]);
      forall h | 0 <= h < |t[4..]| / 4
        ensures ReadsAt(t, s, h + 1) == ReadsAt(t[4..], s[3..], h)
      {
        LaterGroup(s, t, h);
      }
      if GroupReads(t[..4], |s|, TripleAt(s, 0)) && Reads64(t[4..], s[3..]) {
        forall g | 0 <= g < |t| / 4
          ensures ReadsAt(t, s, g)
        {
          assert g > 0 ==> ReadsAt(t[4..], s[3..], g - 1);
        }
      }
    }
  }

  lemma DecodesSome(t: bytes)
    requires t != []
    ensures DecodeGroups(t) != Some([])
  {
    hide ValueOf;
  }

  /** Decoding follows the table: which texts are accepted, and what each is read as. */
  lemma {:induction false} DecodesExactly(t: bytes, s: bytes)
    ensures DecodeGroups(t) == Some(s) <==> Reads64(t, s)
    decreases |t|
  {
    if t == [] {
      NothingDecodes();
    } else if |t| < 4 {
      hide ReadsAt;
    } else {
      DecodesSome(t);
      if |s| == 1 {
        DecodesOne(t, s);
      } else if |s| == 2 {
        DecodesTwo(t, s);
      } else if |s| >= 3 {
        DecodesThree(t, s);
        DecodesExactly(t[4..], s[3..]);
      }
      SplitCases(t, s);
      hide DecodeGroups, GroupReads, Reads64;
    }
  }

  lemma SplitCases(t: bytes, s: bytes)
    requires 4 <= |t|
    ensures s == [] ==> !Reads64(t, s)
    ensures 1 <= |s| < 3 ==> (Reads64(t, s) <==> |t| == 4 && GroupReads(t[..4], |s|, TripleAt(s, 0)))
    ensures 3 <= |s| ==> (Reads64(t, s) <==> GroupReads(t[..4], |s|, TripleAt(s, 0)) && Reads64(t[4..], s[3..]))
  {
    hide GroupReads, ReadsAt, TripleAt;
    if Fits(t, s) && s != [] {
      ReadsSplit(t, s);
    }
  }

  /** A line end anywhere changes nothing. */
  lemma {:induction false} SkipsLineEnd(a: bytes, c: byte, b: bytes)
    requires c == '\r' as int || c == '\n' as int
    ensures Decode(a + [c] + b) == Decode(a + b)
  {
    hide DecodeGroups;
    StripsLineEnd(a, c, b);
  }

  lemma {:induction false} StripsLineEnd(a: bytes, c: byte, b: bytes)
    requires c == '\r' as int || c == '\n' as int
    ensures StripLineEnds(a + [c] + b) == StripLineEnds(a + b)
  {
    if a == [] {
      assert a + b == b && (a + [c] + b)[1..] == b;
    } else {
      assert (a + [c] + b)[1..] == a[1..] + [c] + b && (a + b)[1..] == a[1..] + b;
      StripsLineEnd(a[1..], c, b);
    }
  }

  /** A text without line ends decodes to `s` exactly when it reads as `s` by the table. */
  lemma DecodesPlain(t: bytes, s: bytes)
    requires '\r' as int !in t && '\n' as int !in t
    ensures Decode(t) == Some(s) <==> Reads64(t, s)
  {
    hide DecodeGroups, Reads64;
    StripNothing(t);
    DecodesExactly(t, s);
  }
}

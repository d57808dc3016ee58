/** Byte-string text: white space, searching, and decimal and hexadecimal integers. */
module Text {
  import opened ByteStrings

  const CR: byte := 13
  const LF: byte := 10
  const SPACE: byte := 32
  const PLUS: byte := 43
  const COMMA: byte := 44
  const DASH: byte := 45
  const SEMICOLON: byte := 59
  const EQUALS: byte := 61
  const MAX_INT64: nat := 0x7FFF_FFFF_FFFF_FFFF

  predicate StartsWith(s: bytes, prefix: bytes) {
    |prefix| <= |s| && s[..|prefix|] == prefix
  }

  /** The UTF-8 encodings of the white-space characters past ASCII. */
  const WIDE_SPACES: seq<bytes> := [
    [0xC2, 0x85], [0xC2, 0xA0], [0xE1, 0x9A, 0x80],
    [0xE2, 0x80, 0x80], [0xE2, 0x80, 0x81], [0xE2, 0x80, 0x82], [0xE2, 0x80, 0x83], [0xE2, 0x80, 0x84],
    [0xE2, 0x80, 0x85], [0xE2, 0x80, 0x86], [0xE2, 0x80, 0x87], [0xE2, 0x80, 0x88], [0xE2, 0x80, 0x89],
    [0xE2, 0x80, 0x8A], [0xE2, 0x80, 0xA8], [0xE2, 0x80, 0xA9], [0xE2, 0x80, 0xAF], [0xE2, 0x81, 0x9F],
    [0xE3, 0x80, 0x80]
  ]

  predicate IsAsciiSpace(c: byte) {
    c == SPACE || 9 <= c <= 13
  }

  /** Length of the white-space character `s` starts with, 0 when it starts with none. */
  function SpaceAtStart(s: bytes): (n: nat)
    ensures n <= |s|
  {
    if s != [] && IsAsciiSpace(s[0]) then 1
    else if |s| >= 2 && s[..2] in WIDE_SPACES then 2
    else if |s| >= 3 && s[..3] in WIDE_SPACES then 3
    else 0
  }

  function SpaceAtEnd(s: bytes): (n: nat)
    ensures n <= |s|
  {
    if s != [] && IsAsciiSpace(s[|s| - 1]) then 1
    else if |s| >= 2 && s[|s| - 2..] in WIDE_SPACES then 2
    else if |s| >= 3 && s[|s| - 3..] in WIDE_SPACES then 3
    else 0
  }

  function TrimLeft(s: bytes): bytes {
    if SpaceAtStart(s) == 0 then s else TrimLeft(s[SpaceAtStart(s)..])
  }

  function TrimRight(s: bytes): bytes {
    if SpaceAtEnd(s) == 0 then s else TrimRight(s[..|s| - SpaceAtEnd(s)])
  }

  function TrimSpace(s: bytes): bytes {
    TrimRight(TrimLeft(s))
  }

  /** Printable ASCII: neither white space nor part of a wider character. */
  predicate IsPlain(c: byte) {
    33 <= c < 127
  }

  predicate AllPlain(s: bytes) {
    forall i | 0 <= i < |s| :: IsPlain(s[i])
  }

  lemma WideSpacesAreWide(w: bytes)
    requires w in WIDE_SPACES
    ensures w != [] && 128 <= w[0] && 128 <= w[|w| - 1]
  {
  }

  lemma NotWide(w: bytes)
    requires w != [] && (w[0] < 128 || w[|w| - 1] < 128)
    ensures w !in WIDE_SPACES
  {
    hide WIDE_SPACES;
    if w in WIDE_SPACES {
      WideSpacesAreWide(w);
    }
  }

  lemma PlainStart(s: bytes)
    requires s == [] || IsPlain(s[0])
    ensures SpaceAtStart(s) == 0
  {
    hide WIDE_SPACES;
    if |s| >= 2 {
      NotWide(s[..2]);
    }
    if |s| >= 3 {
      NotWide(s[..3]);
    }
  }

  lemma PlainEnd(s: bytes)
    requires s == [] || IsPlain(s[|s| - 1])
    ensures SpaceAtEnd(s) == 0
  {
    hide WIDE_SPACES;
    if |s| >= 2 {
      NotWide(s[|s| - 2..]);
    }
    if |s| >= 3 {
      NotWide(s[|s| - 3..]);
    }
  }

  lemma TrimPlain(s: bytes)
    requires AllPlain(s)
    ensures TrimSpace(s) == s
  {
    hide SpaceAtStart, SpaceAtEnd;
    PlainStart(s);
    PlainEnd(s);
  }

  /** Position of the first `c` in `s`. */
  function IndexByte(s: bytes, c: byte): (i: Option<nat>)
    ensures i.Some? ==> i.value < |s| && s[i.value] == c && forall k | 0 <= k < i.value :: s[k] != c
    ensures i.None? ==> forall k | 0 <= k < |s| :: s[k] != c
  {
    if s == [] then None
    else if s[0] == c then Some(0)
    else
      var rest := IndexByte(s[1..], c);
      assert forall k | 1 <= k < |s| :: s[k] == s[1..][k - 1];
      if rest.Some? then Some(rest.value + 1) else None
  }

  lemma IndexByteIs(s: bytes, c: byte, i: nat)
    requires i < |s| && s[i] == c && forall k | 0 <= k < i :: s[k] != c
    ensures IndexByte(s, c) == Some(i)
  {
    var r := IndexByte(s, c);
    assert r.Some?;
  }

  // Integers

  function DigitValue(c: byte): Option<nat> {
    if 48 <= c <= 57 then Some(c - 48)
    else if 97 <= c <= 122 then Some(c - 87)
    else if 65 <= c <= 90 then Some(c - 55)
    else None
  }

  function ParseDigits(s: bytes, base: nat): Option<nat> {
    if s == [] then Some(0)
    else
      var front := ParseDigits(s[..|s| - 1], base);
      var digit := DigitValue(s[|s| - 1]);
      if front.Some? && digit.Some? && digit.value < base then Some(front.value * base + digit.value) else None
  }

  /** A signed 64-bit integer in a given base; nothing on bad syntax or when out of range. */
  function ParseInt(s: bytes, base: nat): Option<int> {
    if s == [] then None
    else
      var negative := s[0] == DASH;
      var digits := if s[0] == DASH || s[0] == PLUS then s[1..] else s;
      if digits == [] then None
      else
        var n := ParseDigits(digits, base);
        if n.None? || n.value > (if negative then MAX_INT64 + 1 else MAX_INT64) then None
        else
          var value: int := if negative then -(n.value as int) else n.value as int;
          Some(value)
  }

  function DigitChar(d: nat): byte
    requires d < 16
  {
    if d < 10 then 48 + d else 87 + d
  }

  /** The digits of `n`, lower case. */
  function PrintNat(n: nat, base: nat): bytes
    requires 2 <= base <= 16
    decreases n
  {
    if n < base then [DigitChar(n)] else PrintNat(n / base, base) + [DigitChar(n % base)]
  }

  predicate IsDigitChar(c: byte) {
    48 <= c <= 57 || 97 <= c <= 102
  }

  lemma {:induction false} ParsePrint(n: nat, base: nat)
    requires 2 <= base <= 16
    ensures ParseDigits(PrintNat(n, base), base) == Some(n)
    decreases n
  {
    if n < base {
      assert [DigitChar(n)][..0] == [];
    } else {
      hide ParseDigits;
      var q, r := n / base, n % base;
      DivMod(n, base);
      ParsePrint(q, base);
      ParseSnoc(PrintNat(q, base), q, r, base);
    }
  }

  lemma DivMod(n: nat, base: nat)
    requires 2 <= base <= n
    ensures n == n / base * base + n % base && n / base < n && n % base < base
  {
  }

  lemma ParseSnoc(front: bytes, q: nat, r: nat, base: nat)
    requires r < base <= 16 && ParseDigits(front, base) == Some(q)
    ensures ParseDigits(front + [DigitChar(r)], base) == Some(q * base + r)
  {
    assert (front + [DigitChar(r)])[..|front|] == front;
  }

  lemma {:induction false} PrintIsDigits(n: nat, base: nat)
    requires 2 <= base <= 16
    ensures PrintNat(n, base) != [] && forall i | 0 <= i < |PrintNat(n, base)| :: IsDigitChar(PrintNat(n, base)[i])
    decreases n
  {
    if base <= n {
      PrintIsDigits(n / base, base);
    }
  }

  /** Printing and parsing undo each other exactly on the 64-bit range. */
  lemma ParseIntPrint(n: nat, base: nat)
    requires 2 <= base <= 16
    ensures ParseInt(PrintNat(n, base), base) == if n <= MAX_INT64 then Some(n) else None
    ensures AllPlain(PrintNat(n, base)) && TrimSpace(PrintNat(n, base)) == PrintNat(n, base)
  {
    ParsePrint(n, base);
    PrintIsDigits(n, base);
    TrimPlain(PrintNat(n, base));
  }
}

/** What white space and integers look like as text, told apart from how they are trimmed and parsed. */
module TextGrammar {
  import opened ByteStrings
  import opened Text

  // Integers

  const DIGITS: string := "0123456789abcdef"
  const CAPITALS: string := "0123456789ABCDEF"

  predicate IsDigit(c: byte, base: nat, d: nat) {
    d < base && d < 16 && (c == DIGITS[d] as int || c == CAPITALS[d] as int)
  }

  function Power(base: nat, n: nat): nat {
    if n == 0 then 1 else base * Power(base, n - 1)
  }

  /** The digits weighed by their positions. */
  function Value(ds: seq<nat>, base: nat): nat {
    if ds == [] then 0 else ds[0] * Power(base, |ds| - 1) + Value(ds[1..], base)
  }

  predicate Spells(text: bytes, base: nat, ds: seq<nat>) {
    |text| == |ds| && forall i | 0 <= i < |text| :: IsDigit(text[i], base, ds[i])
  }

  ghost predicate IsNatural(text: bytes, base: nat, n: int) {
    text != [] && exists ds :: Spells(text, base, ds) && n == Value(ds, base)
  }

  /** An optional sign and digits of either case, from -2^63 to 2^63-1. */
  ghost predicate IsInteger(text: bytes, base: nat, v: int) {
    && -0x8000_0000_0000_0000 <= v <= 0x7FFF_FFFF_FFFF_FFFF
    && (|| IsNatural(text, base, v)
        || (text != [] && text[0] == '+' as int && IsNatural(text[1..], base, v))
        || (text != [] && text[0] == '-' as int && IsNatural(text[1..], base, -v)))
  }

  lemma DigitMeans(c: byte, base: nat, d: nat)
    requires base <= 16
    ensures DigitValue(c) == Some(d) && d < base <==> IsDigit(c, base, d)
  {
    if d < 10 {
      DigitTexts(d);
    } else if d < 16 {
      LetterTexts(d);
    }
    hide DIGITS, CAPITALS;
  }

  lemma DigitTexts(d: nat)
    requires d < 10
    ensures |DIGITS| == |CAPITALS| == 16 && DIGITS[d] as int == CAPITALS[d] as int == 48 + d
  {
  }

  lemma LetterTexts(d: nat)
    requires 10 <= d < 16
    ensures |DIGITS| == |CAPITALS| == 16 && DIGITS[d] as int == 87 + d && CAPITALS[d] as int == 55 + d
  {
  }

  lemma {:induction false} ValueSnoc(ds: seq<nat>, d: nat, base: nat)
    ensures Value(ds + [d], base) == Value(ds, base) * base + d
  {
    if ds == [] {
      assert [d][1..] == [];
      assert Power(base, 0) == 1;
    } else {
      assert (ds + [d])[1..] == ds[1..] + [d];
      ValueSnoc(ds[1..], d, base);
      Shifted(ds[0], Power(base, |ds| - 1), base);
      assert Power(base, |ds|) == base * Power(base, |ds| - 1);
      Distribute(ds[0] * Power(base, |ds| - 1), Value(ds[1..], base), base);
    }
  }

  lemma Shifted(a: nat, p: nat, base: nat)
    ensures a * (base * p) == a * p * base
  {
  }

  lemma Distribute(a: nat, b: nat, c: nat)
    ensures (a + b) * c == a * c + b * c
  {
  }

  lemma {:induction false} DigitsSpell(text: bytes, base: nat) returns (ds: seq<nat>)
    requires base <= 16 && ParseDigits(text, base).Some?
    ensures Spells(text, base, ds) && ParseDigits(text, base) == Some(Value(ds, base))
  {
    ds := [];
    if text != [] {
      var n := |text| - 1;
      var front := DigitsSpell(text[..n], base);
      var d := DigitValue(text[n]).value;
      DigitMeans(text[n], base, d);
      hide IsDigit, DigitValue;
      ds := front + [d];
      ValueSnoc(front, d, base);
    }
  }

  lemma {:induction false} SpelledParses(text: bytes, base: nat, ds: seq<nat>)
    requires base <= 16 && Spells(text, base, ds)
    ensures ParseDigits(text, base) == Some(Value(ds, base))
  {
    if text != [] {
      var n := |text| - 1;
      SpelledParses(text[..n], base, ds[..n]);
      DigitMeans(text[n], base, ds[n]);
      hide IsDigit, DigitValue;
      ValueSnoc(ds[..n], ds[n], base);
      assert ds == ds[..n] + [ds[n]];
    }
  }

  lemma NaturalParses(text: bytes, base: nat, n: int)
    requires base <= 16
    ensures text != [] && 0 <= n && ParseDigits(text, base) == Some(n) <==> IsNatural(text, base, n)
  {
    if text != [] && 0 <= n && ParseDigits(text, base) == Some(n) {
      var ds := DigitsSpell(text, base);
    }
    if IsNatural(text, base, n) {
      var ds :| Spells(text, base, ds) && n == Value(ds, base);
      SpelledParses(text, base, ds);
    }
  }

  lemma NoSignInNatural(text: bytes, base: nat, n: int)
    requires base <= 16 && IsNatural(text, base, n)
    ensures text[0] != DASH && text[0] != PLUS
  {
    var ds :| Spells(text, base, ds) && n == Value(ds, base);
    assert IsDigit(text[0], base, ds[0]);
    DigitMeans(text[0], base, ds[0]);
    hide IsDigit;
  }

  /** Parsing gives a number exactly for the texts of that number. */
  lemma ParsesExactly(text: bytes, base: nat, v: int)
    requires base <= 16
    ensures ParseInt(text, base) == Some(v) <==> IsInteger(text, base, v)
  {
    hide ParseDigits, IsNatural;
    NaturalParses(text, base, v);
    if text != [] {
      NaturalParses(text[1..], base, v);
      NaturalParses(text[1..], base, -v);
      if IsNatural(text, base, v) {
        NoSignInNatural(text, base, v);
      }
    }
  }

  // White space

  /** The code points with the White_Space property. */
  const WHITE_SPACE: seq<nat> := [
    0x9, 0xA, 0xB, 0xC, 0xD, 0x20, 0x85, 0xA0, 0x1680,
    0x2000, 0x2001, 0x2002, 0x2003, 0x2004, 0x2005, 0x2006, 0x2007, 0x2008, 0x2009, 0x200A,
    0x2028, 0x2029, 0x202F, 0x205F, 0x3000
  ]

  /** Section 3 of RFC 3629, for code points of up to three bytes. */
  function Utf8(point: nat): bytes
    requires point < 0x1_0000
  {
    if point < 0x80 then [point]
    else if point < 0x800 then [0xC0 + point / 64, 0x80 + point % 64]
    else [0xE0 + point / 4096, 0x80 + point / 64 % 64, 0x80 + point % 64]
  }

  predicate IsSpace(w: bytes) {
    exists i | 0 <= i < |WHITE_SPACE| :: WHITE_SPACE[i] < 0x1_0000 && w == Utf8(WHITE_SPACE[i])
  }

  ghost predicate Blank(s: bytes) {
    exists chars :: AllSpaces(chars) && s == Concat(chars)
  }

  predicate AllSpaces(chars: seq<bytes>) {
    forall i | 0 <= i < |chars| :: IsSpace(chars[i])
  }

  function SpaceText(i: nat): bytes
    requires i < 25
  {
    if i < 6 then [if i < 5 then 9 + i else 32] else WIDE_SPACES[i - 6]
  }

  lemma SpaceTexts(i: nat)
    requires i < 25 || i < |WHITE_SPACE|
    ensures |WHITE_SPACE| == 25 && WHITE_SPACE[i] < 0x1_0000 && Utf8(WHITE_SPACE[i]) == SpaceText(i)
  {
  }

  /** The trimmer's two tables are the encodings of those code points. */
  lemma SpacesAreUnicode(w: bytes)
    ensures IsSpace(w) <==> (|w| == 1 && IsAsciiSpace(w[0])) || w in WIDE_SPACES
  {
    if IsSpace(w) {
      var i :| 0 <= i < |WHITE_SPACE| && WHITE_SPACE[i] < 0x1_0000 && w == Utf8(WHITE_SPACE[i]);
      SpaceTexts(i);
      hide WHITE_SPACE, Utf8;
      assert i >= 6 ==> WIDE_SPACES[i - 6] in WIDE_SPACES;
    }
    if |w| == 1 && IsAsciiSpace(w[0]) {
      SpaceAt(w, if w[0] == 32 then 5 else w[0] - 9);
    }
    if w in WIDE_SPACES {
      var j :| 0 <= j < |WIDE_SPACES| && WIDE_SPACES[j] == w;
      SpaceAt(w, j + 6);
    }
  }

  lemma SpaceAt(w: bytes, i: nat)
    requires i < 25 && w == SpaceText(i)
    ensures IsSpace(w)
  {
    SpaceTexts(i);
    hide Utf8;
  }

  // Trimming

  lemma NothingBlank()
    ensures Blank([])
  {
    assert AllSpaces([]) && Concat([]) == [];
  }

  lemma BlankAppend(a: bytes, b: bytes)
    requires Blank(a) && Blank(b)
    ensures Blank(a + b)
  {
    var x :| AllSpaces(x) && a == Concat(x);
    var y :| AllSpaces(y) && b == Concat(y);
    ConcatAppend(x, y);
    assert AllSpaces(x + y);
  }

  lemma SpaceBlank(w: bytes)
    requires IsSpace(w)
    ensures Blank(w)
  {
    assert Concat([w]) == w + Concat([]);
    assert AllSpaces([w]);
  }

  /** The bytes of white space: none is printable ASCII. */
  lemma SpaceBytes(w: bytes)
    requires IsSpace(w)
    ensures w != [] && |w| <= 3 && forall i | 0 <= i < |w| :: !IsPlain(w[i])
    ensures |w| == 1 ==> IsAsciiSpace(w[0])
    ensures |w| > 1 ==> w in WIDE_SPACES && 128 <= w[|w| - 1]
  {
    SpacesAreUnicode(w);
    if |w| != 1 {
      WideBytes(w);
    }
  }

  lemma WideBytes(w: bytes)
    requires w in WIDE_SPACES
    ensures 2 <= |w| <= 3 && forall i | 0 <= i < |w| :: 128 <= w[i]
    ensures if |w| == 2 then w[0] == 0xC2 else 0xE1 <= w[0]
    ensures |w| == 3 ==> w[1] != 0xC2
  {
  }

  lemma StartsWithSpace(w: bytes, rest: bytes)
    requires IsSpace(w)
    ensures SpaceAtStart(w + rest) == |w|
  {
    SpaceBytes(w);
    var s := w + rest;
    assert s[..|w|] == w;
    if |w| > 1 {
      WideBytes(w);
      if |w| == 3 && s[..2] in WIDE_SPACES {
        WideBytes(s[..2]);
      }
    }
    hide WIDE_SPACES;
  }

  lemma EndsWithSpace(front: bytes, w: bytes)
    requires IsSpace(w)
    ensures SpaceAtEnd(front + w) == |w|
  {
    SpaceBytes(w);
    var s := front + w;
    assert s[|s| - |w|..] == w;
    if |w| > 1 {
      WideBytes(w);
      if |w| == 3 && s[|s| - 2..] in WIDE_SPACES {
        WideBytes(s[|s| - 2..]);
      }
    }
    hide WIDE_SPACES;
  }

  lemma {:induction false} TrimLeftOf(chars: seq<bytes>, rest: bytes)
    requires AllSpaces(chars) && SpaceAtStart(rest) == 0
    ensures TrimLeft(Concat(chars) + rest) == rest
  {
    hide SpaceAtStart, IsSpace;
    if chars == [] {
      assert Concat(chars) + rest == rest;
    } else {
      var tail := Concat(chars[1..]) + rest;
      assert Concat(chars) + rest == chars[0] + tail;
      StartsWithSpace(chars[0], tail);
      SpaceBytes(chars[0]);
      assert (chars[0] + tail)[|chars[0]|..] == tail;
      TrimLeftOf(chars[1..], rest);
    }
  }

  lemma {:induction false} TrimRightOf(front: bytes, chars: seq<bytes>)
    requires AllSpaces(chars) && SpaceAtEnd(front) == 0
    ensures TrimRight(front + Concat(chars)) == front
  {
    hide SpaceAtEnd, IsSpace;
    if chars == [] {
      assert front + Concat(chars) == front;
    } else {
      var n := |chars| - 1;
      ConcatSnoc(chars[..n], chars[n]);
      assert chars == chars[..n] + [chars[n]];
      var head := front + Concat(chars[..n]);
      assert front + Concat(chars) == head + chars[n];
      EndsWithSpace(head, chars[n]);
      SpaceBytes(chars[n]);
      assert (head + chars[n])[..|head|] == head;
      TrimRightOf(front, chars[..n]);
    }
  }

  /** Neither white space nor the inside of a wider character at either end. */
  predicate Bare(core: bytes) {
    core == [] || (IsPlain(core[0]) && IsPlain(core[|core| - 1]))
  }

  /** Trimming finds what stands between two blanks. */
  lemma TrimFinds(lead: bytes, core: bytes, trail: bytes)
    requires Blank(lead) && Bare(core) && Blank(trail)
    ensures TrimSpace(lead + core + trail) == core
  {
    hide Blank, TrimSpace, Bare;
    if core == [] {
      BlankAppend(lead, trail);
      assert lead + core + trail == lead + trail;
      BlankTrims(lead + trail);
    } else {
      CoreTrims(lead, core, trail);
    }
  }

  lemma BlankTrims(s: bytes)
    requires Blank(s)
    ensures TrimSpace(s) == []
  {
    hide TrimRight;
    var chars :| AllSpaces(chars) && s == Concat(chars);
    assert s == Concat(chars) + [];
    TrimLeftOf(chars, []);
    NothingTrims();
  }

  lemma NothingTrims()
    ensures TrimRight([]) == []
  {
  }

  lemma CoreTrims(lead: bytes, core: bytes, trail: bytes)
    requires Blank(lead) && Bare(core) && core != [] && Blank(trail)
    ensures TrimSpace(lead + core + trail) == core
  {
    var x :| AllSpaces(x) && lead == Concat(x);
    var y :| AllSpaces(y) && trail == Concat(y);
    PlainEnd(core);
    PlainStart(core + trail);
    hide Concat, SpaceAtStart, SpaceAtEnd, TrimLeft, TrimRight, AllSpaces;
    assert lead + core + trail == Concat(x) + (core + trail);
    TrimLeftOf(x, core + trail);
    TrimRightOf(core, y);
  }

  lemma {:induction false} LeadOf(s: bytes) returns (lead: bytes)
    ensures Blank(lead) && s == lead + TrimLeft(s)
    decreases |s|
  {
    hide SpaceAtStart, IsSpace, Blank, TrimLeft;
    var n := SpaceAtStart(s);
    TrimLeftStep(s);
    if n == 0 {
      lead := [];
      NothingBlank();
    } else {
      StartIsSpace(s);
      var rest := LeadOf(s[n..]);
      SpaceBlank(s[..n]);
      BlankAppend(s[..n], rest);
      lead := s[..n] + rest;
      assert s == s[..n] + s[n..];
    }
  }

  lemma TrimLeftStep(s: bytes)
    ensures TrimLeft(s) == if SpaceAtStart(s) == 0 then s else TrimLeft(s[SpaceAtStart(s)..])
  {
  }

  lemma TrimRightStep(s: bytes)
    ensures TrimRight(s) == if SpaceAtEnd(s) == 0 then s else TrimRight(s[..|s| - SpaceAtEnd(s)])
  {
  }

  lemma StartIsSpace(s: bytes)
    requires SpaceAtStart(s) != 0
    ensures IsSpace(s[..SpaceAtStart(s)])
  {
    SpacesAreUnicode(s[..SpaceAtStart(s)]);
    hide WIDE_SPACES, IsSpace;
  }

  lemma EndIsSpace(s: bytes)
    requires SpaceAtEnd(s) != 0
    ensures IsSpace(s[|s| - SpaceAtEnd(s)..])
  {
    SpacesAreUnicode(s[|s| - SpaceAtEnd(s)..]);
    hide WIDE_SPACES, IsSpace;
  }

  lemma {:induction false} TrailOf(s: bytes) returns (trail: bytes)
    ensures Blank(trail) && s == TrimRight(s) + trail
    decreases |s|
  {
    hide SpaceAtEnd, IsSpace, Blank, TrimRight;
    var n := SpaceAtEnd(s);
    TrimRightStep(s);
    if n == 0 {
      trail := [];
      NothingBlank();
    } else {
      EndIsSpace(s);
      var m := |s| - n;
      var rest := TrailOf(s[..m]);
      SpaceBlank(s[m..]);
      BlankAppend(rest, s[m..]);
      trail := rest + s[m..];
      assert s == s[..m] + s[m..];
    }
  }

  /** What trimming leaves stood between two blanks. */
  lemma TrimDecomposes(s: bytes) returns (lead: bytes, trail: bytes)
    ensures Blank(lead) && Blank(trail) && s == lead + TrimSpace(s) + trail
  {
    lead := LeadOf(s);
    trail := TrailOf(TrimLeft(s));
  }

  lemma {:induction false} CharsLack(chars: seq<bytes>, c: byte)
    requires AllSpaces(chars) && IsPlain(c)
    ensures c !in Concat(chars)
  {
    if chars != [] {
      SpaceBytes(chars[0]);
      CharsLack(chars[1..], c);
    }
  }

  lemma BlankLacks(s: bytes, c: byte)
    requires Blank(s) && IsPlain(c)
    ensures c !in s
  {
    var chars :| AllSpaces(chars) && s == Concat(chars);
    CharsLack(chars, c);
  }

  lemma IntegerIsBare(text: bytes, base: nat, v: int)
    requires base <= 16 && IsInteger(text, base, v)
    ensures text != [] && Bare(text) && forall i | 0 <= i < |text| :: IsDigitLike(text[i], i)
  {
    if IsNatural(text, base, v) {
      NaturalIsBare(text, base, v);
    } else {
      NaturalIsBare(text[1..], base, if text[0] == PLUS then v else -v);
      assert forall i | 1 <= i < |text| :: text[i] == text[1..][i - 1];
    }
  }

  /** A digit or a letter up to F, or a sign in front. */
  predicate IsDigitLike(c: byte, i: nat) {
    48 <= c <= 57 || 65 <= c <= 70 || 97 <= c <= 102 || (i == 0 && (c == PLUS || c == DASH))
  }

  lemma NaturalIsBare(text: bytes, base: nat, v: int)
    requires base <= 16 && IsNatural(text, base, v)
    ensures text != [] && Bare(text) && forall i | 0 <= i < |text| :: text[i] != PLUS && text[i] != DASH && IsDigitLike(text[i], i)
  {
    var ds :| Spells(text, base, ds) && v == Value(ds, base);
    forall i | 0 <= i < |text|
      ensures text[i] != PLUS && text[i] != DASH && IsDigitLike(text[i], i)
    {
      DigitMeans(text[i], base, ds[i]);
    }
  }
}

/** Entity tags: hexadecimal digests, and how a client's copy of one is compared. */
module Etags {
  import opened ByteStrings
  import opened Text
  import opened TextGrammar

  const QUOTE: byte := 34

  function HexEncode(digest: bytes): bytes {
    if digest == [] then []
    else HexEncode(digest[..|digest| - 1]) + [DigitChar(digest[|digest| - 1] / 16), DigitChar(digest[|digest| - 1] % 16)]
  }

  function HexValue(c: byte): Option<nat> {
    var d := DigitValue(c);
    if d.Some? && d.value < 16 then d else None
  }

  /** Nothing on an odd length or a character that is no hexadecimal digit. */
  function HexDecode(s: bytes): Option<bytes> {
    if s == [] then Some([])
    else if |s| == 1 then None
    else
      var front := HexDecode(s[..|s| - 2]);
      var hi, lo := HexValue(s[|s| - 2]), HexValue(s[|s| - 1]);
      if front.Some? && hi.Some? && lo.Some? then Some(front.value + [hi.value * 16 + lo.value]) else None
  }

  lemma DecodePair(hex: bytes, digest: bytes, hi: nat, lo: nat)
    requires hi < 16 && lo < 16 && HexDecode(hex) == Some(digest)
    ensures HexDecode(hex + [DigitChar(hi), DigitChar(lo)]) == Some(digest + [hi * 16 + lo])
  {
    var s := hex + [DigitChar(hi), DigitChar(lo)];
    assert s[..|s| - 2] == hex;
  }

  lemma {:induction false} HexRoundTrip(digest: bytes)
    ensures HexDecode(HexEncode(digest)) == Some(digest)
  {
    if digest != [] {
      var front, last := digest[..|digest| - 1], digest[|digest| - 1];
      HexRoundTrip(front);
      DecodePair(HexEncode(front), front, last / 16, last % 16);
      assert digest == front + [last];
    }
  }

  function ToLower(c: byte): byte {
    if 65 <= c <= 90 then c + 32 else c
  }

  /** Equality up to the case of ASCII letters. */
  predicate EqualFold(a: bytes, b: bytes) {
    |a| == |b| && forall i | 0 <= i < |a| :: ToLower(a[i]) == ToLower(b[i])
  }

  function TrimQuotes(s: bytes): bytes {
    if s != [] && s[0] == QUOTE then TrimQuotes(s[1..])
    else if s != [] && s[|s| - 1] == QUOTE then TrimQuotes(s[..|s| - 1])
    else s
  }

  predicate Matches(sent: bytes, stored: bytes) {
    EqualFold(TrimQuotes(sent), stored)
  }

  // What tags say

  /** Two hexadecimal digits, of either case, for each byte of the digest. */
  predicate SpellsDigest(text: bytes, digest: bytes) {
    && |text| == 2 * |digest|
    && forall i | 0 <= i < |digest| ::
         IsDigit(text[2 * i], 16, digest[i] / 16) && IsDigit(text[2 * i + 1], 16, digest[i] % 16)
  }

  /** A digest's tag, with any number of quotes around it. */
  ghost predicate TagOf(sent: bytes, digest: bytes) {
    exists front, text, back ::
      sent == front + text + back && OnlyQuotes(front) && OnlyQuotes(back) && SpellsDigest(text, digest)
  }

  predicate OnlyQuotes(s: bytes) {
    forall i | 0 <= i < |s| :: s[i] == '"' as int
  }

  /** The tag handed out is in lower case. */
  lemma {:induction false} HexEncodeAt(digest: bytes, i: nat)
    requires i < |digest|
    ensures |HexEncode(digest)| == 2 * |digest|
    ensures HexEncode(digest)[2 * i] == DIGITS[digest[i] / 16] as int
    ensures HexEncode(digest)[2 * i + 1] == DIGITS[digest[i] % 16] as int
  {
    var n := |digest| - 1;
    EncodedSize(digest[..n]);
    if i < n {
      HexEncodeAt(digest[..n], i);
    } else {
      LowerDigit(digest[n] / 16);
      LowerDigit(digest[n] % 16);
    }
    hide DIGITS, DigitChar;
  }

  lemma {:induction false} EncodedSize(digest: bytes)
    ensures |HexEncode(digest)| == 2 * |digest|
  {
    if digest != [] {
      EncodedSize(digest[..|digest| - 1]);
    }
  }

  lemma LowerDigit(d: nat)
    requires d < 16
    ensures |DIGITS| == 16 && DigitChar(d) == DIGITS[d] as int
  {
    if d < 10 {
      DigitTexts(d);
    } else {
      LetterTexts(d);
    }
    hide DIGITS;
  }

  lemma HexSpells(digest: bytes)
    ensures SpellsDigest(HexEncode(digest), digest)
  {
    hide DIGITS, CAPITALS, HexEncode;
    EncodedSize(digest);
    forall i | 0 <= i < |digest|
      ensures IsDigit(HexEncode(digest)[2 * i], 16, digest[i] / 16)
      ensures IsDigit(HexEncode(digest)[2 * i + 1], 16, digest[i] % 16)
    {
      HexEncodeAt(digest, i);
    }
  }

  lemma SpellsOne(text: bytes, d: bytes, e: bytes)
    requires SpellsDigest(text, d) && SpellsDigest(text, e)
    ensures d == e
  {
    hide IsDigit;
    forall i | 0 <= i < |d|
      ensures d[i] == e[i]
    {
      DigitMeans(text[2 * i], 16, d[i] / 16);
      DigitMeans(text[2 * i], 16, e[i] / 16);
      DigitMeans(text[2 * i + 1], 16, d[i] % 16);
      DigitMeans(text[2 * i + 1], 16, e[i] % 16);
    }
  }

  lemma HexValueMeans(c: byte, v: nat)
    ensures HexValue(c) == Some(v) <==> IsDigit(c, 16, v)
  {
    DigitMeans(c, 16, v);
    hide IsDigit;
  }

  /** Decoding gives a digest exactly for the texts that spell it. */
  lemma {:induction false} DecodesExactly(text: bytes, digest: bytes)
    ensures HexDecode(text) == Some(digest) <==> SpellsDigest(text, digest)
    decreases |text|
  {
    hide HexValue, IsDigit;
    if |text| >= 2 {
      var n := |text| - 2;
      if digest != [] {
        var m := |digest| - 1;
        DecodesExactly(text[..n], digest[..m]);
        HexValueMeans(text[n], digest[m] / 16);
        HexValueMeans(text[n + 1], digest[m] % 16);
        assert digest == digest[..m] + [digest[m]];
        if HexDecode(text) == Some(digest) {
          LastDecoded(text, digest);
        }
        SpellsSnoc(text, digest);
        hide SpellsDigest;
      }
    }
  }

  lemma SpellsSnoc(text: bytes, digest: bytes)
    requires |text| >= 2 && digest != []
    ensures
      var n, m := |text| - 2, |digest| - 1;
      SpellsDigest(text, digest)
      <==> SpellsDigest(text[..n], digest[..m])
           && IsDigit(text[n], 16, digest[m] / 16) && IsDigit(text[n + 1], 16, digest[m] % 16)
  {
    hide IsDigit;
    var n, m := |text| - 2, |digest| - 1;
    if SpellsDigest(text[..n], digest[..m]) {
      assert forall i | 0 <= i < m :: text[..n][2 * i] == text[2 * i] && text[..n][2 * i + 1] == text[2 * i + 1];
    }
  }

  lemma LastDecoded(text: bytes, digest: bytes)
    requires |text| >= 2 && digest != [] && HexDecode(text) == Some(digest)
    ensures
      var n, m := |text| - 2, |digest| - 1;
      && HexDecode(text[..n]) == Some(digest[..m])
      && HexValue(text[n]) == Some(digest[m] / 16) && HexValue(text[n + 1]) == Some(digest[m] % 16)
  {
    hide HexValue;
    var n := |text| - 2;
    var hi, lo := HexValue(text[n]).value, HexValue(text[n + 1]).value;
    HexValueMeans(text[n], hi);
    HexValueMeans(text[n + 1], lo);
    var front := HexDecode(text[..n]).value;
    assert digest == front + [hi * 16 + lo];
    hide HexDecode, IsDigit;
    assert digest[..|digest| - 1] == front;
    DivUnique(hi * 16 + lo, 16, hi, lo);
  }

  // Comparing tags

  lemma FoldDigit(c: byte, t: byte, v: nat)
    requires IsDigit(t, 16, v)
    ensures ToLower(c) == ToLower(t) <==> IsDigit(c, 16, v)
  {
    if v < 10 {
      DigitTexts(v);
    } else {
      LetterTexts(v);
    }
    hide DIGITS, CAPITALS;
  }

  lemma FoldExactly(text: bytes, stored: bytes, digest: bytes)
    requires SpellsDigest(stored, digest)
    ensures EqualFold(text, stored) <==> SpellsDigest(text, digest)
  {
    hide IsDigit, ToLower;
    if |text| == |stored| {
      forall i | 0 <= i < |digest|
        ensures ToLower(text[2 * i]) == ToLower(stored[2 * i]) <==> IsDigit(text[2 * i], 16, digest[i] / 16)
        ensures ToLower(text[2 * i + 1]) == ToLower(stored[2 * i + 1]) <==> IsDigit(text[2 * i + 1], 16, digest[i] % 16)
      {
        FoldDigit(text[2 * i], stored[2 * i], digest[i] / 16);
        FoldDigit(text[2 * i + 1], stored[2 * i + 1], digest[i] % 16);
      }
      if SpellsDigest(text, digest) {
        forall k | 0 <= k < |text|
          ensures ToLower(text[k]) == ToLower(stored[k])
        {
          var i := k / 2;
          FoldDigit(text[2 * i], stored[2 * i], digest[i] / 16);
          FoldDigit(text[2 * i + 1], stored[2 * i + 1], digest[i] % 16);
          assert k == 2 * i || k == 2 * i + 1;
        }
      }
    }
  }

  lemma {:induction false} QuotesOf(s: bytes) returns (front: bytes, back: bytes)
    ensures OnlyQuotes(front) && OnlyQuotes(back) && s == front + TrimQuotes(s) + back
    decreases |s|
  {
    if s != [] && s[0] == QUOTE {
      front, back := QuotesOf(s[1..]);
      front := [QUOTE] + front;
      assert s == [QUOTE] + s[1..];
    } else if s != [] && s[|s| - 1] == QUOTE {
      front, back := QuotesOf(s[..|s| - 1]);
      back := back + [QUOTE];
      assert s == s[..|s| - 1] + [QUOTE];
    } else {
      front, back := [], [];
    }
  }

  lemma {:induction false} TrimsQuotes(front: bytes, text: bytes, back: bytes)
    requires OnlyQuotes(front) && OnlyQuotes(back) && forall i | 0 <= i < |text| :: text[i] != QUOTE
    ensures TrimQuotes(front + text + back) == text
    decreases |front| + |back|
  {
    var s := front + text + back;
    if front != [] {
      assert s[1..] == front[1..] + text + back;
      TrimsQuotes(front[1..], text, back);
    } else if back != [] {
      var m := |back| - 1;
      assert s[..|s| - 1] == front + text + back[..m];
      TrimsQuotes(front, text, back[..m]);
      if s[0] == QUOTE {
        assert text == [];
        TrimsQuotes(front, text, back[1..]);
        assert s[1..] == front + text + back[1..];
      }
    } else {
      assert s == text;
    }
  }

  lemma SpelledHasNoQuote(text: bytes, digest: bytes)
    requires SpellsDigest(text, digest)
    ensures forall k | 0 <= k < |text| :: text[k] != QUOTE
  {
    hide IsDigit;
    forall k | 0 <= k < |text|
      ensures text[k] != QUOTE
    {
      var i := k / 2;
      DigitMeans(text[2 * i], 16, digest[i] / 16);
      DigitMeans(text[2 * i + 1], 16, digest[i] % 16);
      assert k == 2 * i || k == 2 * i + 1;
    }
  }

  /** A tag is accepted exactly when it is the stored digest's, in either case and with or without quotes. */
  lemma MatchesExactly(sent: bytes, stored: bytes, digest: bytes)
    requires SpellsDigest(stored, digest)
    ensures Matches(sent, stored) <==> TagOf(sent, digest)
  {
    hide SpellsDigest, EqualFold, OnlyQuotes;
    FoldExactly(TrimQuotes(sent), stored, digest);
    if Matches(sent, stored) {
      var front, back := QuotesOf(sent);
    }
    if TagOf(sent, digest) {
      var front, text, back :|
        sent == front + text + back && OnlyQuotes(front) && OnlyQuotes(back) && SpellsDigest(text, digest);
      SpelledHasNoQuote(text, digest);
      TrimsQuotes(front, text, back);
    }
  }

  lemma TagOfOne(sent: bytes, d: bytes, e: bytes)
    requires TagOf(sent, d) && TagOf(sent, e)
    ensures d == e
  {
    hide SpellsDigest;
    HexSpells(d);
    HexSpells(e);
    var f, text, b :| sent == f + text + b && OnlyQuotes(f) && OnlyQuotes(b) && SpellsDigest(text, d);
    var f', text', b' :| sent == f' + text' + b' && OnlyQuotes(f') && OnlyQuotes(b') && SpellsDigest(text', e);
    SpelledHasNoQuote(text, d);
    SpelledHasNoQuote(text', e);
    TrimsQuotes(f, text, b);
    TrimsQuotes(f', text', b');
    SpellsOne(text, d, e);
  }

  /** Both stand for one digest. */
  ghost predicate SameDigest(sent: bytes, stored: bytes) {
    exists digest :: SpellsDigest(stored, digest) && TagOf(sent, digest)
  }

  lemma MatchesSameDigest(sent: bytes, stored: bytes)
    requires HexDecode(stored).Some?
    ensures Matches(sent, stored) <==> SameDigest(sent, stored)
  {
    hide Matches, SpellsDigest, TagOf;
    var digest := HexDecode(stored).value;
    DecodesExactly(stored, digest);
    MatchesExactly(sent, stored, digest);
    if SameDigest(sent, stored) {
      var d :| SpellsDigest(stored, d) && TagOf(sent, d);
      SpellsOne(stored, d, digest);
    }
  }

  function Quoted(tag: bytes): bytes {
    [QUOTE] + tag + [QUOTE]
  }

  /** The tag of one digest, quoted or bare, names a part stored with another exactly when the digests are the same. */
  lemma QuotedMatches(d: bytes, e: bytes)
    ensures Matches(Quoted(HexEncode(d)), HexEncode(e)) <==> d == e
    ensures Matches(HexEncode(d), HexEncode(e)) <==> d == e
  {
    hide Matches, SpellsDigest, HexEncode;
    HexSpells(d);
    HexSpells(e);
    MatchesExactly(Quoted(HexEncode(d)), HexEncode(e), e);
    MatchesExactly(HexEncode(d), HexEncode(e), e);
    TagIs(Quoted(HexEncode(d)), [QUOTE], HexEncode(d), [QUOTE], d);
    TagIs(HexEncode(d), [], HexEncode(d), [], d);
    if TagOf(Quoted(HexEncode(d)), e) {
      TagOfOne(Quoted(HexEncode(d)), d, e);
    }
    if TagOf(HexEncode(d), e) {
      TagOfOne(HexEncode(d), d, e);
    }
  }

  lemma TagIs(sent: bytes, front: bytes, text: bytes, back: bytes, d: bytes)
    requires sent == front + text + back && OnlyQuotes(front) && OnlyQuotes(back) && SpellsDigest(text, d)
    ensures TagOf(sent, d)
  {
  }

  /** The digits of a tag in upper case. */
  function Upper(digest: bytes): (text: bytes)
    ensures |text| == 2 * |digest|
  {
    seq(2 * |digest|, k requires 0 <= k < 2 * |digest| =>
      CAPITALS[if k % 2 == 0 then digest[k / 2] / 16 else digest[k / 2] % 16] as int)
  }

  lemma UpperMatches(d: bytes, e: bytes)
    ensures Matches(Upper(d), HexEncode(e)) <==> d == e
  {
    hide Matches, SpellsDigest, HexEncode;
    HexSpells(e);
    UpperSpells(d);
    MatchesExactly(Upper(d), HexEncode(e), e);
    assert [] + Upper(d) + [] == Upper(d);
    TagIs(Upper(d), [], Upper(d), [], d);
    if TagOf(Upper(d), e) {
      TagOfOne(Upper(d), d, e);
    }
  }

  lemma UpperSpells(d: bytes)
    ensures SpellsDigest(Upper(d), d)
  {
    hide Upper, IsDigit;
    forall i | 0 <= i < |d|
      ensures IsDigit(Upper(d)[2 * i], 16, d[i] / 16) && IsDigit(Upper(d)[2 * i + 1], 16, d[i] % 16)
    {
      UpperAt(d, 2 * i);
      UpperAt(d, 2 * i + 1);
    }
  }

  lemma UpperAt(d: bytes, k: nat)
    requires k < 2 * |d|
    ensures |Upper(d)| == 2 * |d|
    ensures IsDigit(Upper(d)[k], 16, if k % 2 == 0 then d[k / 2] / 16 else d[k / 2] % 16)
  {
    hide DIGITS, CAPITALS;
  }
}

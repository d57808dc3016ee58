/** Resolving a `Range` header against an object's size (section 2.1 of RFC 7233). */
module ByteRanges {
  import opened ByteStrings
  import opened Text
  import opened TextGrammar

  /** `NotARange` is served in full, `Unsatisfiable` is answered 416, `Bytes` is inclusive. */
  datatype RangeResult = NotARange | Unsatisfiable | Bytes(start: nat, end: nat) {

    function Length(): int
      requires Bytes?
    {
      end - start + 1
    }
  }

  const BYTES_EQUALS: bytes := [98, 121, 116, 101, 115, 61]

  function ParseByteRange(s: bytes, size: nat): RangeResult {
    if !StartsWith(s, BYTES_EQUALS) then NotARange
    else
      var spec := TrimSpace(s[|BYTES_EQUALS|..]);
      if spec == [] || COMMA in spec then NotARange
      else
        var dash := IndexByte(spec, DASH);
        if dash.None? then NotARange
        else Resolve(TrimSpace(spec[..dash.value]), TrimSpace(spec[dash.value + 1..]), size)
  }

  function Resolve(startStr: bytes, endStr: bytes, size: nat): RangeResult {
    if startStr == [] then
      var n := ParseInt(endStr, 10);
      if n.None? || n.value <= 0 then NotARange
      else if size == 0 then Unsatisfiable
      else Bytes(size - Min(n.value, size), size - 1)
    else
      var start := ParseInt(startStr, 10);
      if start.None? || start.value < 0 then NotARange
      else
        var end := if endStr == [] then Some(size - 1) else ParseInt(endStr, 10);
        if end.None? || (endStr != [] && end.value < start.value) then NotARange
        else if size == 0 || start.value >= size then Unsatisfiable
        else Bytes(start.value, Min(end.value, size - 1))
  }

  /** The bytes of a body that a range stands for: positions `start` to `end`, both included, or all of them. */
  function Requested(body: bytes, rng: RangeResult): bytes {
    if rng.Bytes? then Cut(body, rng.start, rng.end + 1) else body
  }

  /** A resolved range is never empty and never leaves the object. */
  lemma RangeInside(s: bytes, size: nat)
    ensures
      var r := ParseByteRange(s, size);
      r.Bytes? ==> r.start <= r.end < size && 0 < r.Length() <= size
  {
  }

  function Dec(n: nat): bytes {
    PrintNat(n, 10)
  }

  function FromTo(first: nat, last: nat): bytes {
    BYTES_EQUALS + (Dec(first) + [DASH] + Dec(last))
  }

  function From(first: nat): bytes {
    BYTES_EQUALS + (Dec(first) + [DASH])
  }

  function LastBytes(n: nat): bytes {
    BYTES_EQUALS + ([DASH] + Dec(n))
  }

  /** A plain `digits-digits` specification reaches `Resolve` with its two halves. */
  lemma SpecSplits(a: bytes, b: bytes, size: nat)
    requires forall i | 0 <= i < |a| :: IsDigitChar(a[i])
    requires forall i | 0 <= i < |b| :: IsDigitChar(b[i])
    ensures ParseByteRange(BYTES_EQUALS + (a + [DASH] + b), size) == Resolve(a, b, size)
  {
    hide Resolve, IndexByte, TrimSpace;
    var spec := a + [DASH] + b;
    var s := BYTES_EQUALS + spec;
    assert s[..|BYTES_EQUALS|] == BYTES_EQUALS && s[|BYTES_EQUALS|..] == spec;
    TrimPlain(spec);
    IndexByteIs(spec, DASH, |a|);
    assert spec[..|a|] == a && spec[|a| + 1..] == b;
    TrimPlain(a);
    TrimPlain(b);
  }

  lemma DecIsDigits(n: nat)
    ensures Dec(n) != [] && forall i | 0 <= i < |Dec(n)| :: IsDigitChar(Dec(n)[i])
    ensures ParseInt(Dec(n), 10) == if n <= MAX_INT64 then Some(n) else None
  {
    PrintIsDigits(n, 10);
    ParseIntPrint(n, 10);
  }

  /** `bytes=first-last` selects exactly the existing positions from `first` to `last`. */
  lemma FromToMeaning(first: nat, last: nat, size: nat)
    ensures
      ParseByteRange(FromTo(first, last), size)
      == if !(first <= last <= MAX_INT64) then NotARange
         else if first >= size then Unsatisfiable
         else Bytes(first, Min(last, size - 1))
  {
    hide ParseByteRange, Dec, ParseInt;
    DecIsDigits(first);
    DecIsDigits(last);
    SpecSplits(Dec(first), Dec(last), size);
  }

  /** `bytes=first-` selects everything from `first` on. */
  lemma FromMeaning(first: nat, size: nat)
    ensures
      ParseByteRange(From(first), size)
      == if first > MAX_INT64 then NotARange
         else if first >= size then Unsatisfiable
         else Bytes(first, size - 1)
  {
    hide ParseByteRange, Dec, ParseInt;
    DecIsDigits(first);
    SpecSplits(Dec(first), [], size);
    assert Dec(first) + [DASH] + [] == Dec(first) + [DASH];
  }

  /** `bytes=-n` selects the last `n` bytes, or the whole object when it is shorter. */
  lemma LastBytesMeaning(n: nat, size: nat)
    ensures
      ParseByteRange(LastBytes(n), size)
      == if n == 0 || n > MAX_INT64 then NotARange
         else if size == 0 then Unsatisfiable
         else Bytes(size - Min(n, size), size - 1)
  {
    hide ParseByteRange, Dec, ParseInt;
    DecIsDigits(n);
    var nothing: bytes := [];
    SpecSplits(nothing, Dec(n), size);
    assert nothing + [DASH] + Dec(n) == [DASH] + Dec(n);
  }

  // Every header there is

  const BYTES_TEXT: string := "bytes="

  /** `bytes=`, and the rest. */
  predicate Behind(s: bytes, rest: bytes) {
    |s| == |BYTES_TEXT| + |rest| && s[|BYTES_TEXT|..] == rest
    && forall i | 0 <= i < |BYTES_TEXT| :: s[i] == BYTES_TEXT[i] as int
  }

  /** A number that is not signed by a dash; white space may stand on either side of everything. */
  ghost predicate IsFirst(text: bytes, n: nat) {
    IsInteger(text, 10, n) && text[0] != '-' as int
  }

  /** `bytes=`, white space, two halves around a dash, white space. */
  ghost predicate Splits(s: bytes, front: bytes, back: bytes) {
    exists lead: bytes, trail: bytes ::
      Blank(lead) && Blank(trail) && Behind(s, lead + (front + ['-' as int] + back) + trail)
  }

  ghost predicate IsFromTo(s: bytes, first: nat, last: int) {
    exists x: bytes, b: bytes, c: bytes, y: bytes ::
      IsFirst(x, first) && Blank(b) && Blank(c) && IsInteger(y, 10, last) && Splits(s, x + b, c + y)
  }

  ghost predicate IsFrom(s: bytes, first: nat) {
    exists x: bytes, b: bytes :: IsFirst(x, first) && Blank(b) && Splits(s, x + b, [])
  }

  ghost predicate IsLast(s: bytes, n: int) {
    exists c: bytes, y: bytes :: Blank(c) && IsInteger(y, 10, n) && Splits(s, [], c + y)
  }

  lemma BehindPrefix(s: bytes, rest: bytes)
    ensures Behind(s, rest) <==> StartsWith(s, BYTES_EQUALS) && s[|BYTES_EQUALS|..] == rest
  {
    assert |BYTES_TEXT| == 6 && forall i | 0 <= i < 6 :: BYTES_TEXT[i] as int == BYTES_EQUALS[i];
    if Behind(s, rest) {
      assert s[..6] == BYTES_EQUALS;
    } else if StartsWith(s, BYTES_EQUALS) {
      assert forall i | 0 <= i < 6 :: s[i] == s[..6][i];
    }
  }

  /** What resolves has no comma in it. */
  lemma NoComma(text: bytes, n: int)
    requires IsInteger(text, 10, n)
    ensures COMMA !in text
  {
    hide IsInteger;
    IntegerIsBare(text, 10, n);
    forall i | 0 <= i < |text|
      ensures text[i] != COMMA
    {
      assert IsDigitLike(text[i], i);
    }
  }

  lemma FirstHasNoDash(text: bytes, n: nat)
    requires IsFirst(text, n)
    ensures DASH !in text
  {
    hide IsInteger;
    IntegerIsBare(text, 10, n);
    forall i | 0 <= i < |text|
      ensures text[i] != DASH
    {
      assert IsDigitLike(text[i], i);
    }
  }

  /** Neither half brings white space to the outside. */
  predicate Outer(front: bytes, back: bytes) {
    (front == [] || IsPlain(front[0])) && (back == [] || IsPlain(back[|back| - 1]))
  }

  lemma OuterIsBare(front: bytes, back: bytes)
    requires Outer(front, back)
    ensures Bare(front + [DASH] + back)
  {
  }

  /** A specification whose first dash stands behind `front` reaches `Resolve` with its two halves. */
  lemma SpecResolves(s: bytes, front: bytes, back: bytes, size: nat)
    requires Splits(s, front, back) && Outer(front, back) && DASH !in front && COMMA !in front && COMMA !in back
    ensures ParseByteRange(s, size) == Resolve(TrimSpace(front), TrimSpace(back), size)
  {
    hide Blank, Bare, Outer, TrimSpace, IndexByte, Resolve, Behind, StartsWith;
    var lead: bytes, trail: bytes :|
      Blank(lead) && Blank(trail) && Behind(s, lead + (front + ['-' as int] + back) + trail);
    var spec := front + [DASH] + back;
    OuterIsBare(front, back);
    BehindPrefix(s, lead + spec + trail);
    TrimFinds(lead, spec, trail);
    IndexByteIs(spec, DASH, |front|);
    assert spec[..|front|] == front && spec[|front| + 1..] == back;
  }

  lemma FromToResolves(s: bytes, first: nat, last: int, size: nat)
    requires IsFromTo(s, first, last)
    ensures exists x, y ::
              && ParseByteRange(s, size) == Resolve(x, y, size) && x != [] && y != []
              && ParseInt(x, 10) == Some(first) && ParseInt(y, 10) == Some(last)
  {
    hide Blank, IsFirst, IsInteger, Splits, ParseByteRange, Resolve, ParseInt, TrimSpace;
    var x: bytes, b: bytes, c: bytes, y: bytes :|
      IsFirst(x, first) && Blank(b) && Blank(c) && IsInteger(y, 10, last) && Splits(s, x + b, c + y);
    FirstMeans(x, b, first);
    SecondMeans(c, y, last);
    SpecResolves(s, x + b, c + y, size);
  }

  lemma FirstMeans(x: bytes, b: bytes, first: nat)
    requires IsFirst(x, first) && Blank(b)
    ensures x != [] && Outer(x + b, []) && DASH !in x + b && COMMA !in x + b && TrimSpace(x + b) == x
    ensures ParseInt(x, 10) == Some(first)
  {
    hide Blank, IsInteger, TrimSpace, ParseInt;
    IntegerIsBare(x, 10, first);
    FirstHasNoDash(x, first);
    NoComma(x, first);
    BlankLacks(b, DASH);
    BlankLacks(b, COMMA);
    NothingBlank();
    TrimFinds([], x, b);
    assert [] + x + b == x + b;
    ParsesExactly(x, 10, first);
  }

  lemma SecondMeans(c: bytes, y: bytes, last: int)
    requires Blank(c) && IsInteger(y, 10, last)
    ensures y != [] && Outer([], c + y) && COMMA !in c + y && TrimSpace(c + y) == y && ParseInt(y, 10) == Some(last)
  {
    hide Blank, IsInteger, TrimSpace, ParseInt;
    IntegerIsBare(y, 10, last);
    NoComma(y, last);
    BlankLacks(c, COMMA);
    NothingBlank();
    TrimFinds(c, y, []);
    assert c + y + [] == c + y;
    ParsesExactly(y, 10, last);
  }

  lemma FromResolves(s: bytes, first: nat, size: nat)
    requires IsFrom(s, first)
    ensures exists x :: ParseByteRange(s, size) == Resolve(x, [], size) && x != [] && ParseInt(x, 10) == Some(first)
  {
    hide Blank, IsFirst, Splits, ParseByteRange, Resolve, ParseInt, TrimSpace;
    var x: bytes, b: bytes :| IsFirst(x, first) && Blank(b) && Splits(s, x + b, []);
    FirstMeans(x, b, first);
    NothingTrimmed();
    SpecResolves(s, x + b, [], size);
  }

  lemma NothingTrimmed()
    ensures TrimSpace([]) == []
  {
    TrimPlain([]);
  }

  lemma LastResolves(s: bytes, n: int, size: nat)
    requires IsLast(s, n)
    ensures exists y :: ParseByteRange(s, size) == Resolve([], y, size) && ParseInt(y, 10) == Some(n)
  {
    hide Blank, IsInteger, Splits, ParseByteRange, Resolve, ParseInt, TrimSpace;
    var c: bytes, y: bytes :| Blank(c) && IsInteger(y, 10, n) && Splits(s, [], c + y);
    SecondMeans(c, y, n);
    NothingTrimmed();
    SpecResolves(s, [], c + y, size);
  }

  /** Some of the three forms, with numbers that make a range. */
  ghost predicate IsRange(s: bytes) {
    || (exists first: nat, last: int :: IsFromTo(s, first, last) && first <= last)
    || (exists first: nat :: IsFrom(s, first))
    || (exists n: int :: IsLast(s, n) && 0 < n)
  }

  lemma RangeParts(s: bytes, size: nat) returns (front: bytes, back: bytes)
    requires !ParseByteRange(s, size).NotARange?
    ensures Splits(s, front, back) && DASH !in front
    ensures ParseByteRange(s, size) == Resolve(TrimSpace(front), TrimSpace(back), size)
  {
    hide Resolve, TrimSpace, Blank, Behind;
    var rest := s[|BYTES_EQUALS|..];
    BehindPrefix(s, rest);
    var lead, trail := TrimDecomposes(rest);
    var spec := TrimSpace(rest);
    var dash := IndexByte(spec, DASH).value;
    front, back := spec[..dash], spec[dash + 1..];
    assert spec == front + [DASH] + back;
  }

  /** White space on the outside of a half belongs to the outside. */
  lemma SplitsInner(s: bytes, lx: bytes, front: bytes, back: bytes, ty: bytes)
    requires Splits(s, lx + front, back + ty) && Blank(lx) && Blank(ty)
    ensures Splits(s, front, back)
  {
    var lead: bytes, trail: bytes :|
      Blank(lead) && Blank(trail) && Behind(s, lead + ((lx + front) + ['-' as int] + (back + ty)) + trail);
    hide Blank, Behind;
    BlankAppend(lead, lx);
    BlankAppend(ty, trail);
    Regroup(lead, lx, front + ['-' as int], back, ty, trail);
    assert (lx + front) + ['-' as int] == lx + (front + ['-' as int]);
  }

  lemma Regroup(lead: bytes, lx: bytes, front: bytes, back: bytes, ty: bytes, trail: bytes)
    ensures lead + ((lx + front) + (back + ty)) + trail == (lead + lx) + (front + back) + (ty + trail)
  {
    assert (lx + front) + (back + ty) == lx + (front + back) + ty;
    var core := front + back;
    assert lead + (lx + core + ty) == (lead + lx) + core + ty;
  }

  /** A half that trims to nothing is nothing but white space on the outside. */
  lemma Halves(front: bytes) returns (lead: bytes, trail: bytes)
    ensures Blank(lead) && Blank(trail) && front == lead + TrimSpace(front) + trail
    ensures TrimSpace(front) == [] ==> Blank(front)
  {
    hide Blank, TrimSpace;
    lead, trail := TrimDecomposes(front);
    if TrimSpace(front) == [] {
      BlankAppend(lead, trail);
      assert lead + [] + trail == lead + trail;
    }
  }

  lemma LastIsRange(s: bytes, front: bytes, back: bytes, n: int)
    requires Splits(s, front, back) && TrimSpace(front) == [] && ParseInt(TrimSpace(back), 10) == Some(n)
    ensures IsLast(s, n)
  {
    hide Blank, Splits, IsInteger, ParseInt, TrimSpace;
    var lx, tx := Halves(front);
    var ly, ty := Halves(back);
    ParsesExactly(TrimSpace(back), 10, n);
    assert front == front + [];
    SplitsInner(s, front, [], ly + TrimSpace(back), ty);
  }

  lemma FirstIsFirst(front: bytes, first: int)
    requires DASH !in front && ParseInt(TrimSpace(front), 10) == Some(first) && 0 <= first
    ensures IsFirst(TrimSpace(front), first) && TrimSpace(front) != []
  {
    hide Blank, IsInteger, TrimSpace;
    var lx, tx := Halves(front);
    ParsesExactly(TrimSpace(front), 10, first);
    assert TrimSpace(front)[0] in front;
  }

  lemma FromIsRange(s: bytes, front: bytes, back: bytes, first: nat)
    requires Splits(s, front, back) && IsFirst(TrimSpace(front), first) && TrimSpace(back) == []
    ensures IsFrom(s, first)
  {
    hide Blank, Splits, IsFirst, TrimSpace;
    var lx, tx := Halves(front);
    var ly, ty := Halves(back);
    assert back == [] + back;
    assert lx + TrimSpace(front) + tx == lx + (TrimSpace(front) + tx);
    SplitsInner(s, lx, TrimSpace(front) + tx, [], back);
  }

  lemma FromToIsRange(s: bytes, front: bytes, back: bytes, first: nat, last: int)
    requires Splits(s, front, back) && IsFirst(TrimSpace(front), first) && ParseInt(TrimSpace(back), 10) == Some(last)
    ensures IsFromTo(s, first, last)
  {
    hide Blank, Splits, IsFirst, IsInteger, ParseInt, TrimSpace;
    var lx, tx := Halves(front);
    var ly, ty := Halves(back);
    ParsesExactly(TrimSpace(back), 10, last);
    assert lx + TrimSpace(front) + tx == lx + (TrimSpace(front) + tx);
    SplitsInner(s, lx, TrimSpace(front) + tx, ly + TrimSpace(back), ty);
  }

  lemma ResolvedIsRange(s: bytes, size: nat)
    requires !ParseByteRange(s, size).NotARange?
    ensures IsRange(s)
  {
    var front, back := RangeParts(s, size);
    hide Splits, IsFirst, ParseInt, TrimSpace, ParseByteRange, IsLast, IsFrom, IsFromTo;
    var x, y := TrimSpace(front), TrimSpace(back);
    if x == [] {
      LastIsRange(s, front, back, ParseInt(y, 10).value);
    } else {
      var first := ParseInt(x, 10).value;
      FirstIsFirst(front, first);
      if y == [] {
        FromIsRange(s, front, back, first);
      } else {
        FromToIsRange(s, front, back, first, ParseInt(y, 10).value);
      }
    }
  }

  /** The positions from `first` to `last` that an object of that size has. */
  function Positions(first: nat, last: int, size: nat): RangeResult {
    if first >= size || last < first then Unsatisfiable else Bytes(first, Min(last, size - 1))
  }

  /** What any header at all is resolved to: one of the three forms, and no range otherwise. */
  lemma ResolvesExactly(s: bytes, size: nat)
    ensures
      forall first: nat, last: int | IsFromTo(s, first, last) && first <= last ::
        ParseByteRange(s, size) == Positions(first, last, size)
    ensures
      forall first: nat | IsFrom(s, first) ::
        ParseByteRange(s, size) == Positions(first, size - 1, size)
    ensures
      forall n: int | IsLast(s, n) && 0 < n ::
        ParseByteRange(s, size) == Positions(size - Min(n, size), size - 1, size)
    ensures ParseByteRange(s, size).NotARange? <==> !IsRange(s)
  {
    hide IsFromTo, IsFrom, IsLast, ParseByteRange, ParseInt;
    forall first: nat, last: int | IsFromTo(s, first, last) && first <= last
      ensures ParseByteRange(s, size) == Positions(first, last, size)
    {
      FromToResolves(s, first, last, size);
    }
    forall first: nat | IsFrom(s, first)
      ensures ParseByteRange(s, size) == Positions(first, size - 1, size)
    {
      FromResolves(s, first, size);
    }
    forall n: int | IsLast(s, n) && 0 < n
      ensures ParseByteRange(s, size) == Positions(size - Min(n, size), size - 1, size)
    {
      LastResolves(s, n, size);
    }
    if !ParseByteRange(s, size).NotARange? {
      ResolvedIsRange(s, size);
    }
  }
}

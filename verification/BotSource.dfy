/** Reading an object's bytes back through its chunk map. */
module BotSource {
  import opened ByteStrings
  import opened ChunkMaps
  import opened Downloads

  predicate SortedByOffset(locs: seq<Chunk>) {
    forall i, j | 0 <= i < j < |locs| :: locs[i].offset <= locs[j].offset
  }

  /** Binary search for the first chunk that starts past `offset`. */
  method Search(locs: seq<Chunk>, offset: nat) returns (i: nat)
    requires SortedByOffset(locs)
    ensures i <= |locs|
    ensures forall k | 0 <= k < i :: locs[k].offset <= offset
    ensures forall k | i <= k < |locs| :: offset < locs[k].offset
  {
    i := 0;
    var j := |locs|;
    while i < j
      invariant i <= j <= |locs|
      invariant forall k | 0 <= k < i :: locs[k].offset <= offset
      invariant forall k | j <= k < |locs| :: offset < locs[k].offset
    {
      var h := (i + j) / 2;
      if !(locs[h].offset > offset) {
        i := h + 1;
      } else {
        j := h;
      }
    }
  }

  predicate Contains(c: Chunk, offset: nat) {
    c.offset <= offset < c.offset + c.size
  }

  lemma TilesAreSorted(locs: seq<Chunk>)
    requires Tiles(locs)
    ensures SortedByOffset(locs)
  {
    forall i, j | 0 <= i < j < |locs|
      ensures locs[i].offset <= locs[j].offset
    {
      TilesOrdered(locs, i, j);
    }
  }

  /** In a chunk map the last chunk that starts at or before an offset of the object holds it. */
  lemma TilesCover(locs: seq<Chunk>, offset: nat, i: nat)
    requires Tiles(locs) && offset < Total(locs) && i < |locs| && locs[i].offset <= offset
    requires i + 1 < |locs| ==> offset < locs[i + 1].offset
    ensures Contains(locs[i], offset)
  {
    if i + 1 < |locs| {
      assert locs[..i + 1][i] == locs[i];
    }
  }

  lemma TilesStart(locs: seq<Chunk>)
    requires Tiles(locs)
    ensures locs != [] ==> locs[0].offset == 0
  {
    if locs != [] {
      assert locs[..0] == [];
    }
  }

  /** `locate`: the chunk holding `offset` and the place inside its message. */
  method Locate(locs: seq<Chunk>, offset: nat) returns (i: int, localOff: nat, ok: bool)
    requires Tiles(locs)
    ensures ok <==> offset < Total(locs)
    ensures ok ==> 0 <= i < |locs| && Contains(locs[i], offset) && localOff == offset - locs[i].offset
  {
    TilesAreSorted(locs);
    TilesStart(locs);
    i := Search(locs, offset);
    i, localOff, ok := i - 1, 0, false;
    if i < 0 {
      return;
    }
    if offset < Total(locs) {
      TilesCover(locs, offset, i);
    }
    if offset >= locs[i].offset + locs[i].size {
      return;
    }
    localOff, ok := offset - locs[i].offset, true;
  }

  // BotSource.Chunk

  /** The chunk's message is there and long enough for a read up to `b`. */
  predicate WholeUpTo(files: Files, c: Chunk, b: nat) {
    c.msg in files && Min(c.size, b - c.offset) <= |files[c.msg]|
  }

  predicate WholeOver(files: Files, locs: seq<Chunk>, a: nat, b: nat) {
    forall i | 0 <= i < |locs| && Needed(locs[i], a, b) :: WholeUpTo(files, locs[i], b)
  }

  /** A read of [a, b) gets as far as chunk `i`: it needs it, and all it needs before are whole. */
  predicate GetsTo(files: Files, locs: seq<Chunk>, a: nat, b: nat, i: nat) {
    && i < |locs| && Needed(locs[i], a, b)
    && forall k | 0 <= k < i && Needed(locs[k], a, b) :: WholeUpTo(files, locs[k], b)
  }

  /** No chunk a read of [a, b) gets to is one that no bot can be asked for. */
  ghost predicate Passable(server: Server, locs: seq<Chunk>, a: nat, b: nat)
    requires server.Valid()
  {
    forall i: nat | GetsTo(server.files, locs, a, b, i) :: !MustFail(server, locs[i].botIndex, locs[i].msg)
  }

  lemma ReadPart(files: Files, locs: seq<Chunk>, i: nat, a: nat, cur: nat, stop: nat)
    requires Tiles(locs) && Holds(files, locs) && i < |locs| && Contains(locs[i], cur)
    requires a <= cur < stop <= locs[i].offset + locs[i].size
    ensures
      var l := cur - locs[i].offset;
      && Cut(Content(files, locs), a, cur) + Cut(files[locs[i].msg], l, l + (stop - cur))
         == Cut(Content(files, locs), a, stop)
      && |Cut(files[locs[i].msg], l, l + (stop - cur))| == stop - cur
  {
    hide Content;
    var all, file := Content(files, locs), files[locs[i].msg];
    var l := cur - locs[i].offset;
    ContentAt(files, locs, i);
    CutSplit(all, a, cur, stop);
    var lo, hi := locs[i].offset, locs[i].offset + locs[i].size;
    SliceOfSlice(all, lo, hi, l, l + (stop - cur));
  }

  /** Every message touched by [a, cur) could be read and is long enough for a read of [a, end). */
  predicate ReadSoFar(server: Server, locs: seq<Chunk>, a: nat, cur: nat, end: nat)
    requires server.Valid()
  {
    a < cur ==>
      forall k | 0 <= k < |locs| && Needed(locs[k], a, cur) ::
        WholeUpTo(server.files, locs[k], end) && !MustFail(server, locs[k].botIndex, locs[k].msg)
  }

  /** What a read needs before the chunk holding the cursor it has already touched. */
  lemma EarlierRead(locs: seq<Chunk>, a: nat, cur: nat, end: nat, i: nat, k: nat)
    requires Tiles(locs) && k < i < |locs| && Contains(locs[i], cur) && a <= cur < end && Needed(locs[k], a, end)
    ensures a < cur && Needed(locs[k], a, cur)
  {
    TilesOrdered(locs, k, i);
  }

  lemma GotTo(server: Server, locs: seq<Chunk>, a: nat, cur: nat, end: nat, i: nat)
    requires server.Valid() && Tiles(locs) && i < |locs| && Contains(locs[i], cur) && a <= cur < end
    requires ReadSoFar(server, locs, a, cur, end)
    ensures GetsTo(server.files, locs, a, end, i)
  {
    hide MustFail, WholeUpTo;
    forall k | 0 <= k < i && Needed(locs[k], a, end)
      ensures WholeUpTo(server.files, locs[k], end)
    {
      EarlierRead(locs, a, cur, end, i, k);
    }
  }

  lemma ReadFurther(server: Server, locs: seq<Chunk>, a: nat, cur: nat, end: nat, i: nat)
    requires server.Valid() && Tiles(locs) && i < |locs| && Contains(locs[i], cur) && a <= cur < end
    requires ReadSoFar(server, locs, a, cur, end) && !MustFail(server, locs[i].botIndex, locs[i].msg)
    ensures
      var stop := Min(locs[i].offset + locs[i].size, end);
      if WholeUpTo(server.files, locs[i], end) then ReadSoFar(server, locs, a, stop, end)
      else !WholeOver(server.files, locs, a, end) && Passable(server, locs, a, end)
  {
    hide MustFail, WholeUpTo;
    var stop := Min(locs[i].offset + locs[i].size, end);
    forall k | 0 <= k < |locs| && Needed(locs[k], a, stop)
      ensures k == i || (a < cur && Needed(locs[k], a, cur))
    {
      if k != i && (a == cur || cur <= locs[k].offset) {
        NotTwo(locs, i, k, cur, stop);
      }
    }
    if !WholeUpTo(server.files, locs[i], end) {
      forall k: nat | GetsTo(server.files, locs, a, end, k)
        ensures !MustFail(server, locs[k].botIndex, locs[k].msg)
      {
        if k < i {
          EarlierRead(locs, a, cur, end, i, k);
        }
      }
    }
  }

  lemma NotTwo(locs: seq<Chunk>, i: nat, k: nat, cur: nat, stop: nat)
    requires Tiles(locs) && i < |locs| && k < |locs| && Contains(locs[i], cur)
    requires stop <= locs[i].offset + locs[i].size
    requires locs[k].offset < stop && cur < locs[k].offset + locs[k].size
    ensures k == i
  {
    if k < i {
      TilesOrdered(locs, k, i);
    } else if i < k {
      TilesOrdered(locs, i, k);
    }
  }

  /** One turn of `Chunk`'s loop: read what the message holding `cur` has of [cur, end). */
  method ReadMessage(dl: Downloader, server: Server, now: int, locs: seq<Chunk>, ghost a: nat, cur: nat, end: nat)
    returns (rc: Option<bytes>, want: nat)
    requires dl.Valid(now) && dl.Serves(server) && Tiles(locs) && a <= cur < end <= Total(locs)
    requires ReadSoFar(server, locs, a, cur, end)
    modifies dl.cache, dl.pool
    ensures dl.Valid(now) && 0 < want && cur + want <= end
    ensures rc.None? ==>
              exists i: nat :: GetsTo(server.files, locs, a, end, i) && MayFail(server, locs[i].botIndex, locs[i].msg)
    ensures rc.Some? ==> |rc.value| <= want
    ensures rc.Some? && |rc.value| == want ==> ReadSoFar(server, locs, a, cur + want, end)
    ensures rc.Some? && |rc.value| < want ==> !WholeOver(server.files, locs, a, end) && Passable(server, locs, a, end)
    ensures rc.Some? && Holds(server.files, locs) ==>
              && |rc.value| == want
              && Cut(Content(server.files, locs), a, cur) + rc.value == Cut(Content(server.files, locs), a, cur + want)
  {
    hide Content, WholeOver, ReadSoFar, Cut, MayFail, MustFail, GetsTo, Passable, Holds, Tiles;
    var i, localOff, ok := Locate(locs, cur);
    var readEnd := Min(locs[i].offset + locs[i].size, end);
    want := readEnd - cur;
    var read := dl.DownloadRange(server, locs[i].botIndex, locs[i].msg, localOff, want, now);
    GotTo(server, locs, a, cur, end, i);
    if read.Err? {
      return None, want;
    }
    rc := Some(read.data);
    ReadFurther(server, locs, a, cur, end, i);
    FullCut(server.files[locs[i].msg], localOff, want);
    if Holds(server.files, locs) {
      ReadPart(server.files, locs, i, a, cur, readEnd);
    }
  }

  /**
   `Chunk`: reads [offset, offset + limit) across message boundaries. It fails only over a message it gets to that some
   bot may fail on, and always over one that every bot it may ask fails on, a message that is gone included; a message
   shorter than its recorded size silently ends the read.
   */
  method Chunk(dl: Downloader, server: Server, now: int, objSize: nat, locs: seq<Chunk>, offset: nat, limit: nat)
    returns (r: Option<bytes>)
    requires dl.Valid(now) && dl.Serves(server) && Tiles(locs) && objSize == Total(locs)
    modifies dl.cache, dl.pool
    ensures dl.Valid(now)
    ensures r.None? ==>
              offset < objSize && exists i: nat ::
                && GetsTo(server.files, locs, offset, Min(offset + limit, objSize), i)
                && MayFail(server, locs[i].botIndex, locs[i].msg)
    ensures r.Some? && limit > 0 && offset < objSize ==> Passable(server, locs, offset, Min(offset + limit, objSize))
    ensures r.Some? && Holds(server.files, locs) ==> r.value == Cut(Content(server.files, locs), offset, offset + limit)
    ensures r.Some? && limit > 0 && offset < objSize ==>
              (|r.value| == Min(offset + limit, objSize) - offset
               <==> WholeOver(server.files, locs, offset, Min(offset + limit, objSize)))
  {
    hide Content, WholeOver, ReadSoFar, Cut, MayFail, MustFail, GetsTo, Passable, Holds, Tiles;
    CutEmpty(Content(server.files, locs), offset, offset + limit);
    if Holds(server.files, locs) {
      ContentSize(server.files, locs);
    }
    if offset >= objSize {
      return Some([]);
    }
    var end := Min(offset + limit, objSize);
    var out: bytes := [];
    var cur := offset;
    NothingRead(server, locs, offset, end);
    while cur < end
      invariant dl.Valid(now) && offset <= cur <= end
      invariant |out| == cur - offset
      invariant Holds(server.files, locs) ==> out == Cut(Content(server.files, locs), offset, cur)
      invariant ReadSoFar(server, locs, offset, cur, end)
    {
      var rc, want := ReadMessage(dl, server, now, locs, offset, cur, end);
      if rc.None? {
        return None;
      }
      out := out + rc.value;
      cur := cur + |rc.value|;
      if |rc.value| < want {
        return Some(out);
      }
    }
    WholeAtEnd(server, locs, offset, end);
    return Some(out);
  }

  /** Cuts outside the string, and cuts that stop at its end. */
  lemma CutEmpty(s: bytes, a: nat, b: nat)
    ensures |s| <= a ==> Cut(s, a, b) == []
    ensures Cut(s, a, a) == [] && Cut(s, a, b) == Cut(s, a, Min(b, Max(a, |s|)))
  {
  }

  lemma FullCut(file: bytes, a: nat, n: nat)
    requires 0 < n
    ensures |Cut(file, a, a + n)| <= n
    ensures |Cut(file, a, a + n)| == n <==> a + n <= |file|
  {
  }

  lemma NothingRead(server: Server, locs: seq<Chunk>, a: nat, end: nat)
    requires server.Valid()
    ensures ReadSoFar(server, locs, a, a, end)
  {
  }

  lemma WholeAtEnd(server: Server, locs: seq<Chunk>, a: nat, end: nat)
    requires server.Valid() && ReadSoFar(server, locs, a, end, end)
    ensures a < end ==> WholeOver(server.files, locs, a, end) && Passable(server, locs, a, end)
  {
    hide MustFail, WholeUpTo;
  }

  // BotSource.ChunkSize

  const FLOOR: nat := 0x1_0000
  const DEFAULT_WINDOW: nat := 0x40_0000

  /** The window halved while it is over the floor and over twice the span. */
  function Halved(window: nat, span: int): nat {
    if window > FLOOR && window > span * 2 && span > 0 then Halved(window / 2, span) else window
  }

  method ChunkSize(configured: int, start: int, end: int) returns (window: nat)
    ensures window == Halved(if configured <= 0 then 4 * 1024 * 1024 else configured, end - start)
  {
    window := if configured <= 0 then DEFAULT_WINDOW else configured;
    var span := end - start;
    while window > FLOOR && window > span * 2 && span > 0
      invariant Halved(window, span) == Halved(if configured <= 0 then DEFAULT_WINDOW else configured, span)
    {
      window := window / 2;
    }
  }

  function Pow2(k: nat): nat {
    if k == 0 then 1 else 2 * Pow2(k - 1)
  }

  /** A window in the first 1/65536 past the floor times a power of two. */
  predicate AtFloor(window: nat, k: nat) {
    FLOOR * Pow2(k) <= window < (FLOOR + 1) * Pow2(k)
  }

  /** The window is never empty, never larger than asked, and small ranges get small windows. */
  lemma {:induction false} HalvedBounds(window: nat, span: int)
    requires 0 < window
    ensures Min(window, FLOOR / 2) <= Halved(window, span) <= window && 0 < Halved(window, span)
    ensures span > 0 ==> Halved(window, span) <= Max(FLOOR, 2 * span)
    decreases window
  {
    if window > FLOOR && window > span * 2 && span > 0 {
      HalvedBounds(window / 2, span);
    }
  }

  lemma HalfOfQuotient(window: nat, p: nat)
    requires 0 < p
    ensures window / 2 / p == window / (2 * p)
  {
    var q, r := window / 2 / p, window / 2 % p;
    assert window / 2 == q * p + r;
    var low := window % 2;
    assert window == 2 * (q * p + r) + low;
    assert 2 * (q * p + r) == q * (2 * p) + 2 * r;
    DivUnique(window, 2 * p, q, 2 * r + low);
  }

  /** Halved as often as needed and no more: while over 64 KiB and over twice a nonempty range. */
  lemma {:induction false} HalvedExactly(window: nat, span: int) returns (k: nat)
    ensures 0 < Pow2(k) && Halved(window, span) == window / Pow2(k)
    ensures
      forall j: nat | j < k :: 0 < Pow2(j) && window / Pow2(j) > 64 * 1024 && window / Pow2(j) > 2 * span && span > 0
    ensures window / Pow2(k) <= 64 * 1024 || window / Pow2(k) <= 2 * span || span <= 0
    decreases window
  {
    if window > FLOOR && window > span * 2 && span > 0 {
      var m := HalvedExactly(window / 2, span);
      k := m + 1;
      HalfOfQuotient(window, Pow2(m));
      forall j: nat | j < k
        ensures 0 < Pow2(j) && window / Pow2(j) > 64 * 1024 && window / Pow2(j) > 2 * span
      {
        if j > 0 {
          HalfOfQuotient(window, Pow2(j - 1));
        }
      }
    } else {
      k := 0;
    }
  }

  lemma {:induction false} LongerSpanHalvesLess(window: nat, span: int)
    requires 0 < span
    ensures Halved(window, 1) <= Halved(window, span)
    decreases window
  {
    if window > FLOOR && window > span * 2 {
      LongerSpanHalvesLess(window / 2, span);
    } else if window > FLOOR {
      HalvedBounds(window / 2, 1);
    }
  }

  lemma AtFloorDoubles(window: nat, k: nat)
    ensures AtFloor(window / 2, k) <==> AtFloor(window, k + 1)
  {
    assert Pow2(k + 1) == 2 * Pow2(k);
  }

  /** The stated floor of 64 KiB is kept for every range exactly when the window is below it or `AtFloor`. */
  lemma {:induction false} FloorKeptExactlyWhen(window: nat)
    requires FLOOR <= window
    ensures (forall span: int :: FLOOR <= Halved(window, span)) <==> exists k: nat :: AtFloor(window, k)
    decreases window
  {
    forall span: int
      ensures Halved(window, 1) <= Halved(window, span)
    {
      if span > 0 {
        LongerSpanHalvesLess(window, span);
      } else {
        HalvedBounds(window, 1);
      }
    }
    TinySpanFloor(window);
  }

  /** A window of 96 KiB over a single byte: one halving, and it is 48 KiB. */
  lemma FloorMissed()
    ensures Halved(0x1_8000, 1) == 0xC000 < FLOOR
    ensures forall k: nat :: !AtFloor(0x1_8000, k)
  {
    assert Halved(0xC000, 1) == 0xC000;
    TinySpanFloor(0x1_8000);
  }

  lemma {:induction false} TinySpanFloor(window: nat)
    ensures FLOOR <= Halved(window, 1) <==> exists k: nat :: AtFloor(window, k)
    decreases window
  {
    if window > FLOOR {
      TinySpanFloor(window / 2);
      if k: nat :| AtFloor(window / 2, k) {
        AtFloorDoubles(window, k);
      }
      if k: nat :| AtFloor(window, k) {
        if k > 0 {
          AtFloorDoubles(window, k - 1);
        }
      }
    } else {
      assert window == FLOOR ==> AtFloor(window, 0);
      forall k: nat
        ensures AtFloor(window, k) ==> FLOOR <= window
      {
        PowPositive(k);
      }
    }
  }

  lemma PowPositive(k: nat)
    ensures 0 < Pow2(k) && FLOOR <= FLOOR * Pow2(k)
  {
  }
}

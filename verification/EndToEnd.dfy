/** A GET of any range delivers exactly that slice of the uploaded body. */
module EndToEnd {
  import opened ByteStrings
  import opened ChunkMaps
  import opened Text
  import opened ByteRanges
  import opened Backend
  import BotSource
  import opened Downloads
  import Prefetch = PrefetchModel
  import PrefetchTheorems

  /** `planRead`: the chunk map as read locations, and the half-open range to read. */
  method PlanRead(objSize: nat, chunks: seq<Chunk>, rng: RangeResult) returns (locs: seq<Chunk>, start: nat, end: nat)
    requires !rng.Unsatisfiable? && (rng.Bytes? ==> rng.start <= rng.end < objSize)
    ensures locs == chunks && start <= end <= objSize
    ensures forall body: bytes | |body| == objSize :: body[start..end] == Requested(body, rng)
    ensures end - start == if rng.Bytes? then rng.Length() else objSize
  {
    start, end := 0, 0;
    if rng.Bytes? {
      start, end := rng.start, rng.end + 1;
    } else {
      end := objSize;
    }
    SliceIsRequested(objSize, rng, start, end);
    locs := [];
    if |chunks| == 0 {
      return;
    }
    for i := 0 to |chunks|
      invariant locs == chunks[..i]
    {
      locs := locs + [chunks[i]];
    }
  }

  lemma SliceIsRequested(objSize: nat, rng: RangeResult, start: nat, end: nat)
    requires rng.Bytes? ==> rng.start <= rng.end < objSize && start == rng.start && end == rng.end + 1
    requires !rng.Bytes? ==> start == 0 && end == objSize
    ensures forall body: bytes | |body| == objSize :: body[start..end] == Requested(body, rng)
  {
  }

  /** How a GET goes on: 416 and nothing is read, or a reader is opened and a length announced. */
  datatype Answer =
    | RangeNotSatisfiable
    | Opened(locs: seq<Chunk>, start: nat, end: nat, partial: bool, contentLength: nat)

  /** What a request asks for: the range of its header when `If-Range` allows it, and otherwise everything. */
  function Asked(body: bytes, header: bytes, allowed: bool): bytes {
    if allowed then Requested(body, ParseByteRange(header, |body|)) else body
  }

  /** The range opened is that of the bytes asked for, whatever the object holds, and its length is announced. */
  ghost predicate Answers(a: Answer, header: bytes, allowed: bool, objSize: nat, chunks: seq<Chunk>) {
    a.Opened? ==>
      && a.locs == chunks && a.start <= a.end <= objSize && a.contentLength == a.end - a.start
      && (a.partial <==> allowed && ParseByteRange(header, objSize).Bytes?)
      && forall body: bytes | |body| == objSize :: body[a.start..a.end] == Asked(body, header, allowed)
  }

  /** `getObject`'s choice between the range, the whole object and 416; `allowed` is what `If-Range` says. */
  method PlanGet(header: bytes, allowed: bool, objSize: nat, chunks: seq<Chunk>) returns (a: Answer)
    ensures a.RangeNotSatisfiable? <==> allowed && ParseByteRange(header, objSize).Unsatisfiable?
    ensures Answers(a, header, allowed, objSize, chunks)
  {
    hide ParseByteRange, Requested;
    var rng := NotARange;
    EmptyIsNoRange(objSize);
    RangeInside(header, objSize);
    WholeIsRequested();
    if header != [] && allowed {
      rng := ParseByteRange(header, objSize);
      if rng.Unsatisfiable? {
        return RangeNotSatisfiable;
      }
    }
    var locs, start, end := PlanRead(objSize, chunks, rng);
    a := Opened(locs, start, end, rng.Bytes?, if rng.Bytes? then rng.Length() else objSize);
  }

  lemma WholeIsRequested()
    ensures forall body :: Requested(body, NotARange) == body
  {
  }

  lemma EmptyIsNoRange(objSize: nat)
    ensures ParseByteRange([], objSize).NotARange?
  {
  }

  /**
   What a worker's fetch of chunk `i` stores is what the object's chunk map gives for its window; it fails only over a
   message whose bots are not all there.
   */
  method FetchWindow(cfg: Prefetch.Config, dl: Downloader, server: Server, now: int, chunks: seq<Chunk>, i: nat)
    returns (r: Option<bytes>)
    requires cfg.Valid() && dl.Valid(now) && dl.Serves(server) && Tiles(chunks) && Holds(server.files, chunks)
    requires cfg.content == Content(server.files, chunks)
    modifies dl.cache, dl.pool
    ensures dl.Valid(now)
    ensures r.Some? ==> r.value == cfg.Full(i)
    ensures r.None? ==> exists c :: c in chunks && MayFail(server, c.botIndex, c.msg)
  {
    hide Content, Tiles, Holds, MayFail, BotSource.Passable, BotSource.WholeOver;
    r := BotSource.Chunk(dl, server, now, Total(chunks), chunks, cfg.Offset(i), cfg.chunkSize);
  }

  /** `s` is a reader over the stored object, opened as a GET was answered. */
  ghost predicate Serves(s: Prefetch.State, files: Files, a: Answer) {
    && PrefetchTheorems.Reachable(s) && a.Opened?
    && s.cfg.content == Content(files, a.locs) && s.cfg.start == a.start && s.cfg.end == a.end
  }

  /** What the reader is opened for is what the request asks for. */
  lemma WantedIsRequested(cfg: Prefetch.Config, body: bytes, header: bytes, allowed: bool, chunks: seq<Chunk>, a: Answer)
    requires Answers(a, header, allowed, |body|, chunks) && a.Opened?
    requires cfg.Valid() && cfg.content == body && cfg.start == a.start && cfg.end == a.end
    ensures PrefetchTheorems.Wanted(cfg) == Asked(body, header, allowed) && |Asked(body, header, allowed)| == a.contentLength
  {
    hide Asked;
    assert body[a.start..a.end] == Asked(body, header, allowed);
  }

  /**
   For any body, any chunk size and any `Range` header, on every interleaving of the reader a GET opens:
   what has been delivered is a prefix of the requested slice of the uploaded body.
   */
  lemma DeliversRequestedPrefix(body: bytes, chunkSize: nat, files: Files, chunks: seq<Chunk>, header: bytes,
                                allowed: bool, a: Answer, s: Prefetch.State)
    requires UploadedAs(files, chunks, body, chunkSize)
    requires Answers(a, header, allowed, |body|, chunks) && Serves(s, files, a)
    ensures s.delivered <= Asked(body, header, allowed)
  {
    hide Asked, Tiles, Holds, Content;
    WantedIsRequested(s.cfg, body, header, allowed, chunks, a);
    PrefetchTheorems.DeliveredInOrder(s);
  }

  /** ... and when an uncancelled reader answers EOF, it is exactly that slice, of the announced length. */
  lemma EofDeliversRequested(body: bytes, chunkSize: nat, files: Files, chunks: seq<Chunk>, header: bytes,
                             allowed: bool, a: Answer, s: Prefetch.State, plen: nat)
    requires UploadedAs(files, chunks, body, chunkSize)
    requires Answers(a, header, allowed, |body|, chunks) && Serves(s, files, a)
    requires !s.cancelled && Prefetch.ReadResultOf(s, plen).Eof?
    ensures s.delivered == Asked(body, header, allowed) && |s.delivered| == a.contentLength
  {
    hide Asked, Tiles, Holds, Content, Prefetch.ReadResultOf;
    WantedIsRequested(s.cfg, body, header, allowed, chunks, a);
    PrefetchTheorems.EofIsComplete(s, plen);
  }

  /** An interrupted read has delivered the requested bytes up to the lowest failing chunk, and stays failed. */
  lemma FailureDeliversPrefix(body: bytes, chunkSize: nat, files: Files, chunks: seq<Chunk>, header: bytes,
                              allowed: bool, a: Answer, s: Prefetch.State, plen: nat)
    requires UploadedAs(files, chunks, body, chunkSize)
    requires Answers(a, header, allowed, |body|, chunks) && Serves(s, files, a)
    requires !s.cancelled && Prefetch.ReadResultOf(s, plen).Failed?
    ensures s.sent in s.failures && forall i | i in s.failures :: s.sent <= i
    ensures s.delivered == Cut(body, s.cfg.start, s.cfg.Bound(s.sent)) && s.delivered <= Asked(body, header, allowed)
    ensures PrefetchTheorems.AnswersForEver(Prefetch.ApplyRead(s, plen), Prefetch.ReadResultOf(s, plen))
  {
    hide Asked, Tiles, Holds, Content, Prefetch.ReadResultOf, PrefetchTheorems.AnswersForEver;
    DeliversRequestedPrefix(body, chunkSize, files, chunks, header, allowed, a, s);
    PrefetchTheorems.LowestFailureSurfaces(s, plen);
  }
}

/** The Telegram backend: a pool of bots over one channel of messages. */
module Backend {
  import opened ByteStrings
  import opened ChunkMaps
  import opened DeleteBatches

  datatype BotOp = StreamOp | UploadOp

  /** Round-robin over the bots, with one counter per kind of operation. */
  class Pool {
    const bots: nat
    var streamIdx: nat
    var uploadIdx: nat

    constructor (bots: nat)
      requires 0 < bots
      ensures this.bots == bots && streamIdx == 0 && uploadIdx == 0
    {
      this.bots, streamIdx, uploadIdx := bots, 0, 0;
    }

    method Pick(op: BotOp) returns (i: nat)
      requires 0 < bots
      modifies this
      ensures op.UploadOp? ==> i == old(uploadIdx) % bots && uploadIdx == old(uploadIdx) + 1 && streamIdx == old(streamIdx)
      ensures op.StreamOp? ==> i == old(streamIdx) % bots && streamIdx == old(streamIdx) + 1 && uploadIdx == old(uploadIdx)
      ensures i < bots
    {
      var next: nat;
      if op.UploadOp? {
        uploadIdx := uploadIdx + 1;
        next := uploadIdx - 1;
      } else {
        streamIdx := streamIdx + 1;
        next := streamIdx - 1;
      }
      i := next % bots;
    }

    /** The bot at an index, or nothing when the pool is smaller than that. */
    function At(i: int): (bot: Option<nat>)
      ensures bot.Some? <==> InPool(i, bots)
      ensures bot.Some? ==> bot.value == i
    {
      if i < 0 || i >= bots then None else Some(i)
    }
  }

  function PickAt(start: nat, k: nat, bots: nat): nat
    requires 0 < bots
  {
    (start + k) % bots
  }

  lemma CloseDiffer(x: nat, y: nat, n: nat)
    requires 0 < n && x < y < x + n
    ensures x % n != y % n
  {
    var q, r := x / n, x % n;
    assert x == q * n + r;
    if y - x < n - r {
      DivUnique(y, n, q, r + (y - x));
    } else {
      assert (q + 1) * n == q * n + n;
      DivUnique(y, n, q + 1, r + (y - x) - n);
    }
  }

  lemma PickOf(start: nat, bots: nat, bot: nat) returns (k: nat)
    requires bot < bots
    ensures k < bots && PickAt(start, k, bots) == bot
  {
    var q, r := start / bots, start % bots;
    assert start == q * bots + r;
    if r <= bot {
      k := bot - r;
      DivUnique(start + k, bots, q, bot);
    } else {
      k := bots - r + bot;
      MulGap(q, q + 1, bots);
      assert (q + 1) * bots == q * bots + bots;
      DivUnique(start + k, bots, q + 1, bot);
    }
  }

  /** Any `bots` picks in a row reach every bot exactly once. */
  lemma PicksSpread(start: nat, bots: nat, bot: nat) returns (k: nat)
    requires bot < bots
    ensures k < bots && PickAt(start, k, bots) == bot
    ensures forall l: nat | l < bots && PickAt(start, l, bots) == bot :: l == k
  {
    k := PickOf(start, bots, bot);
    forall l: nat | l < bots && PickAt(start, l, bots) == bot
      ensures l == k
    {
      if l < k {
        CloseDiffer(start + l, start + k, bots);
      } else if k < l {
        CloseDiffer(start + k, start + l, bots);
      }
    }
  }

  /**
   What becomes of one document: it is stored whole and confirmed; or nothing reaches the channel; or it is stored in
   some size, but its id or the read-back is lost; or it is read back, as a document of that size or as none.
   */
  datatype Send =
    | Delivered
    | Unsent
    | Unconfirmed(size: nat)
    | ReadBack(size: nat, found: bool, deletable: bool)

  predicate SendsFit(sends: seq<Send>) {
    forall i | 0 <= i < |sends| :: sends[i].Delivered?
  }

  /** What the channel holds of `data` as a document of another size. */
  function Resized(data: bytes, size: nat): (d: bytes)
    ensures |d| == size && (size == |data| ==> d == data)
  {
    if size <= |data| then data[..size] else data + seq(size - |data|, _ => 0)
  }

  /** The document is confirmed at the size that was sent. */
  predicate Confirms(send: Send, size: nat) {
    send.Delivered? || (send.ReadBack? && send.found && send.size == size)
  }

  /** A successful upload of `body`: full-size chunks and a shorter last one, holding `body`. */
  predicate UploadedAs(files: Files, chunks: seq<Chunk>, body: bytes, chunkSize: nat) {
    && Tiles(chunks) && Holds(files, chunks)
    && Total(chunks) == |body| && Content(files, chunks) == body
    && FullButLast(chunks, chunkSize)
  }

  predicate AllFull(chunks: seq<Chunk>, chunkSize: nat) {
    forall i | 0 <= i < |chunks| :: chunks[i].size == chunkSize
  }

  predicate FullButLast(chunks: seq<Chunk>, chunkSize: nat) {
    forall i | 0 <= i < |chunks| :: if i < |chunks| - 1 then chunks[i].size == chunkSize else chunks[i].size <= chunkSize
  }

  lemma FullSnoc(chunks: seq<Chunk>, c: Chunk, chunkSize: nat)
    requires AllFull(chunks, chunkSize) && c.size <= chunkSize
    ensures FullButLast(chunks + [c], chunkSize) && (c.size == chunkSize ==> AllFull(chunks + [c], chunkSize))
  {
  }

  /** Each chunk is recorded under the bot that sent it, the bots taking turns. */
  predicate SentBy(chunks: seq<Chunk>, picks: nat, bots: nat)
    requires 0 < bots
  {
    forall i | 0 <= i < |chunks| :: chunks[i].botIndex == PickAt(picks, i, bots)
  }

  lemma SentBySnoc(chunks: seq<Chunk>, c: Chunk, picks: nat, bots: nat)
    requires 0 < bots && SentBy(chunks, picks, bots) && c.botIndex == (picks + |chunks|) % bots
    ensures SentBy(chunks + [c], picks, bots)
  {
  }

  lemma SentByNone(picks: nat, bots: nat)
    requires 0 < bots
    ensures SentBy([], picks, bots)
  {
  }

  lemma AllIsFull(chunks: seq<Chunk>, chunkSize: nat)
    requires AllFull(chunks, chunkSize)
    ensures FullButLast(chunks, chunkSize)
  {
  }

  /** Every chunk sent so far is full-size, and together they hold the bytes consumed so far. */
  predicate UploadedSoFar(before: Files, after: Files, chunks: seq<Chunk>, done: bytes, first: nat) {
    && Tiles(chunks) && Holds(after, chunks) && FreshFrom(chunks, first)
    && Total(chunks) == |done| && Content(after, chunks) == done
    && OnlyFreshChanged(before, after, first)
    && after.Keys == before.Keys + Messages(chunks)
  }

  lemma NothingUploaded(files: Files, first: nat, chunkSize: nat)
    ensures UploadedSoFar(files, files, [], [], first) && AllFull([], chunkSize)
  {
  }

  lemma OneMoreChunk(before: Files, files: Files, chunks: seq<Chunk>, done: bytes, first: nat, data: bytes, c: Chunk)
    requires UploadedSoFar(before, files, chunks, done, first)
    requires forall m | m in files :: m < first + |chunks|
    requires data != [] && c.seqNo == |chunks| && c.msg == first + |chunks| && c.size == |data| && c.offset == |done|
    ensures UploadedSoFar(before, files[c.msg := data], chunks + [c], done + data, first)
  {
    hide Content, Tiles, Total, Holds, Messages;
    TilesSnoc(chunks, c);
    HoldsMore(files, chunks, c, data);
    MessagesSnoc(chunks, c);
  }

  /** A message no chunk refers to yet can be added behind them. */
  lemma HoldsMore(files: Files, chunks: seq<Chunk>, c: Chunk, data: bytes)
    requires Holds(files, chunks) && c.msg !in files && |data| == c.size
    ensures
      var after := files[c.msg := data];
      Holds(after, chunks + [c]) && Content(after, chunks + [c]) == Content(files, chunks) + data
  {
    hide Content;
    var after := files[c.msg := data];
    ContentFrame(files, after, chunks);
    ContentSnoc(after, chunks, c);
  }

  lemma SoFarFresh(before: Files, after: Files, chunks: seq<Chunk>, done: bytes, first: nat)
    requires UploadedSoFar(before, after, chunks, done, first)
    ensures OnlyFreshChanged(before, after, first) && FreshFrom(chunks, first)
    ensures Total(chunks) == |done| && after.Keys == before.Keys + Messages(chunks)
  {
  }

  /** At most the document that was not accepted is left behind. */
  predicate AtMostOneNew(before: Files, after: Files) {
    forall m, n | m in after.Keys - before.Keys && n in after.Keys - before.Keys :: m == n
  }

  lemma AllCleaned(before: Files, files: Files, chunks: seq<Chunk>, done: bytes, first: nat)
    requires UploadedSoFar(before, files, chunks, done, first) && forall m | m in before :: m < first
    ensures files - Messages(chunks) == before
  {
    hide Content, Tiles, Total, Holds;
    forall m | m in Messages(chunks)
      ensures first <= m
    {
      var i :| 0 <= i < |chunks| && chunks[i].msg == m;
    }
  }

  lemma OneLeft(before: Files, mid: Files, left: Files, chunks: seq<Chunk>, id: nat)
    requires mid.Keys == before.Keys + Messages(chunks) && left.Keys <= mid.Keys + {id}
    ensures AtMostOneNew(before, left - Messages(chunks))
  {
  }

  lemma FreshAgain(before: Files, mid: Files, after: Files, first: nat, next: nat)
    requires OnlyFreshChanged(before, mid, first) && OnlyFreshChanged(mid, after, next) && first <= next
    ensures OnlyFreshChanged(before, after, first)
  {
  }

  lemma UploadDone(before: Files, after: Files, chunks: seq<Chunk>, body: bytes, first: nat, chunkSize: nat)
    requires UploadedSoFar(before, after, chunks, body, first)
    requires FullButLast(chunks, chunkSize)
    ensures UploadedAs(after, chunks, body, chunkSize) && OnlyFreshChanged(before, after, first)
  {
  }

  predicate FreshFrom(chunks: seq<Chunk>, first: nat) {
    forall i | 0 <= i < |chunks| :: chunks[i].msg == first + i
  }

  function RefsOf(chunks: seq<Chunk>): seq<Ref> {
    seq(|chunks|, i requires 0 <= i < |chunks| => Ref(chunks[i].msg, chunks[i].botIndex))
  }

  lemma IdsOfRefs(chunks: seq<Chunk>)
    ensures IdSet(Ids(RefsOf(chunks))) == Messages(chunks)
  {
    var ids := Ids(RefsOf(chunks));
    forall m | m in Messages(chunks)
      ensures m in ids
    {
      var i :| 0 <= i < |chunks| && chunks[i].msg == m;
      assert ids[i] == m;
    }
  }

  /** Only messages numbered from `first` on have come or gone. */
  predicate OnlyFreshChanged(before: Files, after: Files, first: nat) {
    && (forall m | m in before :: m in after && after[m] == before[m])
    && (forall m | m in after && m !in before :: first <= m)
  }

  /** `made` sent `ids` to `bot` in windows, and what it removed is gone. */
  predicate SentAll(before: Files, after: Files, made: seq<Call>, bot: nat, ids: seq<nat>, ok: bool) {
    && WellSized(made) && (forall c | c in made :: c.bot == bot)
    && SentTo(made, bot) == ids
    && after == before - Removed(made)
    && (ok <==> forall c | c in made :: !c.failed)
  }

  lemma OnlyRemoves(before: Files, after: Files, made: seq<Call>, bot: nat, ids: seq<nat>, ok: bool)
    requires SentAll(before, after, made, bot, ids, ok)
    ensures after.Keys <= before.Keys
  {
  }

  lemma OneMoreCall(before: Files, after: Files, made: seq<Call>, ids: seq<nat>, ok: bool, call: Call)
    requires SentAll(before, after, made, call.bot, ids, ok) && 0 < |call.ids| <= 100
    ensures SentAll(before, if call.failed then after else after - IdSet(call.ids),
                    made + [call], call.bot, ids + call.ids, ok && !call.failed)
  {
    RemovedAppend(made, [call]);
    assert Removed([call]) == if call.failed then {} else IdSet(call.ids);
    assert (made + [call])[..|made|] == made;
  }

  /** Every bot that is sent something has its ids, in order. */
  predicate GroupedAs(byBot: map<nat, seq<nat>>, refs: seq<Ref>, bots: nat, picks: nat)
    requires 0 < bots
  {
    && (forall b | b in byBot :: b < bots && byBot[b] != [])
    && (forall b: nat | b < bots :: Grouped(byBot, b) == Routed(refs, bots, picks, b))
  }

  lemma NothingGrouped(refs: seq<Ref>, bots: nat, picks: nat)
    requires 0 < bots
    ensures GroupedAs(map[], refs[..0], bots, picks) && Strays(refs[..0], bots) == 0
  {
  }

  lemma OneMoreRef(byBot: map<nat, seq<nat>>, refs: seq<Ref>, k: nat, bots: nat, picks: nat)
    requires 0 < bots && k < |refs| && GroupedAs(byBot, refs[..k], bots, picks)
    ensures
      var bot := Route(refs[..k + 1], bots, picks);
      bot < bots && GroupedAs(byBot[bot := Grouped(byBot, bot) + [refs[k].msg]], refs[..k + 1], bots, picks)
  {
    hide Routed, Route;
    RouteInPool(refs[..k + 1], bots, picks);
    var bot := Route(refs[..k + 1], bots, picks);
    var more := byBot[bot := Grouped(byBot, bot) + [refs[k].msg]];
    forall b: nat | b < bots
      ensures Grouped(more, b) == Routed(refs[..k + 1], bots, picks, b)
    {
      RoutedStep(refs, k, bots, picks, b);
    }
  }

  lemma GroupedMeans(byBot: map<nat, seq<nat>>, refs: seq<Ref>, bots: nat, picks: nat)
    requires 0 < bots && GroupedAs(byBot, refs, bots, picks)
    ensures forall b | b in byBot :: b < bots && byBot[b] != []
    ensures forall b: nat | b < bots :: Grouped(byBot, b) == Routed(refs, bots, picks, b)
  {
  }

  /** The channel and the bots that write to it. Message ids are never reused. */
  class Storage {
    const chunkSize: nat
    const pool: Pool
    var files: Files
    var nextMsg: nat
    var calls: seq<Call>

    predicate Valid()
      reads this
    {
      && 0 < chunkSize && 0 < pool.bots
      && forall m | m in files :: m < nextMsg
    }

    constructor (chunkSize: nat, pool: Pool)
      requires 0 < chunkSize && 0 < pool.bots
      ensures Valid() && files == map[] && this.chunkSize == chunkSize && this.pool == pool
    {
      this.chunkSize, this.pool, files, nextMsg, calls := chunkSize, pool, map[], 0, [];
    }

    /** Sends one document and reads it back; what is not confirmed at full size is not accepted. */
    method SendDocument(data: bytes, send: Send) returns (msg: Option<nat>)
      requires Valid()
      modifies this`files, this`nextMsg
      ensures Valid() && nextMsg >= old(nextMsg)
      ensures msg.Some? <==> send.Delivered? || (send.ReadBack? && send.found && send.size == |data|)
      ensures msg.Some? ==>
                msg.value == old(nextMsg) && nextMsg == old(nextMsg) + 1 && files == old(files)[old(nextMsg) := data]
      ensures msg.None? ==>
                OnlyFreshChanged(old(files), files, old(nextMsg)) && files.Keys <= old(files).Keys + {old(nextMsg)}
    {
      if send.Unsent? {
        return None;
      }
      var id := nextMsg;
      nextMsg := nextMsg + 1;
      var document := if send.Delivered? then data else Resized(data, send.size);
      files := files[id := document];
      if send.Unconfirmed? {
        return None;
      }
      if send.ReadBack? && (!send.found || |document| != |data|) {
        if send.deletable {
          files := files - {id};
        }
        return None;
      }
      assert document == data;
      return Some(id);
    }

    /** Deletes one bot's ids in windows of at most `DELETE_BATCH_SIZE`. */
    method DeleteForBot(bot: nat, ids: seq<nat>, faults: seq<bool>) returns (ok: bool, ghost made: seq<Call>)
      modifies this`files, this`calls
      ensures calls == old(calls) + made
      ensures SentAll(old(files), files, made, bot, ids, ok) && |made| == (|ids| + 99) / 100
      ensures (forall f | f in faults :: !f) ==> ok
    {
      hide SentAll;
      ok, made := true, [];
      var start := 0;
      NoCallsYet(files, bot);
      assert ids[..0] == [];
      while start < |ids|
        invariant 0 <= start == 100 * |made| < |ids| + 100 && calls == old(calls) + made
        invariant SentAll(old(files), files, made, bot, ids[..Min(start, |ids|)], ok)
        invariant (forall f | f in faults :: !f) ==> ok
        decreases |ids| - start
      {
        var end := start + DELETE_BATCH_SIZE;
        if end > |ids| {
          end := |ids|;
        }
        var call := Call(bot, ids[start..end], |calls| < |faults| && faults[|calls|]);
        OneMoreCall(old(files), files, made, ids[..start], ok, call);
        assert ids[..start] + ids[start..end] == ids[..end];
        if call.failed {
          assert faults[|calls|] in faults;
          ok := false;
        } else {
          files := files - IdSet(call.ids);
        }
        calls, made := calls + [call], made + [call];
        start := start + DELETE_BATCH_SIZE;
      }
      assert ids[..|ids|] == ids;
    }

    /** Groups references by the bot that deletes them, a stray one going to any bot. */
    method GroupByBot(refs: seq<Ref>) returns (byBot: map<nat, seq<nat>>)
      requires 0 < pool.bots
      modifies pool
      ensures pool.uploadIdx == old(pool.uploadIdx)
      ensures forall b | b in byBot :: b < pool.bots && byBot[b] != []
      ensures forall b: nat | b < pool.bots :: Grouped(byBot, b) == Routed(refs, pool.bots, old(pool.streamIdx), b)
    {
      hide GroupedAs, Strays, Route, Routed;
      byBot := map[];
      var k := 0;
      ghost var picks := pool.streamIdx;
      NothingGrouped(refs, pool.bots, picks);
      while k < |refs|
        invariant k <= |refs|
        invariant pool.streamIdx == picks + Strays(refs[..k], pool.bots) && pool.uploadIdx == old(pool.uploadIdx)
        invariant GroupedAs(byBot, refs[..k], pool.bots, picks)
      {
        RouteStep(refs, k, pool.bots, picks);
        var at := pool.At(refs[k].botIndex);
        var bot: nat;
        if at.None? {
          bot := pool.Pick(StreamOp);
        } else {
          bot := at.value;
        }
        OneMoreRef(byBot, refs, k, pool.bots, picks);
        var ids := if bot in byBot then byBot[bot] else [];
        byBot := byBot[bot := ids + [refs[k].msg]];
        k := k + 1;
      }
      assert refs[..|refs|] == refs;
      GroupedMeans(byBot, refs, pool.bots, picks);
    }

    /** Deletes a batch of messages, and says whether every call was taken. */
    method DeleteBatch(refs: seq<Ref>, faults: seq<bool>) returns (ok: bool, ghost made: seq<Call>)
      requires Valid()
      modifies this`files, this`calls, pool
      ensures Valid() && pool.uploadIdx == old(pool.uploadIdx)
      ensures calls == old(calls) + made && Covers(made, refs, pool.bots, old(pool.streamIdx))
      ensures files == old(files) - Removed(made)
      ensures ok <==> forall c | c in made :: !c.failed
      ensures (forall f | f in faults :: !f) ==> ok
    {
      hide PartlySent, SentAll, Covers, Removed, Grouped, Routed, Route, SentTo, WellSized;
      ok, made := true, [];
      NothingToSend(files, refs, pool.bots, pool.streamIdx);
      if |refs| == 0 {
        return;
      }
      var byBot := GroupByBot(refs);
      var todo := byBot.Keys;
      NothingSentYet(files, byBot, pool.bots);
      while todo != {}
        invariant Valid() && pool.uploadIdx == old(pool.uploadIdx)
        invariant todo <= byBot.Keys && calls == old(calls) + made
        invariant PartlySent(old(files), files, made, byBot, todo, pool.bots, ok)
        invariant (forall f | f in faults :: !f) ==> ok
      {
        var b :| b in todo;
        ghost var mid := files;
        var fine, more := DeleteForBot(b, byBot[b], faults);
        OnlyRemoves(mid, files, more, b, byBot[b], fine);
        OneMoreBot(old(files), files, made, byBot, todo, pool.bots, ok, b, more, fine);
        ok, made, todo := ok && fine, made + more, todo - {b};
      }
      AllBotsSent(old(files), files, made, byBot, pool.bots, ok, refs, old(pool.streamIdx));
    }

    /** Best-effort deletion of the chunks of an upload that failed later on. */
    method Cleanup(chunks: seq<Chunk>, ghost before: Files, ghost first: nat, faults: seq<bool>)
      requires Valid() && OnlyFreshChanged(before, files, first) && FreshFrom(chunks, first)
      requires forall m | m in before :: m < first
      modifies this`files, this`calls, pool
      ensures Valid() && OnlyFreshChanged(before, files, first) && files.Keys <= old(files).Keys
      ensures (forall f | f in faults :: !f) ==> files == old(files) - Messages(chunks)
    {
      if |chunks| == 0 {
        assert Messages(chunks) == {};
        return;
      }
      var ok, made := DeleteBatch(RefsOf(chunks), faults);
      CoversRemoves(made, RefsOf(chunks), pool.bots, old(pool.streamIdx));
      IdsOfRefs(chunks);
      forall m | m in Removed(made)
        ensures first <= m
      {
        assert m in Ids(RefsOf(chunks));
      }
    }

    /**
     Splits the body into messages of `chunkSize` bytes. `bodyFails` is a body whose reader ends
     in an error; `sends` says what happens to each document and `faults` to each delete call.
     `byBody` says whether it was the body's error that ended the upload.
     */
    method Upload(body: bytes, bodyFails: bool, sends: seq<Send>, faults: seq<bool>)
      returns (r: Option<seq<Chunk>>, byBody: bool)
      requires Valid()
      modifies this`files, this`nextMsg, this`calls, pool
      ensures Valid() && nextMsg >= old(nextMsg)
      ensures OnlyFreshChanged(old(files), files, old(nextMsg))
      ensures r.Some? ==>
                && UploadedAs(files, r.value, body, chunkSize)
                && FreshFrom(r.value, old(nextMsg)) && nextMsg == old(nextMsg) + |r.value|
                && SentBy(r.value, old(pool.uploadIdx), pool.bots)
                && files.Keys == old(files).Keys + Messages(r.value)
      ensures bodyFails ==> r.None?
      ensures r.None? ==> if byBody then bodyFails else !SendsFit(sends)
      ensures r.None? && (forall f | f in faults :: !f) ==>
                if byBody then files == old(files) else AtMostOneNew(old(files), files)
    {
      byBody := false;
      hide UploadedSoFar, UploadedAs, OnlyFreshChanged, FreshFrom, Messages, AtMostOneNew;
      hide Total, AllFull, FullButLast, SentBy;
      var chunks: seq<Chunk> := [];
      var offset, seqNo := 0, 0;
      ghost var before, first, picks := files, nextMsg, pool.uploadIdx;
      NothingUploaded(files, nextMsg, chunkSize);
      SentByNone(picks, pool.bots);
      assert body[..0] == [];
      while true
        invariant Valid() && offset <= |body| && seqNo == |chunks|
        invariant nextMsg == first + |chunks| && pool.uploadIdx == picks + |chunks|
        invariant SentBy(chunks, picks, pool.bots)
        invariant UploadedSoFar(before, files, chunks, body[..offset], first) && AllFull(chunks, chunkSize)
        decreases |body| - offset
      {
        SoFarFresh(before, files, chunks, body[..offset], first);
        AllIsFull(chunks, chunkSize);
        var n := Min(chunkSize, |body| - offset);
        if n > 0 {
          ghost var mid := files;
          var botIdx := pool.Pick(UploadOp);
          var data := body[offset..offset + n];
          var msg := SendDocument(data, if seqNo < |sends| then sends[seqNo] else Delivered);
          if msg.None? {
            FreshAgain(before, mid, files, first, first + |chunks|);
            ghost var left := files;
            Cleanup(chunks, before, first, faults);
            OneLeft(before, mid, left, chunks, first + |chunks|);
            return None, false;
          }
          var c := Chunk(seqNo, msg.value, n, offset, botIdx);
          OneMoreChunk(before, mid, chunks, body[..offset], first, data, c);
          assert body[..offset] + data == body[..offset + n];
          FullSnoc(chunks, c, chunkSize);
          SentBySnoc(chunks, c, picks, pool.bots);
          chunks := chunks + [c];
          offset := offset + n;
          SoFarFresh(before, files, chunks, body[..offset], first);
        }
        seqNo := seqNo + 1;
        if bodyFails && n < chunkSize {
          AllCleaned(before, files, chunks, body[..offset], first);
          Cleanup(chunks, before, first, faults);
          return None, true;
        }
        if n < chunkSize {
          break;
        }
      }
      assert body[..offset] == body;
      SoFarFresh(before, files, chunks, body, first);
      UploadDone(before, files, chunks, body, first, chunkSize);
      return Some(chunks), false;
    }
  }

  lemma NothingToSend(files: Files, refs: seq<Ref>, bots: nat, picks: nat)
    requires 0 < bots
    ensures |refs| == 0 ==> Covers([], refs, bots, picks)
    ensures files - Removed([]) == files
  {
  }

  lemma NothingSentYet(files: Files, byBot: map<nat, seq<nat>>, bots: nat)
    ensures PartlySent(files, files, [], byBot, byBot.Keys, bots, true)
  {
    NothingToSend(files, [], 1, 0);
  }

  lemma AllBotsSent(before: Files, after: Files, made: seq<Call>, byBot: map<nat, seq<nat>>, bots: nat, ok: bool,
                    refs: seq<Ref>, picks: nat)
    requires 0 < bots && PartlySent(before, after, made, byBot, {}, bots, ok)
    requires forall b: nat | b < bots :: Grouped(byBot, b) == Routed(refs, bots, picks, b)
    ensures Covers(made, refs, bots, picks) && after == before - Removed(made)
    ensures ok <==> forall c | c in made :: !c.failed
  {
  }

  /** The bots outside `todo` have been sent their ids, and the others nothing yet. */
  predicate PartlySent(before: Files, after: Files, made: seq<Call>, byBot: map<nat, seq<nat>>, todo: set<nat>,
                       bots: nat, ok: bool)
  {
    && WellSized(made) && (forall c | c in made :: c.bot < bots)
    && (forall b: nat | b < bots :: SentTo(made, b) == if b in todo then [] else Grouped(byBot, b))
    && after == before - Removed(made)
    && (ok <==> forall c | c in made :: !c.failed)
  }

  lemma OneMoreBot(before: Files, after: Files, made: seq<Call>, byBot: map<nat, seq<nat>>, todo: set<nat>, bots: nat,
                   ok: bool, b: nat, more: seq<Call>, fine: bool)
    requires b in todo && todo <= byBot.Keys && b < bots
    requires exists mid: Files ::
               PartlySent(before, mid, made, byBot, todo, bots, ok) && SentAll(mid, after, more, b, byBot[b], fine)
    ensures PartlySent(before, after, made + more, byBot, todo - {b}, bots, ok && fine)
  {
    var mid: Files :|
      PartlySent(before, mid, made, byBot, todo, bots, ok) && SentAll(mid, after, more, b, byBot[b], fine);
    hide Removed, SentTo, WellSized;
    RemovedAppend(made, more);
    assert WellSized(made + more) by { SizedAppend(made, more); }
    forall other: nat | other < bots
      ensures SentTo(made + more, other) == if other in todo - {b} then [] else Grouped(byBot, other)
    {
      SentToMore(made, more, byBot, todo, b, other);
    }
  }

  lemma SizedAppend(a: seq<Call>, b: seq<Call>)
    requires WellSized(a) && WellSized(b)
    ensures WellSized(a + b)
  {
  }

  lemma SentToMore(made: seq<Call>, more: seq<Call>, byBot: map<nat, seq<nat>>, todo: set<nat>, b: nat, other: nat)
    requires b in todo && b in byBot && SentTo(more, b) == byBot[b] && forall c | c in more :: c.bot == b
    requires SentTo(made, other) == if other in todo then [] else Grouped(byBot, other)
    ensures SentTo(made + more, other) == if other in todo - {b} then [] else Grouped(byBot, other)
  {
    hide SentTo;
    SentToAppend(made, more, other);
    if other != b {
      SentToOther(more, b, other);
    }
  }

  function Grouped(byBot: map<nat, seq<nat>>, b: nat): seq<nat> {
    if b in byBot then byBot[b] else []
  }

  lemma SentToOther(calls: seq<Call>, bot: nat, other: nat)
    requires bot != other && forall c | c in calls :: c.bot == bot
    ensures SentTo(calls, other) == []
  {
  }

  lemma NoCallsYet(files: Files, bot: nat)
    ensures SentAll(files, files, [], bot, [], true)
  {
  }
}

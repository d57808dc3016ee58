/**
 The parallel prefetch reader as a step machine. Workers race for chunk indices
 through a shared counter and publish into one-shot slots, a drainer takes the
 slots in index order, trims them and forwards them through a bounded channel,
 and a consumer primes, reads and closes. One event is one atomic action of one
 goroutine, so a sequence of events is one interleaving.
 */
module PrefetchModel {
  import opened ByteStrings

  datatype Error = FetchError(code: nat) | Cancelled

  datatype Buffer = Data(buf: bytes) | Fail(error: Error)

  datatype Config = Config(content: bytes, start: nat, end: nat, chunkSize: nat, concurrency: nat, outCap: nat) {

    predicate Valid() {
      start <= end && 0 < chunkSize && 0 < concurrency && 0 < outCap
    }

    function AlignedStart(): nat
      requires Valid()
    {
      start - start % chunkSize
    }

    function AlignedEnd(): nat
      requires Valid()
    {
      if end % chunkSize != 0 then end + (chunkSize - end % chunkSize) else end
    }

    function NChunks(): nat
      requires Valid()
    {
      if start >= end then 0 else (AlignedEnd() - AlignedStart()) / chunkSize
    }

    function WorkerCount(): nat
      requires Valid()
    {
      Min(concurrency, NChunks())
    }

    function Offset(i: nat): nat
      requires Valid()
    {
      AlignedStart() + i * chunkSize
    }

    /** Where the first `i` chunks end inside the requested range. */
    function Bound(i: nat): nat
      requires Valid()
    {
      Min(end, Max(start, Offset(i)))
    }

    /** What a source that never reads short returns for chunk `i`. */
    function Full(i: nat): bytes
      requires Valid()
    {
      Cut(content, Offset(i), Offset(i) + chunkSize)
    }

    /** The drainer's leftCut/rightCut arithmetic on whatever chunk `i` returned. */
    function Trim(i: nat, buf: bytes): bytes
      requires Valid()
    {
      var chunkOff := Offset(i);
      var lo := Max(chunkOff, start);
      var hi := Min(chunkOff + |buf|, end);
      if hi <= lo then [] else buf[lo - chunkOff..hi - chunkOff]
    }
  }

  /** `New`'s defaulting: arguments in range are kept, and a range that ends before it starts is empty. */
  function MakeConfig(content: bytes, start: int, end: int, chunkSize: int, concurrency: int, outBuffers: int): (cfg: Config)
    ensures cfg.Valid() && cfg.content == content
    ensures 0 <= start ==> cfg.start == start
    ensures 0 <= start <= end ==> cfg.end == end
    ensures end <= Max(start, 0) ==> cfg.start == cfg.end
    ensures 0 < chunkSize ==> cfg.chunkSize == chunkSize
    ensures 0 < concurrency ==> cfg.concurrency == concurrency
    ensures 0 < outBuffers ==> cfg.outCap == outBuffers
    ensures chunkSize <= 0 ==> cfg.chunkSize == 0x10_0000
    ensures concurrency <= 0 ==> cfg.concurrency == 1
    ensures outBuffers <= 0 ==> cfg.outCap == 1
  {
    var lo := Max(start, 0);
    Config(content, lo, Max(end, lo), if chunkSize <= 0 then 0x10_0000 else chunkSize,
           Max(concurrency, 1), Max(outBuffers, 1))
  }

  datatype Worker = Idle | Claimed(i: nat) | Fetching(i: nat) | Holding(i: nat, b: Buffer) | Done

  datatype Drainer = Waiting | Sending(b: Buffer) | Stopped

  datatype ReadResult = Got(bytes: bytes) | Eof | Failed(error: Error) | Blocked

  /**
   `taken` and `sent` count the slots the drainer received and the data buffers it
   forwarded; `out` is closed exactly when the drainer is Stopped. `delivered` is
   everything Read has returned and `failures` the chunks whose fetch failed.
   */
  datatype State = State(cfg: Config, idx: nat, workers: seq<Worker>, slots: seq<Option<Buffer>>,
                         drainer: Drainer, taken: nat, sent: nat, out: seq<Buffer>,
                         cancelled: bool, closing: bool,
                         cur: Option<bytes>, err: Option<ReadResult>,
                         delivered: bytes, failures: map<nat, Error>)

  datatype Outcome = FetchOk | FetchErr(code: nat) | FetchAborted

  datatype Event =
    | Claim(w: nat)                    // idx.Add(1) - 1
    | Check(w: nat)                    // ctx.Err() before the fetch
    | Fetch(w: nat, outcome: Outcome)  // src.Chunk returns
    | Publish(w: nat)                  // results[i] <- b
    | GiveUp(w: nat)                   // <-ctx.Done() while publishing
    | Take                             // b = <-results[i], and the trim
    | Send                             // out <- b
    | Finish                           // the drain loop is over
    | Quit                             // <-ctx.Done() in the drainer
    | Prime
    | Read(plen: nat)
    | Cancel                           // the caller's context ends
    | Close
    | Flush                            // Close's goroutine discards one buffer

  function InitialState(cfg: Config): State
    requires cfg.Valid()
  {
    State(cfg, 0, seq(cfg.WorkerCount(), _ => Idle), seq(cfg.NChunks(), _ => None),
          if cfg.start >= cfg.end then Stopped else Waiting, 0, 0, [],
          false, false, None, None, [], map[])
  }

  predicate HasIndex(wk: Worker) {
    wk.Claimed? || wk.Fetching? || wk.Holding?
  }

  /** What a pass of Read's loop leaves staged and queued, and what Read answers. */
  datatype ReadStep = ReadStep(cur: Option<bytes>, out: seq<Buffer>, result: ReadResult)

  /** Read's loop: drop exhausted buffers, receive the next, copy at most `plen` bytes. */
  function ReadLoop(cur: Option<bytes>, out: seq<Buffer>, closed: bool, plen: nat): ReadStep
    decreases |out|
  {
    if cur.Some? && cur.value != [] then
      var n := Min(plen, |cur.value|);
      ReadStep(Some(cur.value[n..]), out, Got(cur.value[..n]))
    else if out == [] then
      ReadStep(None, [], if closed then Eof else Blocked)
    else if out[0].Fail? then
      ReadStep(None, out[1..], Failed(out[0].error))
    else
      ReadLoop(Some(out[0].buf), out[1..], closed, plen)
  }

  function ReadResultOf(s: State, plen: nat): ReadResult {
    if s.err.Some? then s.err.value else ReadLoop(s.cur, s.out, s.drainer.Stopped?, plen).result
  }

  function ApplyRead(s: State, plen: nat): State {
    if s.err.Some? then s else
    var ReadStep(cur, out, r) := ReadLoop(s.cur, s.out, s.drainer.Stopped?, plen);
    s.(cur := cur, out := out,
       err := if r.Eof? || r.Failed? then Some(r) else None,
       delivered := if r.Got? then s.delivered + r.bytes else s.delivered)
  }

  /** Prime's answer; `Got([])` stands for a nil error. */
  function PrimeResultOf(s: State): ReadResult {
    if s.cur.Some? then Got([])
    else if s.out == [] then (if s.drainer.Stopped? then Eof else Blocked)
    else if s.out[0].Fail? then Failed(s.out[0].error)
    else Got([])
  }

  function ApplyPrime(s: State): State {
    if s.cur.Some? || s.out == [] then s
    else if s.out[0].Fail? then s.(out := s.out[1..], err := Some(Failed(s.out[0].error)))
    else s.(out := s.out[1..], cur := Some(s.out[0].buf))
  }

  predicate CanClaim(s: State, w: nat) {
    w < |s.workers| && s.workers[w].Idle?
  }

  function ApplyClaim(s: State, w: nat): State
    requires CanClaim(s, w)
  {
    s.(idx := s.idx + 1, workers := s.workers[w := if s.idx >= |s.slots| then Done else Claimed(s.idx)])
  }

  predicate CanCheck(s: State, w: nat) {
    w < |s.workers| && s.workers[w].Claimed? && s.workers[w].i < |s.slots|
  }

  function ApplyCheck(s: State, w: nat): State
    requires CanCheck(s, w)
  {
    var i := s.workers[w].i;
    if s.cancelled then
      s.(workers := s.workers[w := Done],
         slots := if s.slots[i].None? then s.slots[i := Some(Fail(Cancelled))] else s.slots)
    else
      s.(workers := s.workers[w := Fetching(i)])
  }

  predicate CanFetch(s: State, w: nat, o: Outcome) {
    s.cfg.Valid() && w < |s.workers| && s.workers[w].Fetching? && (o.FetchAborted? ==> s.cancelled)
  }

  function ApplyFetch(s: State, w: nat, o: Outcome): State
    requires CanFetch(s, w, o)
  {
    var i := s.workers[w].i;
    match o
    case FetchOk => s.(workers := s.workers[w := Holding(i, Data(s.cfg.Full(i)))])
    case FetchErr(code) =>
      s.(workers := s.workers[w := Holding(i, Fail(FetchError(code)))], failures := s.failures[i := FetchError(code)])
    case FetchAborted => s.(workers := s.workers[w := Holding(i, Fail(Cancelled))])
  }

  /** A slot holds one buffer, so sending into a full one would have to wait. */
  predicate CanPublish(s: State, w: nat) {
    && w < |s.workers| && s.workers[w].Holding?
    && s.workers[w].i < |s.slots| && s.slots[s.workers[w].i].None?
  }

  function ApplyPublish(s: State, w: nat): State
    requires CanPublish(s, w)
  {
    s.(workers := s.workers[w := Idle], slots := s.slots[s.workers[w].i := Some(s.workers[w].b)])
  }

  predicate CanGiveUp(s: State, w: nat) {
    w < |s.workers| && s.workers[w].Holding? && s.cancelled
  }

  function ApplyGiveUp(s: State, w: nat): State
    requires CanGiveUp(s, w)
  {
    s.(workers := s.workers[w := Done])
  }

  predicate CanTake(s: State) {
    s.cfg.Valid() && s.drainer.Waiting? && s.taken < |s.slots| && s.slots[s.taken].Some?
  }

  function ApplyTake(s: State): State
    requires CanTake(s)
  {
    var b := s.slots[s.taken].value;
    s.(slots := s.slots[s.taken := None], taken := s.taken + 1,
       drainer := Sending(if b.Data? then Data(s.cfg.Trim(s.taken, b.buf)) else b))
  }

  predicate CanSend(s: State) {
    s.drainer.Sending? && |s.out| < s.cfg.outCap
  }

  function ApplySend(s: State): State
    requires CanSend(s)
  {
    if s.drainer.b.Fail? then
      s.(out := s.out + [s.drainer.b], drainer := Stopped)
    else
      s.(out := s.out + [s.drainer.b], drainer := Waiting, sent := s.sent + 1)
  }

  predicate CanFinish(s: State) {
    s.drainer.Waiting? && s.taken >= |s.slots|
  }

  predicate CanQuit(s: State) {
    s.cancelled && (s.drainer.Sending? || (s.drainer.Waiting? && s.taken < |s.slots|))
  }

  /** What has to be true for the goroutine of the event to move. */
  predicate Enabled(s: State, e: Event) {
    match e
    case Claim(w) => CanClaim(s, w)
    case Check(w) => CanCheck(s, w)
    case Fetch(w, o) => CanFetch(s, w, o)
    case Publish(w) => CanPublish(s, w)
    case GiveUp(w) => CanGiveUp(s, w)
    case Take => CanTake(s)
    case Send => CanSend(s)
    case Finish => CanFinish(s)
    case Quit => CanQuit(s)
    case Prime => !s.closing
    case Read(_) => !s.closing
    case Cancel => true
    case Close => true
    case Flush => s.closing && s.out != []
  }

  function Apply(s: State, e: Event): State
    requires Enabled(s, e)
  {
    match e
    case Claim(w) => ApplyClaim(s, w)
    case Check(w) => ApplyCheck(s, w)
    case Fetch(w, o) => ApplyFetch(s, w, o)
    case Publish(w) => ApplyPublish(s, w)
    case GiveUp(w) => ApplyGiveUp(s, w)
    case Take => ApplyTake(s)
    case Send => ApplySend(s)
    case Finish => s.(drainer := Stopped)
    case Quit => s.(drainer := Stopped)
    case Prime => ApplyPrime(s)
    case Read(plen) => ApplyRead(s, plen)
    case Cancel => s.(cancelled := true)
    case Close => s.(cancelled := true, closing := true)
    case Flush => s.(out := s.out[1..])
  }

  /** `events` is one interleaving from `s`, every event able to happen when it does. */
  predicate Possible(s: State, events: seq<Event>)
    decreases |events|
  {
    events == [] || (Enabled(s, events[0]) && Possible(Apply(s, events[0]), events[1..]))
  }

  function After(s: State, events: seq<Event>): State
    requires Possible(s, events)
    decreases |events|
  {
    if events == [] then s else After(Apply(s, events[0]), events[1..])
  }
}

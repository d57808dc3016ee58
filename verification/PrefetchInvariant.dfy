/** The inductive invariant of the prefetch machine, kept by every event of every goroutine. */
module PrefetchInvariant {
  import opened ByteStrings
  import opened PrefetchModel
  import opened PrefetchGeometry

  /** The requested bytes held by the first `k` chunks. */
  function Slice(cfg: Config, k: nat): bytes
    requires cfg.Valid()
  {
    Cut(cfg.content, cfg.start, cfg.Bound(k))
  }

  function Rest(cur: Option<bytes>): bytes {
    if cur.Some? then cur.value else []
  }

  function OutData(out: seq<Buffer>): bytes {
    if out == [] then []
    else (if out[0].Data? then out[0].buf else []) + OutData(out[1..])
  }

  predicate Shape(s: State) {
    && s.cfg.Valid()
    && |s.slots| == s.cfg.NChunks()
    && |s.workers| == s.cfg.WorkerCount()
    && s.sent <= s.taken <= s.sent + 1
    && s.taken <= |s.slots| && s.taken <= s.idx
    && (s.drainer.Waiting? ==> s.taken == s.sent)
    && (s.drainer.Sending? ==> s.taken == s.sent + 1)
    && |s.out| <= s.cfg.outCap
    && (s.closing ==> s.cancelled)
  }

  /** Every claimed chunk has one place: one worker, or its slot, or the drainer took it. */
  predicate Places(workers: seq<Worker>, slots: seq<Option<Buffer>>, taken: nat, idx: nat) {
    && (forall w | 0 <= w < |workers| && HasIndex(workers[w]) ::
          taken <= workers[w].i < |slots| && workers[w].i < idx && slots[workers[w].i].None?)
    && (forall v, w | 0 <= v < w < |workers| && HasIndex(workers[v]) && HasIndex(workers[w]) ::
          workers[v].i != workers[w].i)
    && (forall i | 0 <= i < |slots| && slots[i].Some? :: taken <= i < idx)
  }

  predicate BufferOk(cfg: Config, failures: map<nat, Error>, cancelled: bool, i: nat, b: Buffer)
    requires cfg.Valid()
  {
    match b
    case Data(x) => x == cfg.Full(i) && i !in failures
    case Fail(e) => if e.Cancelled? then cancelled else i in failures && failures[i] == e
  }

  predicate WorkersOk(cfg: Config, workers: seq<Worker>, failures: map<nat, Error>, cancelled: bool)
    requires cfg.Valid()
  {
    forall w | 0 <= w < |workers| && HasIndex(workers[w]) ::
      if workers[w].Holding? then BufferOk(cfg, failures, cancelled, workers[w].i, workers[w].b)
      else workers[w].i !in failures
  }

  predicate SlotsOk(cfg: Config, slots: seq<Option<Buffer>>, failures: map<nat, Error>, cancelled: bool)
    requires cfg.Valid()
  {
    forall i | 0 <= i < |slots| && slots[i].Some? :: BufferOk(cfg, failures, cancelled, i, slots[i].value)
  }

  predicate FailuresOk(failures: map<nat, Error>, sent: nat, idx: nat, n: nat) {
    forall i | i in failures :: sent <= i < n && i < idx && failures[i].FetchError?
  }

  /** The error belongs to the first chunk that was not forwarded. */
  predicate Blame(failures: map<nat, Error>, cancelled: bool, sent: nat, e: Error) {
    if e.Cancelled? then cancelled else sent in failures && failures[sent] == e
  }

  /** An error is forwarded last, so only the last queued buffer can be one. */
  predicate OutOrder(out: seq<Buffer>) {
    forall k | 0 <= k < |out| - 1 :: out[k].Data?
  }

  predicate EndsInError(out: seq<Buffer>) {
    out != [] && out[|out| - 1].Fail?
  }

  function LastError(out: seq<Buffer>): Option<Error> {
    if EndsInError(out) then Some(out[|out| - 1].error) else None
  }

  predicate DrainerOk(cfg: Config, drainer: Drainer, failures: map<nat, Error>, cancelled: bool, sent: nat)
    requires cfg.Valid()
  {
    drainer.Sending? ==>
      if drainer.b.Data? then drainer.b.buf == cfg.Trim(sent, cfg.Full(sent)) && sent !in failures
      else Blame(failures, cancelled, sent, drainer.b.error)
  }

  predicate ErrorsOk(s: State) {
    && (EndsInError(s.out) ==>
          s.drainer.Stopped? && Blame(s.failures, s.cancelled, s.sent, s.out[|s.out| - 1].error) && s.err.None?)
    && (s.err.Some? ==> s.drainer.Stopped? && s.out == [] && s.cur.None?)
    && (s.err.Some? ==>
          s.err.value.Eof? || (s.err.value.Failed? && Blame(s.failures, s.cancelled, s.sent, s.err.value.error)))
    && (s.drainer.Stopped? && !s.cancelled ==>
          s.sent == |s.slots| || EndsInError(s.out) || (s.err.Some? && s.err.value.Failed?))
  }

  /** What was delivered, staged and queued is the slice forwarded so far. */
  predicate Stream(cfg: Config, delivered: bytes, cur: Option<bytes>, out: seq<Buffer>, sent: nat)
    requires cfg.Valid()
  {
    delivered + Rest(cur) + OutData(out) == Slice(cfg, sent)
  }

  predicate NothingYet(cur: Option<bytes>, out: seq<Buffer>) {
    cur.None? && forall b | b in out :: b.Fail?
  }

  predicate Delivered(cfg: Config, delivered: bytes) {
    delivered <= Cut(cfg.content, cfg.start, cfg.end)
  }

  predicate Flow(s: State)
    requires s.cfg.Valid()
  {
    && OutOrder(s.out)
    && DrainerOk(s.cfg, s.drainer, s.failures, s.cancelled, s.sent)
    && ErrorsOk(s)
    && (!s.closing ==> Stream(s.cfg, s.delivered, s.cur, s.out, s.sent))
    && (s.sent == 0 ==> NothingYet(s.cur, s.out))
    && Delivered(s.cfg, s.delivered)
  }

  /** Without a cancellation nothing that was claimed gets lost. */
  predicate NothingLost(workers: seq<Worker>, slots: seq<Option<Buffer>>, taken: nat, idx: nat) {
    && (forall i | taken <= i < |slots| && i < idx && slots[i].None? :: Held(workers, i))
    && (forall w | 0 <= w < |workers| && workers[w].Done? :: |slots| <= idx)
  }

  predicate Held(workers: seq<Worker>, i: nat) {
    exists w | 0 <= w < |workers| :: HasIndex(workers[w]) && workers[w].i == i
  }

  predicate Contents(s: State)
    requires s.cfg.Valid()
  {
    && WorkersOk(s.cfg, s.workers, s.failures, s.cancelled)
    && SlotsOk(s.cfg, s.slots, s.failures, s.cancelled)
    && FailuresOk(s.failures, s.sent, s.idx, |s.slots|)
  }

  predicate Inv(s: State) {
    && Shape(s)
    && Places(s.workers, s.slots, s.taken, s.idx)
    && Contents(s)
    && Flow(s)
    && (!s.cancelled ==> NothingLost(s.workers, s.slots, s.taken, s.idx))
  }

  lemma InitialInv(cfg: Config)
    requires cfg.Valid()
    ensures Inv(InitialState(cfg))
  {
    BoundEnds(cfg);
  }

  // Workers

  lemma ClaimPlaces(s: State, w: nat)
    requires s.taken <= s.idx && Places(s.workers, s.slots, s.taken, s.idx) && CanClaim(s, w)
    ensures var t := ApplyClaim(s, w); Places(t.workers, t.slots, t.taken, t.idx)
  {
  }

  lemma ClaimLosesNothing(s: State, w: nat)
    requires CanClaim(s, w) && NothingLost(s.workers, s.slots, s.taken, s.idx)
    ensures var t := ApplyClaim(s, w); NothingLost(t.workers, t.slots, t.taken, t.idx)
  {
    var t := ApplyClaim(s, w);
    forall i | t.taken <= i < |t.slots| && i < t.idx && t.slots[i].None?
      ensures Held(t.workers, i)
    {
      if i == s.idx {
        assert HasIndex(t.workers[w]) && t.workers[w].i == i;
      } else {
        assert Held(s.workers, i);
        var v :| 0 <= v < |s.workers| && HasIndex(s.workers[v]) && s.workers[v].i == i;
        assert t.workers[v] == s.workers[v];
      }
    }
  }

  lemma ClaimKeeps(s: State, w: nat)
    requires Inv(s) && CanClaim(s, w)
    ensures Inv(ApplyClaim(s, w))
  {
    hide Places, NothingLost, Flow, SlotsOk, BufferOk;
    ClaimPlaces(s, w);
    if !s.cancelled {
      ClaimLosesNothing(s, w);
    }
    assert Flow(ApplyClaim(s, w)) by { FlowFrame(s, ApplyClaim(s, w)); }
  }

  /** Flow does not depend on the workers, the slots or the counters `idx` and `taken`. */
  lemma FlowFrame(s: State, t: State)
    requires s.cfg.Valid() && Flow(s) && t.cfg == s.cfg && |s.slots| == |t.slots|
    requires t.out == s.out && t.drainer == s.drainer && t.sent == s.sent && t.failures == s.failures
    requires t.cancelled == s.cancelled && t.closing == s.closing && t.cur == s.cur && t.err == s.err
    requires t.delivered == s.delivered
    ensures Flow(t)
  {
    hide Stream, OutOrder, Delivered, NothingYet, DrainerOk;
  }

  /** A worker that keeps its index leaves every chunk in its place. */
  lemma SameIndexPlaces(s: State, t: State, w: nat)
    requires Places(s.workers, s.slots, s.taken, s.idx)
    requires w < |s.workers| && HasIndex(s.workers[w]) && |t.workers| == |s.workers| && HasIndex(t.workers[w])
    requires t.workers == s.workers[w := t.workers[w]]
    requires t.workers[w].i == s.workers[w].i && t.slots == s.slots && t.taken == s.taken && t.idx == s.idx
    ensures Places(t.workers, t.slots, t.taken, t.idx)
    ensures NothingLost(s.workers, s.slots, s.taken, s.idx) ==> NothingLost(t.workers, t.slots, t.taken, t.idx)
  {
    if NothingLost(s.workers, s.slots, s.taken, s.idx) {
      forall i | t.taken <= i < |t.slots| && i < t.idx && t.slots[i].None?
        ensures Held(t.workers, i)
      {
        var v :| 0 <= v < |s.workers| && HasIndex(s.workers[v]) && s.workers[v].i == i;
        assert HasIndex(t.workers[v]) && t.workers[v].i == i;
      }
    }
  }

  lemma CheckCancelledPlaces(s: State, w: nat)
    requires Places(s.workers, s.slots, s.taken, s.idx) && CanCheck(s, w) && s.cancelled
    ensures
      var t := ApplyCheck(s, w);
      Places(t.workers, t.slots, t.taken, t.idx)
  {
  }

  lemma CheckKeeps(s: State, w: nat)
    requires Inv(s) && CanCheck(s, w)
    ensures Inv(ApplyCheck(s, w))
  {
    hide Places, NothingLost, Flow;
    var t := ApplyCheck(s, w);
    FlowFrame(s, t);
    if s.cancelled {
      CheckCancelledPlaces(s, w);
    } else {
      SameIndexPlaces(s, t, w);
    }
  }

  /** Recording a failure of a chunk past `sent` does not disturb what was already forwarded. */
  lemma NewFailureFlow(s: State, t: State, i: nat, e: Error)
    requires s.cfg.Valid() && Flow(s)
    requires s.sent <= i && (s.drainer.Sending? ==> s.sent < i) && i !in s.failures
    requires t == s.(workers := t.workers, failures := s.failures[i := e])
    ensures Flow(t)
  {
    hide Stream, OutOrder, Delivered, NothingYet;
  }

  lemma NewFailureContents(s: State, t: State, w: nat, code: nat)
    requires s.cfg.Valid() && Contents(s) && Places(s.workers, s.slots, s.taken, s.idx)
    requires s.sent <= s.taken && CanFetch(s, w, FetchErr(code)) && t == ApplyFetch(s, w, FetchErr(code))
    ensures Contents(t)
  {
    var i := s.workers[w].i;
    forall v | 0 <= v < |t.workers| && HasIndex(t.workers[v]) && v != w
      ensures t.workers[v].i != i
    {
      assert if v < w then s.workers[v].i != s.workers[w].i else s.workers[w].i != s.workers[v].i;
    }
  }

  lemma FetchKeeps(s: State, w: nat, o: Outcome)
    requires Inv(s) && CanFetch(s, w, o)
    ensures Inv(ApplyFetch(s, w, o))
  {
    hide NothingLost, Flow;
    var t := ApplyFetch(s, w, o);
    SameIndexPlaces(s, t, w);
    match o
    case FetchErr(code) =>
      NewFailureFlow(s, t, s.workers[w].i, FetchError(code));
      NewFailureContents(s, t, w, code);
    case FetchOk => FlowFrame(s, t);
    case FetchAborted => FlowFrame(s, t);
  }

  lemma PublishPlaces(s: State, w: nat)
    requires Places(s.workers, s.slots, s.taken, s.idx) && CanPublish(s, w)
    ensures var t := ApplyPublish(s, w); Places(t.workers, t.slots, t.taken, t.idx)
  {
  }

  lemma PublishLosesNothing(s: State, w: nat)
    requires CanPublish(s, w) && NothingLost(s.workers, s.slots, s.taken, s.idx)
    ensures var t := ApplyPublish(s, w); NothingLost(t.workers, t.slots, t.taken, t.idx)
  {
    var t := ApplyPublish(s, w);
    forall i | t.taken <= i < |t.slots| && i < t.idx && t.slots[i].None?
      ensures Held(t.workers, i)
    {
      assert Held(s.workers, i);
      var v :| 0 <= v < |s.workers| && HasIndex(s.workers[v]) && s.workers[v].i == i;
      assert v != w && t.workers[v] == s.workers[v];
    }
  }

  lemma PublishKeeps(s: State, w: nat)
    requires Inv(s) && CanPublish(s, w)
    ensures Inv(ApplyPublish(s, w))
  {
    hide Places, NothingLost, Flow;
    PublishPlaces(s, w);
    if !s.cancelled {
      PublishLosesNothing(s, w);
    }
    FlowFrame(s, ApplyPublish(s, w));
  }

  lemma GiveUpKeeps(s: State, w: nat)
    requires Inv(s) && CanGiveUp(s, w)
    ensures Inv(ApplyGiveUp(s, w))
  {
    hide NothingLost, Flow;
    FlowFrame(s, ApplyGiveUp(s, w));
  }

  // Drainer

  lemma TakePlaces(s: State)
    requires Places(s.workers, s.slots, s.taken, s.idx) && CanTake(s)
    ensures
      var t := ApplyTake(s);
      && t.taken <= t.idx
      && Places(t.workers, t.slots, t.taken, t.idx)
      && (NothingLost(s.workers, s.slots, s.taken, s.idx) ==> NothingLost(t.workers, t.slots, t.taken, t.idx))
  {
    var t := ApplyTake(s);
    if NothingLost(s.workers, s.slots, s.taken, s.idx) {
      forall i | t.taken <= i < |t.slots| && i < t.idx && t.slots[i].None?
        ensures Held(t.workers, i)
      {
        assert s.slots[i].None? && Held(s.workers, i);
      }
    }
  }

  lemma TakeFlow(s: State)
    requires Shape(s) && Flow(s) && SlotsOk(s.cfg, s.slots, s.failures, s.cancelled) && CanTake(s)
    ensures Flow(ApplyTake(s))
  {
    hide Stream, OutOrder, Delivered, NothingYet, Config.Trim, Config.Full, Config.NChunks, Config.WorkerCount;
    var b := s.slots[s.taken].value;
    assert BufferOk(s.cfg, s.failures, s.cancelled, s.taken, b);
    assert s.taken == s.sent;
  }

  lemma TakeKeeps(s: State)
    requires Inv(s) && CanTake(s)
    ensures Inv(ApplyTake(s))
  {
    hide Places, NothingLost, Flow, Config.Trim, BufferOk;
    TakePlaces(s);
    TakeFlow(s);
  }

  lemma OutDataAppend(out: seq<Buffer>, b: Buffer)
    ensures OutData(out + [b]) == OutData(out) + (if b.Data? then b.buf else [])
  {
    if out == [] {
      assert [b][1..] == [];
    } else {
      var head := if out[0].Data? then out[0].buf else [];
      var tail := if b.Data? then b.buf else [];
      assert (out + [b])[1..] == out[1..] + [b];
      OutDataAppend(out[1..], b);
      assert head + (OutData(out[1..]) + tail) == head + OutData(out[1..]) + tail;
    }
  }

  lemma SendStream(s: State)
    requires s.cfg.Valid() && CanSend(s) && Stream(s.cfg, s.delivered, s.cur, s.out, s.sent)
    requires DrainerOk(s.cfg, s.drainer, s.failures, s.cancelled, s.sent)
    ensures
      var t := ApplySend(s);
      Stream(t.cfg, t.delivered, t.cur, t.out, t.sent)
  {
    hide Config.Trim, Config.Full, Config.Bound, Cut;
    OutDataAppend(s.out, s.drainer.b);
    if s.drainer.b.Data? {
      SliceGrows(s.cfg, s.sent);
    }
  }

  lemma SendFlow(s: State)
    requires Shape(s) && Flow(s) && CanSend(s)
    ensures Flow(ApplySend(s))
  {
    hide Stream, Delivered, Config.Trim, Config.Full, Config.NChunks, Config.WorkerCount;
    var t := ApplySend(s);
    if !s.closing {
      SendStream(s);
    }
    assert !EndsInError(s.out);
    assert OutOrder(t.out);
  }

  lemma SendKeeps(s: State)
    requires Inv(s) && CanSend(s)
    ensures Inv(ApplySend(s))
  {
    hide Places, NothingLost, Flow, BufferOk;
    SendFlow(s);
    if s.drainer.b.Data? {
      SendingOk(s);
    }
  }

  lemma SendingOk(s: State)
    requires s.cfg.Valid() && Flow(s) && s.drainer.Sending? && s.drainer.b.Data?
    ensures s.sent !in s.failures
  {
  }

  lemma StopKeeps(s: State)
    requires Inv(s) && (CanFinish(s) || CanQuit(s))
    ensures Inv(s.(drainer := Stopped))
  {
    hide Places, NothingLost, WorkersOk, SlotsOk, FailuresOk, Stream, OutOrder, NothingYet, Delivered,
         Config.NChunks, Config.WorkerCount;
  }

  // Consumer

  /** Read's loop neither drops nor reorders bytes, and surfaces an error only when it is next. */
  predicate ReadMeans(out: seq<Buffer>, closed: bool, plen: nat, step: ReadStep) {
    var ReadStep(cur', out', r) := step;
    && |out'| <= |out| && OutOrder(out')
    && (if r.Got? then cur'.Some? && |r.bytes| <= plen else cur'.None? && out' == [])
    && (r.Eof? ==> closed)
    && (r.Blocked? ==> !closed)
    && LastError(out) == (if r.Got? then LastError(out') else if r.Failed? then Some(r.error) else None)
  }

  function Answer(r: ReadResult): bytes {
    if r.Got? then r.bytes else []
  }

  lemma ReadLoopMeaning(cur: Option<bytes>, out: seq<Buffer>, closed: bool, plen: nat)
    requires OutOrder(out)
    ensures ReadMeans(out, closed, plen, ReadLoop(cur, out, closed, plen))
    decreases |out|
  {
    if cur.Some? && cur.value != [] {
    } else if out == [] {
    } else if out[0].Fail? {
      assert |out| == 1;
    } else {
      var rest := out[1..];
      ReadLoopMeaning(Some(out[0].buf), rest, closed, plen);
      assert LastError(rest) == LastError(out) by {
        assert rest != [] ==> rest[|rest| - 1] == out[|out| - 1];
      }
    }
  }

  lemma ReadLoopConserves(cur: Option<bytes>, out: seq<Buffer>, closed: bool, plen: nat)
    requires OutOrder(out)
    ensures
      var step := ReadLoop(cur, out, closed, plen);
      Rest(cur) + OutData(out) == Answer(step.result) + (Rest(step.cur) + OutData(step.out))
    decreases |out|
  {
    if cur.Some? && cur.value != [] {
      var n := Min(plen, |cur.value|);
      assert cur.value == cur.value[..n] + cur.value[n..];
    } else if out == [] {
    } else if out[0].Fail? {
      assert |out| == 1 && OutData(out[1..]) == [];
    } else {
      ReadLoopConserves(Some(out[0].buf), out[1..], closed, plen);
    }
  }

  lemma SliceIsPrefix(cfg: Config, k: nat, d: bytes, rest: bytes)
    requires cfg.Valid() && d + rest == Slice(cfg, k)
    ensures Delivered(cfg, d)
  {
    var b := cfg.Bound(k);
    BoundMonotone(cfg, 0, k);
    PrefixOfCut(cfg.content, cfg.start, b, cfg.end, d, rest);
  }

  lemma PrefixOfCut(s: bytes, a: nat, m: nat, b: nat, d: bytes, rest: bytes)
    requires a <= m <= b && d + rest == Cut(s, a, m)
    ensures d <= Cut(s, a, b)
  {
    CutSplit(s, a, m, b);
    assert (d + rest + Cut(s, m, b))[..|d|] == d;
  }

  lemma ReadStream(s: State, plen: nat)
    requires s.cfg.Valid() && OutOrder(s.out) && Stream(s.cfg, s.delivered, s.cur, s.out, s.sent) && s.err.None?
    ensures
      var t := ApplyRead(s, plen);
      Stream(t.cfg, t.delivered, t.cur, t.out, t.sent) && Delivered(t.cfg, t.delivered)
  {
    hide ReadLoop, Slice, OutData, Delivered;
    var t := ApplyRead(s, plen);
    ReadLoopConserves(s.cur, s.out, s.drainer.Stopped?, plen);
    var got := Answer(ReadLoop(s.cur, s.out, s.drainer.Stopped?, plen).result);
    assert t.delivered == s.delivered + got;
    assert s.delivered + Rest(s.cur) + OutData(s.out) == s.delivered + (Rest(s.cur) + OutData(s.out));
    assert s.delivered + (got + (Rest(t.cur) + OutData(t.out))) == t.delivered + Rest(t.cur) + OutData(t.out);
    assert t.delivered + Rest(t.cur) + OutData(t.out) == t.delivered + (Rest(t.cur) + OutData(t.out));
    SliceIsPrefix(s.cfg, s.sent, t.delivered, Rest(t.cur) + OutData(t.out));
  }

  lemma ReadFlow(s: State, plen: nat)
    requires Shape(s) && Flow(s) && !s.closing && s.err.None?
    ensures Flow(ApplyRead(s, plen))
  {
    hide ReadLoop, Delivered, Stream, OutData, OutOrder, DrainerOk, Config.NChunks, Config.WorkerCount;
    var t := ApplyRead(s, plen);
    ReadStream(s, plen);
    ReadLoopMeaning(s.cur, s.out, s.drainer.Stopped?, plen);
    assert DrainerOk(t.cfg, t.drainer, t.failures, t.cancelled, t.sent);
    if s.sent == 0 {
      NothingYetStays(s.cur, s.out, s.drainer.Stopped?, plen);
    }
    assert LastError(t.out) == LastError(s.out) || t.err.Some? || t.out == [];
  }

  lemma NothingYetStays(cur: Option<bytes>, out: seq<Buffer>, closed: bool, plen: nat)
    requires NothingYet(cur, out)
    ensures
      var step := ReadLoop(cur, out, closed, plen);
      NothingYet(step.cur, step.out)
  {
  }

  lemma ReadKeeps(s: State, plen: nat)
    requires Inv(s) && !s.closing
    ensures Inv(ApplyRead(s, plen))
  {
    hide Places, NothingLost, WorkersOk, SlotsOk, FailuresOk, Flow, ReadLoop;
    if s.err.None? {
      ReadFlow(s, plen);
      ReadShrinks(s, plen);
    }
  }

  lemma ReadShrinks(s: State, plen: nat)
    requires s.cfg.Valid() && Flow(s)
    ensures |ApplyRead(s, plen).out| <= |s.out|
  {
    hide ReadLoop;
    ReadLoopMeaning(s.cur, s.out, s.drainer.Stopped?, plen);
  }

  lemma PrimeErrors(s: State)
    requires ErrorsOk(s) && OutOrder(s.out) && s.cur.None? && s.out != []
    ensures ErrorsOk(ApplyPrime(s)) && OutOrder(ApplyPrime(s).out)
  {
    hide Blame;
    var t := ApplyPrime(s);
    if s.out[0].Fail? {
      assert |s.out| == 1;
    } else if |s.out| > 1 {
      assert t.out[|t.out| - 1] == s.out[|s.out| - 1];
    }
  }

  lemma PrimeStream(s: State)
    requires s.cfg.Valid() && OutOrder(s.out) && s.cur.None? && s.out != []
    requires Stream(s.cfg, s.delivered, s.cur, s.out, s.sent)
    ensures var t := ApplyPrime(s); Stream(t.cfg, t.delivered, t.cur, t.out, t.sent)
  {
    var t := ApplyPrime(s);
    if s.out[0].Fail? {
      assert |s.out| == 1;
    }
    assert Rest(t.cur) + OutData(t.out) == OutData(s.out);
    Regroup(t.delivered, Rest(t.cur), OutData(t.out));
    Regroup(s.delivered, [], OutData(s.out));
    hide Slice, OutData, Config.Valid;
  }

  lemma Regroup(a: bytes, b: bytes, c: bytes)
    ensures a + b + c == a + (b + c) && [] + c == c
  {
  }

  lemma PrimeFlow(s: State)
    requires s.cfg.Valid() && Flow(s) && !s.closing && s.cur.None? && s.out != []
    ensures Flow(ApplyPrime(s))
  {
    hide Delivered, DrainerOk, ErrorsOk, OutOrder, Stream;
    PrimeErrors(s);
    PrimeStream(s);
    if s.sent == 0 {
      assert s.out[0] in s.out;
    }
  }

  lemma PrimeKeeps(s: State)
    requires Inv(s) && !s.closing
    ensures Inv(ApplyPrime(s))
  {
    hide Places, NothingLost, WorkersOk, SlotsOk, FailuresOk, Flow;
    if s.cur.None? && s.out != [] {
      PrimeFlow(s);
    }
  }

  // Cancellation

  lemma CancelContents(s: State)
    requires s.cfg.Valid() && Contents(s)
    ensures Contents(s.(cancelled := true, closing := s.closing))
  {
  }

  lemma CancelKeeps(s: State, closing: bool)
    requires Inv(s) && (s.closing ==> closing)
    ensures Inv(s.(cancelled := true, closing := closing))
  {
    hide Places, NothingLost, Stream, OutOrder, NothingYet, Delivered, Config.NChunks, Config.WorkerCount;
    CancelContents(s);
  }

  lemma FlushKeeps(s: State)
    requires Inv(s) && s.closing && s.out != []
    ensures Inv(s.(out := s.out[1..]))
  {
    hide Places, NothingLost, Contents, Stream, Delivered, Config.NChunks, Config.WorkerCount;
    var t := s.(out := s.out[1..]);
    assert t.out != [] ==> t.out[|t.out| - 1] == s.out[|s.out| - 1];
    assert DrainerOk(t.cfg, t.drainer, t.failures, t.cancelled, t.sent);
    ContentsFrame(s, t);
  }

  lemma ContentsFrame(s: State, t: State)
    requires s.cfg.Valid() && Contents(s) && t == s.(out := t.out)
    ensures Contents(t)
  {
  }

  /** Every event of every goroutine keeps the invariant. */
  lemma EventKeeps(s: State, e: Event)
    requires Inv(s) && Enabled(s, e)
    ensures Inv(Apply(s, e))
  {
    hide Inv;
    match e
    case Claim(w) => ClaimKeeps(s, w);
    case Check(w) => CheckKeeps(s, w);
    case Fetch(w, o) => FetchKeeps(s, w, o);
    case Publish(w) => PublishKeeps(s, w);
    case GiveUp(w) => GiveUpKeeps(s, w);
    case Take => TakeKeeps(s);
    case Send => SendKeeps(s);
    case Prime => PrimeKeeps(s);
    case Read(plen) => ReadKeeps(s, plen);
    case Finish => StopKeeps(s);
    case Quit => StopKeeps(s);
    case Cancel => CancelKeeps(s, s.closing);
    case Close => CancelKeeps(s, true);
    case Flush => FlushKeeps(s);
  }

  /** The invariant holds after every interleaving. */
  lemma {:induction false} RunKeeps(s: State, events: seq<Event>)
    requires Inv(s) && Possible(s, events)
    ensures Inv(After(s, events))
    decreases |events|
  {
    hide Inv;
    if events != [] {
      EventKeeps(s, events[0]);
      RunKeeps(Apply(s, events[0]), events[1..]);
    }
  }
}

/** What every interleaving of the prefetch reader guarantees: order, errors and progress. */
module PrefetchTheorems {
  import opened ByteStrings
  import opened PrefetchModel
  import opened PrefetchGeometry
  import opened PrefetchInvariant

  /** `s` is reached from a fresh reader by some interleaving. */
  ghost predicate Reachable(s: State) {
    s.cfg.Valid() && exists cfg: Config, events: seq<Event> ::
      cfg.Valid() && Possible(InitialState(cfg), events) && s == After(InitialState(cfg), events)
  }

  lemma ReachableInv(s: State)
    requires Reachable(s)
    ensures Inv(s)
  {
    hide Inv;
    var cfg: Config, events: seq<Event> :|
      cfg.Valid() && Possible(InitialState(cfg), events) && s == After(InitialState(cfg), events);
    InitialInv(cfg);
    RunKeeps(InitialState(cfg), events);
  }

  function Wanted(cfg: Config): bytes {
    if cfg.start <= cfg.end then Cut(cfg.content, cfg.start, cfg.end) else []
  }

  // Order

  /** Whatever finishes first, the delivered bytes are a prefix of the requested slice. */
  lemma DeliveredInOrder(s: State)
    requires Reachable(s)
    ensures s.delivered <= Wanted(s.cfg)
  {
    ReachableInv(s);
  }

  lemma WholeSlice(cfg: Config)
    requires cfg.Valid()
    ensures Slice(cfg, cfg.NChunks()) == Wanted(cfg)
  {
    BoundEnds(cfg);
  }

  lemma ReadEndsAtSent(s: State, plen: nat)
    requires Inv(s) && !s.closing && (ReadResultOf(s, plen).Eof? || ReadResultOf(s, plen).Failed?)
    ensures s.drainer.Stopped?
    ensures s.delivered + Rest(s.cur) + OutData(s.out) == Slice(s.cfg, s.sent)
    ensures Rest(s.cur) + OutData(s.out) == []
    ensures ReadResultOf(s, plen).Eof? && !s.cancelled ==> s.sent == |s.slots|
    ensures ReadResultOf(s, plen).Failed? ==> Blame(s.failures, s.cancelled, s.sent, ReadResultOf(s, plen).error)
  {
    hide Places, NothingLost, Contents, ReadLoop, Slice;
    if s.err.None? {
      ReadLoopMeaning(s.cur, s.out, s.drainer.Stopped?, plen);
      ReadLoopConserves(s.cur, s.out, s.drainer.Stopped?, plen);
    }
  }

  lemma ReadEndExact(s: State, plen: nat)
    requires Inv(s) && !s.closing && (ReadResultOf(s, plen).Eof? || ReadResultOf(s, plen).Failed?)
    ensures s.delivered == Slice(s.cfg, s.sent)
  {
    hide Inv, ReadLoop, Slice, Rest, OutData;
    ReadEndsAtSent(s, plen);
    assert s.delivered + Rest(s.cur) + OutData(s.out) == s.delivered + (Rest(s.cur) + OutData(s.out));
    assert s.delivered + [] == s.delivered;
  }

  /** Without a cancellation Read answers EOF only when the whole requested slice is out. */
  lemma EofIsComplete(s: State, plen: nat)
    requires Reachable(s) && !s.cancelled && ReadResultOf(s, plen).Eof?
    ensures s.delivered == Wanted(s.cfg)
  {
    hide ReadLoop, Slice, Wanted, Contents, Places, NothingLost, Flow;
    ReachableInv(s);
    ReadEndsAtSent(s, plen);
    ReadEndExact(s, plen);
    WholeSlice(s.cfg);
  }

  lemma CutsAgree(s: bytes, a: nat, m: nat, b: nat)
    requires a <= m <= b
    ensures Cut(s, a, m) == Cut(s, a, b) <==> Min(b, |s|) <= m
  {
    CutSplit(s, a, m, b);
    assert |Cut(s, a, m)| == Min(m, |s|) - Min(a, |s|) && |Cut(s, a, b)| == Min(b, |s|) - Min(a, |s|);
  }

  /**
   After a cancellation EOF can come early. It is complete exactly when no requested
   byte lies past the chunks the drainer had forwarded.
   */
  lemma EofCompleteExactlyWhen(s: State, plen: nat)
    requires Reachable(s) && !s.closing && ReadResultOf(s, plen).Eof?
    ensures s.delivered == Wanted(s.cfg) <==> Min(s.cfg.end, |s.cfg.content|) <= s.cfg.Bound(s.sent)
  {
    hide ReadLoop, Contents, Places, NothingLost, Flow, Config.Bound;
    ReachableInv(s);
    ReadEndExact(s, plen);
    BoundMonotone(s.cfg, 0, s.sent);
    CutsAgree(s.cfg.content, s.cfg.start, s.cfg.Bound(s.sent), s.cfg.end);
  }

  /** Any request for an existing byte, cancelled at once, can answer EOF before the first byte. */
  lemma EarlyEofAfterCancel(cfg: Config, plen: nat)
    requires cfg.Valid() && cfg.start < cfg.end && cfg.start < |cfg.content|
    ensures
      var s := InitialState(cfg);
      && Possible(s, [Cancel, Quit])
      && ReadResultOf(After(s, [Cancel, Quit]), plen).Eof?
      && After(s, [Cancel, Quit]).delivered < Wanted(cfg)
  {
    hide Config.Offset;
    var s := InitialState(cfg);
    ChunksCover(cfg);
    var s1 := Apply(s, Cancel);
    assert [Cancel, Quit][1..] == [Quit] && [Quit][1..] == [];
    assert Possible(s1, [Quit]) && After(s1, [Quit]) == s1.(drainer := Stopped);
    assert After(s, [Cancel, Quit]) == After(s1, [Quit]);
  }

  /** A request cancelled before its first fetch can also answer the cancellation: the worker still fills its slot. */
  lemma CancellationSurfaces(cfg: Config)
    requires cfg.Valid() && cfg.start < cfg.end
    ensures
      var run := [Claim(0), Cancel, Check(0), Take, Send];
      && Possible(InitialState(cfg), run)
      && PrimeResultOf(After(InitialState(cfg), run)) == Failed(Cancelled)
  {
    hide Config.Offset, Config.NChunks, Possible, After;
    ChunksCover(cfg);
    var s := InitialState(cfg);
    var s1 := Apply(s, Claim(0));
    var s2 := Apply(s1, Cancel);
    var s3 := Apply(s2, Check(0));
    assert s3.slots[0] == Some(Fail(Cancelled));
    var s4 := Apply(s3, Take);
    var s5 := Apply(s4, Send);
    hide Apply, Enabled, InitialState;
    assert [Send] + [] == [Send] && [Take] + [Send] == [Take, Send];
    assert [Check(0)] + [Take, Send] == [Check(0), Take, Send];
    assert [Cancel] + [Check(0), Take, Send] == [Cancel, Check(0), Take, Send];
    assert [Claim(0)] + [Cancel, Check(0), Take, Send] == [Claim(0), Cancel, Check(0), Take, Send];
    RunOf(s4, Send, []);
    RunOf(s3, Take, [Send]);
    RunOf(s2, Check(0), [Take, Send]);
    RunOf(s1, Cancel, [Check(0), Take, Send]);
    RunOf(s, Claim(0), [Cancel, Check(0), Take, Send]);
    NoRun(s5);
  }

  lemma RunOf(s: State, e: Event, rest: seq<Event>)
    ensures Possible(s, [e] + rest) <==> Enabled(s, e) && Possible(Apply(s, e), rest)
    ensures Possible(s, [e] + rest) ==> After(s, [e] + rest) == After(Apply(s, e), rest)
  {
    hide Enabled, Apply;
    assert ([e] + rest)[1..] == rest;
  }

  lemma NoRun(s: State)
    ensures Possible(s, []) && After(s, []) == s
  {
  }

  // Errors

  /**
   In an uncancelled run an error surfaces after exactly the bytes of the chunks before
   the lowest failing one, and it is that chunk's error.
   */
  lemma LowestFailureSurfaces(s: State, plen: nat)
    requires Reachable(s) && !s.cancelled && ReadResultOf(s, plen).Failed?
    ensures s.sent in s.failures && s.failures[s.sent] == ReadResultOf(s, plen).error
    ensures forall i | i in s.failures :: s.sent <= i
    ensures s.delivered == Slice(s.cfg, s.sent)
    ensures AnswersForEver(ApplyRead(s, plen), ReadResultOf(s, plen))
  {
    hide ReadLoop, Slice, Places, NothingLost, Flow;
    ReachableInv(s);
    ReadEndsAtSent(s, plen);
    ReadEndExact(s, plen);
    FailureIsFetch(s, ReadResultOf(s, plen).error);
    ErrorIsSticky(s, plen);
  }

  lemma FailureIsFetch(s: State, e: Error)
    requires Inv(s) && !s.cancelled && Blame(s.failures, s.cancelled, s.sent, e)
    ensures s.sent in s.failures && s.failures[s.sent] == e && forall i | i in s.failures :: s.sent <= i
  {
    hide Flow, Places, NothingLost, WorkersOk, SlotsOk;
  }

  /** Once a chunk has failed, Read never answers EOF: the bytes before the failure are followed by its error. */
  lemma FailureIsNotEof(s: State, plen: nat)
    requires Reachable(s) && !s.cancelled && s.failures != map[]
    ensures !ReadResultOf(s, plen).Eof?
  {
    hide ReadLoop, Slice, Places, NothingLost, Flow, WorkersOk, SlotsOk;
    ReachableInv(s);
    if ReadResultOf(s, plen).Eof? {
      ReadEndsAtSent(s, plen);
    }
  }

  /** Whatever any goroutine, the caller or the clock does from here on, Read answers `r` and delivers nothing more. */
  ghost predicate AnswersForEver(s: State, r: ReadResult) {
    forall events: seq<Event>, plen: nat | Possible(s, events) :: AnswersAfter(s, events, plen, r)
  }

  predicate AnswersAfter(s: State, events: seq<Event>, plen: nat, r: ReadResult)
    requires Possible(s, events)
  {
    ReadResultOf(After(s, events), plen) == r && After(s, events).delivered == s.delivered
  }

  lemma ErrorStays(s: State, e: Event)
    requires Inv(s) && s.err.Some? && Enabled(s, e)
    ensures Apply(s, e).err == s.err && Apply(s, e).delivered == s.delivered
  {
    hide Places, NothingLost, Contents, Stream, DrainerOk;
  }

  lemma {:induction false} StickyOverRuns(s: State, events: seq<Event>)
    requires Inv(s) && s.err.Some? && Possible(s, events)
    ensures After(s, events).err == s.err && After(s, events).delivered == s.delivered
    decreases |events|
  {
    hide Inv, Apply, Enabled;
    if events != [] {
      ErrorStays(s, events[0]);
      EventKeeps(s, events[0]);
      StickyOverRuns(Apply(s, events[0]), events[1..]);
    }
  }

  lemma RecordedForEver(s: State)
    requires Inv(s) && s.err.Some?
    ensures AnswersForEver(s, s.err.value)
  {
    hide Inv, Apply, Enabled, AnswersAfter;
    forall events: seq<Event>, plen: nat | Possible(s, events)
      ensures AnswersAfter(s, events, plen, s.err.value)
    {
      RecordedIsAnswered(s, events, plen);
    }
  }

  lemma RecordedIsAnswered(s: State, events: seq<Event>, plen: nat)
    requires Inv(s) && s.err.Some? && Possible(s, events)
    ensures AnswersAfter(s, events, plen, s.err.value)
  {
    hide Inv, Apply, Enabled, ReadLoop;
    StickyOverRuns(s, events);
  }

  /** Once Read has failed or ended it gives the same answer on every later Read of every continuation. */
  lemma ErrorIsSticky(s: State, plen: nat)
    requires Reachable(s) && !s.closing && (ReadResultOf(s, plen).Failed? || ReadResultOf(s, plen).Eof?)
    ensures AnswersForEver(ApplyRead(s, plen), ReadResultOf(s, plen))
    ensures ApplyRead(s, plen).delivered == s.delivered
  {
    hide Inv, ReadLoop, AnswersForEver, Reachable;
    ReachableInv(s);
    ReadKeeps(s, plen);
    RecordedForEver(ApplyRead(s, plen));
  }

  /** A failure Prime reports is what every later Read answers, and nothing more is delivered. */
  lemma PrimeFailureIsSticky(s: State)
    requires Reachable(s) && !s.closing && PrimeResultOf(s).Failed?
    ensures AnswersForEver(ApplyPrime(s), PrimeResultOf(s))
  {
    hide Inv, AnswersForEver, Reachable;
    ReachableInv(s);
    PrimeKeeps(s);
    RecordedForEver(ApplyPrime(s));
  }

  /** When chunk 0 fails, Prime answers its error or still waits, and no byte has been delivered. */
  lemma FirstFailureStopsPrime(s: State)
    requires Reachable(s) && !s.cancelled && 0 in s.failures && s.err.None?
    ensures s.delivered == []
    ensures PrimeResultOf(s).Blocked? || PrimeResultOf(s) == Failed(s.failures[0])
    ensures PrimeResultOf(s).Failed? ==> AnswersForEver(ApplyPrime(s), PrimeResultOf(s))
  {
    hide Places, NothingLost, WorkersOk, SlotsOk, Slice;
    if PrimeResultOf(s).Failed? {
      ReachableInv(s);
      PrimeFailureIsSticky(s);
    }
    ReachableInv(s);
    assert s.sent == 0;
    SliceOfNothing(s.cfg);
    assert NothingYet(s.cur, s.out);
  }

  lemma SliceOfNothing(cfg: Config)
    requires cfg.Valid()
    ensures Slice(cfg, 0) == []
  {
    BoundEnds(cfg);
  }

  // Claims and concurrency

  /** The counter hands out each index once: an event either leaves it or moves it past the claim. */
  lemma {:induction false} LaterClaimsDiffer(s: State, events: seq<Event>)
    requires Possible(s, events)
    ensures s.idx <= After(s, events).idx
    ensures events != [] && events[0].Claim? ==> s.idx < After(s, events).idx
    decreases |events|
  {
    if events != [] {
      var t := Apply(s, events[0]);
      assert s.idx <= t.idx && (events[0].Claim? ==> s.idx < t.idx);
      LaterClaimsDiffer(t, events[1..]);
    }
  }

  function InFlight(workers: seq<Worker>): nat {
    if workers == [] then 0
    else (if workers[0].Fetching? then 1 else 0) + InFlight(workers[1..])
  }

  lemma InFlightAtMost(workers: seq<Worker>)
    ensures InFlight(workers) <= |workers|
  {
  }

  /** Chunk calls in flight never exceed the concurrency nor the number of chunks, and never overlap. */
  lemma FetchesBounded(s: State)
    requires Reachable(s)
    ensures InFlight(s.workers) <= Min(s.cfg.concurrency, s.cfg.NChunks())
    ensures forall v, w | 0 <= v < w < |s.workers| && s.workers[v].Fetching? && s.workers[w].Fetching? ::
              s.workers[v].i != s.workers[w].i
  {
    ReachableInv(s);
    InFlightAtMost(s.workers);
  }

  /** A publish never waits: the worker's slot is always empty. */
  lemma PublishNeverWaits(s: State, w: nat)
    requires Reachable(s) && w < |s.workers| && s.workers[w].Holding?
    ensures CanPublish(s, w)
  {
    hide Contents, Flow, NothingLost;
    ReachableInv(s);
  }
}

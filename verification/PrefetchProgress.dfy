/** Progress of the prefetch reader: a measure every goroutine step lowers, and no deadlock. */
module PrefetchProgress {
  import opened ByteStrings
  import opened PrefetchModel
  import opened PrefetchGeometry
  import opened PrefetchInvariant
  import opened PrefetchTheorems

  function Weight(wk: Worker): nat {
    match wk
    case Idle => 1
    case Claimed(_) => 4
    case Fetching(_) => 3
    case Holding(_, _) => 2
    case Done => 0
  }

  function TotalWeight(workers: seq<Worker>): nat {
    if workers == [] then 0 else Weight(workers[0]) + TotalWeight(workers[1..])
  }

  function DrainerWeight(s: State): nat {
    match s.drainer
    case Waiting => 3 * Max(0, |s.slots| - s.sent) + 1
    case Sending(_) => 3 * Max(0, |s.slots| - s.sent)
    case Stopped => 0
  }

  /** How many more steps the goroutines can take at most. */
  function Measure(s: State): nat {
    5 * Max(0, |s.slots| - s.idx) + TotalWeight(s.workers) + DrainerWeight(s) + |s.out|
  }

  /** Steps of the workers, the drainer and Close's own goroutine, as opposed to the consumer's calls. */
  predicate IsGoroutine(e: Event) {
    !e.Prime? && !e.Read? && !e.Cancel? && !e.Close?
  }

  lemma {:induction false} WeightUpdate(workers: seq<Worker>, w: nat, wk: Worker)
    requires w < |workers|
    ensures TotalWeight(workers[w := wk]) == TotalWeight(workers) - Weight(workers[w]) + Weight(wk)
  {
    if w == 0 {
      assert workers[0 := wk][1..] == workers[1..];
    } else {
      assert workers[w := wk][1..] == workers[1..][w - 1 := wk];
      WeightUpdate(workers[1..], w - 1, wk);
    }
  }

  lemma ClaimLowers(s: State, w: nat)
    requires CanClaim(s, w)
    ensures Measure(ApplyClaim(s, w)) < Measure(s)
  {
    hide TotalWeight;
    WeightUpdate(s.workers, w, ApplyClaim(s, w).workers[w]);
  }

  /** A worker that moves on and leaves the counter alone weighs less. */
  lemma LighterLowers(s: State, t: State, w: nat)
    requires w < |s.workers| == |t.workers| && t.workers == s.workers[w := t.workers[w]]
    requires Weight(t.workers[w]) < Weight(s.workers[w])
    requires |t.slots| == |s.slots| && t.idx == s.idx && t.drainer == s.drainer && |t.out| == |s.out|
    requires DrainerWeight(t) == DrainerWeight(s)
    ensures Measure(t) < Measure(s)
  {
    hide TotalWeight, Weight, DrainerWeight;
    WeightUpdate(s.workers, w, t.workers[w]);
  }

  lemma WorkerStepLowers(s: State, e: Event)
    requires Enabled(s, e) && (e.Check? || e.Fetch? || e.Publish? || e.GiveUp?)
    ensures Measure(Apply(s, e)) < Measure(s)
  {
    hide TotalWeight, Measure;
    LighterLowers(s, Apply(s, e), e.w);
  }

  lemma DrainerStepLowers(s: State, e: Event)
    requires Shape(s) && Enabled(s, e) && (e.Take? || e.Send? || e.Finish? || e.Quit? || e.Flush?)
    ensures Measure(Apply(s, e)) < Measure(s)
  {
    hide TotalWeight, Config.Trim, Config.NChunks, Config.WorkerCount;
  }

  lemma ConsumerStepKeeps(s: State, e: Event)
    requires Shape(s) && Flow(s) && Enabled(s, e) && !IsGoroutine(e)
    ensures Measure(Apply(s, e)) <= Measure(s)
  {
    hide TotalWeight, ReadLoop, Shape, Stream, DrainerOk, ErrorsOk;
    if e.Read? {
      ReadLoopMeaning(s.cur, s.out, s.drainer.Stopped?, e.plen);
    }
  }

  /** Every goroutine step lowers the measure, and no call of the consumer raises it. */
  lemma StepMeasure(s: State, e: Event)
    requires Inv(s) && Enabled(s, e)
    ensures Measure(Apply(s, e)) <= Measure(s) - (if IsGoroutine(e) then 1 else 0)
  {
    hide Places, Contents, NothingLost, Flow, Measure;
    match e
    case Claim(w) => ClaimLowers(s, w);
    case Check(_) => WorkerStepLowers(s, e);
    case Fetch(_, _) => WorkerStepLowers(s, e);
    case Publish(_) => WorkerStepLowers(s, e);
    case GiveUp(_) => WorkerStepLowers(s, e);
    case Take => DrainerStepLowers(s, e);
    case Send => DrainerStepLowers(s, e);
    case Finish => DrainerStepLowers(s, e);
    case Quit => DrainerStepLowers(s, e);
    case Flush => DrainerStepLowers(s, e);
    case Prime => ConsumerStepKeeps(s, e);
    case Read(_) => ConsumerStepKeeps(s, e);
    case Cancel => ConsumerStepKeeps(s, e);
    case Close => ConsumerStepKeeps(s, e);
  }

  function GoroutineSteps(events: seq<Event>): nat {
    if events == [] then 0
    else (if IsGoroutine(events[0]) then 1 else 0) + GoroutineSteps(events[1..])
  }

  /** No interleaving runs the goroutines for more steps than the measure at its start. */
  lemma {:induction false} StepsAreBounded(s: State, events: seq<Event>)
    requires Inv(s) && Possible(s, events)
    ensures GoroutineSteps(events) + Measure(After(s, events)) <= Measure(s)
    decreases |events|
  {
    hide Inv, Measure;
    if events != [] {
      EventKeeps(s, events[0]);
      StepMeasure(s, events[0]);
      StepsAreBounded(Apply(s, events[0]), events[1..]);
    }
  }

  lemma TotalWeightAll(workers: seq<Worker>)
    requires forall w | 0 <= w < |workers| :: workers[w].Idle?
    ensures TotalWeight(workers) == |workers|
  {
  }

  /** A whole read, closed or not, costs a number of goroutine steps linear in its chunks. */
  lemma WholeRunIsLinear(cfg: Config, events: seq<Event>)
    requires cfg.Valid() && Possible(InitialState(cfg), events)
    ensures GoroutineSteps(events) <= 9 * cfg.NChunks() + 1
  {
    hide Inv, Config.Offset;
    InitialInv(cfg);
    var s := InitialState(cfg);
    TotalWeightAll(s.workers);
    StepsAreBounded(s, events);
  }

  /** Some goroutine can move. */
  ghost predicate CanMove(s: State) {
    exists e: Event :: IsGoroutine(e) && Enabled(s, e)
  }

  lemma WorkerMoves(s: State, w: nat)
    requires Places(s.workers, s.slots, s.taken, s.idx) && s.cfg.Valid()
    requires w < |s.workers| && !s.workers[w].Done?
    ensures CanMove(s)
  {
    match s.workers[w]
    case Idle => assert IsGoroutine(Claim(w)) && Enabled(s, Claim(w));
    case Claimed(i) => assert IsGoroutine(Check(w)) && Enabled(s, Check(w));
    case Fetching(i) => assert IsGoroutine(Fetch(w, FetchOk)) && Enabled(s, Fetch(w, FetchOk));
    case Holding(i, b) => assert IsGoroutine(Publish(w)) && Enabled(s, Publish(w));
  }

  lemma DrainerMoves(s: State)
    requires Inv(s) && !s.cancelled && s.drainer.Waiting?
    requires forall w | 0 <= w < |s.workers| :: s.workers[w].Done?
    ensures CanMove(s)
  {
    hide Contents, Flow, Places, CanMove, Config.NChunks;
    if s.taken < |s.slots| {
      assert |s.slots| <= s.idx by {
        assert s.workers[0].Done?;
      }
      assert !Held(s.workers, s.taken);
      MovesBy(s, Take);
    } else {
      MovesBy(s, Finish);
    }
  }

  lemma MovesBy(s: State, e: Event)
    requires IsGoroutine(e) && Enabled(s, e)
    ensures CanMove(s)
  {
  }

  /** While the drainer waits for room, a Read either answers or makes room. */
  lemma ReadUnblocksSend(s: State, plen: nat)
    requires s.cfg.Valid() && Flow(s) && s.drainer.Sending?
    ensures !ReadResultOf(s, plen).Blocked? || CanMove(ApplyRead(s, plen))
  {
    hide ReadLoop, Stream, DrainerOk, CanMove;
    if s.err.None? {
      ReadLoopMeaning(s.cur, s.out, s.drainer.Stopped?, plen);
      if ReadResultOf(s, plen).Blocked? {
        MovesBy(ApplyRead(s, plen), Send);
      }
    }
  }

  lemma ReadAnswersAtEnd(s: State, plen: nat)
    requires s.cfg.Valid() && Flow(s) && s.drainer.Stopped?
    ensures !ReadResultOf(s, plen).Blocked?
  {
    hide ReadLoop, Stream, DrainerOk;
    if s.err.None? {
      ReadLoopMeaning(s.cur, s.out, s.drainer.Stopped?, plen);
    }
  }

  /**
   No interleaving deadlocks while the consumer reads: without a cancellation, either some
   goroutine can move, or the next Read is answered, or that Read lets a goroutine move.
   */
  lemma NoDeadlock(s: State, plen: nat)
    requires Reachable(s) && !s.cancelled
    ensures CanMove(s) || !ReadResultOf(s, plen).Blocked? || CanMove(ApplyRead(s, plen))
  {
    hide Contents, Flow, ReadLoop, Enabled, CanMove, Places, NothingLost;
    ReachableInv(s);
    if s.drainer.Stopped? {
      ReadAnswersAtEnd(s, plen);
    } else if w :| 0 <= w < |s.workers| && !s.workers[w].Done? {
      WorkerMoves(s, w);
    } else if s.drainer.Waiting? {
      DrainerMoves(s);
    } else {
      ReadUnblocksSend(s, plen);
    }
  }

  // Close

  /** Every goroutine has exited. */
  predicate Quiet(s: State) {
    s.drainer.Stopped? && forall w | 0 <= w < |s.workers| :: s.workers[w].Done?
  }

  lemma CancelledMoves(s: State) returns (e: Event)
    requires Inv(s) && s.cancelled && !Quiet(s)
    ensures IsGoroutine(e) && Enabled(s, e)
  {
    hide Contents, Flow, NothingLost;
    if w :| 0 <= w < |s.workers| && !s.workers[w].Done? {
      e := match s.workers[w]
           case Idle => Claim(w)
           case Claimed(_) => Check(w)
           case Fetching(_) => Fetch(w, FetchAborted)
           case Holding(_, _) => GiveUp(w)
           case Done => Quit;
    } else {
      e := if s.drainer.Waiting? && s.taken >= |s.slots| then Finish else Quit;
    }
  }

  lemma GoroutineKeepsCancelled(s: State, e: Event)
    requires Enabled(s, e) && IsGoroutine(e)
    ensures Apply(s, e).cancelled == s.cancelled
  {
  }

  /**
   After Close, or after the caller's context ends, the goroutines can always go on to exit,
   and with `StepsAreBounded` they do so within `Measure` steps on every interleaving.
   */
  lemma {:induction false} CancelledRunsFinish(s: State) returns (events: seq<Event>)
    requires Inv(s) && s.cancelled
    ensures Possible(s, events) && Quiet(After(s, events)) && |events| <= Measure(s)
    decreases Measure(s)
  {
    hide Inv, Measure;
    if Quiet(s) {
      events := [];
    } else {
      var e := CancelledMoves(s);
      EventKeeps(s, e);
      StepMeasure(s, e);
      GoroutineKeepsCancelled(s, e);
      var rest := CancelledRunsFinish(Apply(s, e));
      events := [e] + rest;
      assert events[1..] == rest;
    }
  }

  /** A run whose goroutines can take no further step after a cancellation has ended in quiet. */
  lemma StuckMeansQuiet(s: State)
    requires Reachable(s) && s.cancelled && !CanMove(s)
    ensures Quiet(s)
  {
    hide Inv;
    ReachableInv(s);
    if !Quiet(s) {
      var e := CancelledMoves(s);
    }
  }

  // Buffered memory

  /** One worker claims, fetches and publishes chunks `i` to `n - 1` while the drainer does not run. */
  function FillFrom(i: nat, n: nat): seq<Event>
    decreases n - i
  {
    if i >= n then [] else [Claim(0), Check(0), Fetch(0, FetchOk), Publish(0)] + FillFrom(i + 1, n)
  }

  predicate FilledUpTo(s: State, i: nat) {
    && s.cfg.Valid() && |s.workers| > 0 && s.workers[0].Idle? && !s.cancelled
    && s.idx == i <= |s.slots|
    && (forall k | 0 <= k < i :: s.slots[k].Some?)
    && (forall k | i <= k < |s.slots| :: s.slots[k].None?)
  }

  lemma FillOne(s: State, i: nat)
    requires FilledUpTo(s, i) && i < |s.slots|
    ensures
      var four := [Claim(0), Check(0), Fetch(0, FetchOk), Publish(0)];
      && Possible(s, four)
      && FilledUpTo(After(s, four), i + 1) && |After(s, four).slots| == |s.slots|
  {
    hide Config.Full;
    var s1 := Apply(s, Claim(0));
    assert s1.workers[0] == Claimed(i);
    var s2 := Apply(s1, Check(0));
    assert s2.workers[0] == Fetching(i);
    var s3 := Apply(s2, Fetch(0, FetchOk));
    assert s3.workers[0] == Holding(i, Data(s.cfg.Full(i)));
    var s4 := Apply(s3, Publish(0));
    assert s4.workers[0].Idle?;
    var four := [Claim(0), Check(0), Fetch(0, FetchOk), Publish(0)];
    assert four[1..] == [Check(0), Fetch(0, FetchOk), Publish(0)];
    assert four[1..][1..] == [Fetch(0, FetchOk), Publish(0)];
    assert four[1..][1..][1..] == [Publish(0)] && [Publish(0)][1..] == [];
    assert After(s3, [Publish(0)]) == After(s4, []) == s4;
    assert After(s2, [Fetch(0, FetchOk), Publish(0)]) == s4;
    assert After(s1, four[1..]) == s4;
  }

  lemma {:induction false} AfterAppend(s: State, a: seq<Event>, b: seq<Event>)
    requires Possible(s, a) && Possible(After(s, a), b)
    ensures Possible(s, a + b) && After(s, a + b) == After(After(s, a), b)
    decreases |a|
  {
    hide Enabled, Apply;
    if a == [] {
      assert a + b == b;
    } else {
      assert (a + b)[0] == a[0] && (a + b)[1..] == a[1..] + b;
      AfterAppend(Apply(s, a[0]), a[1..], b);
    }
  }

  lemma {:induction false} FillAll(s: State, i: nat)
    requires FilledUpTo(s, i)
    ensures
      var events := FillFrom(i, |s.slots|);
      Possible(s, events) && FilledUpTo(After(s, events), |s.slots|) && |After(s, events).slots| == |s.slots|
    decreases |s.slots| - i
  {
    hide FilledUpTo, Enabled, Apply;
    assert i <= |s.slots| by { FilledBound(s, i); }
    if i < |s.slots| {
      var four := [Claim(0), Check(0), Fetch(0, FetchOk), Publish(0)];
      FillOne(s, i);
      FillAll(After(s, four), i + 1);
      AfterAppend(s, four, FillFrom(i + 1, |s.slots|));
    }
  }

  lemma FilledBound(s: State, i: nat)
    requires FilledUpTo(s, i)
    ensures i <= |s.slots|
  {
  }

  /** One worker alone can have every chunk of any request buffered at the same time, whatever the concurrency. */
  lemma OneWorkerBuffersEverything(cfg: Config)
    requires cfg.Valid() && cfg.start < cfg.end
    ensures
      var s := InitialState(cfg);
      && Possible(s, FillFrom(0, cfg.NChunks()))
      && var t := After(s, FillFrom(0, cfg.NChunks()));
      |t.slots| == cfg.NChunks() && forall k | 0 <= k < |t.slots| :: t.slots[k].Some?
  {
    ChunksCover(cfg);
    var s := InitialState(cfg);
    assert s.workers[0].Idle?;
    FillAll(s, 0);
  }

  function Filled(slots: seq<Option<Buffer>>): nat {
    if slots == [] then 0 else (if slots[0].Some? then 1 else 0) + Filled(slots[1..])
  }

  lemma {:induction false} FilledBounds(slots: seq<Option<Buffer>>)
    ensures Filled(slots) <= |slots|
    ensures Filled(slots) == |slots| <==> forall k | 0 <= k < |slots| :: slots[k].Some?
  {
    if slots != [] {
      FilledBounds(slots[1..]);
      assert forall k | 1 <= k < |slots| :: slots[k] == slots[1..][k - 1];
    }
  }

  ghost predicate ReachableFrom(cfg: Config, s: State)
    requires cfg.Valid()
  {
    exists events: seq<Event> :: Possible(InitialState(cfg), events) && s == After(InitialState(cfg), events)
  }

  // Fetches in flight

  /** Workers `k` to `n - 1` take an index each and start fetching. */
  function StartFrom(k: nat, n: nat): seq<Event>
    decreases n - k
  {
    if k >= n then [] else [Claim(k), Check(k)] + StartFrom(k + 1, n)
  }

  predicate StartedUpTo(s: State, k: nat) {
    && !s.cancelled && s.idx == k <= |s.workers| <= |s.slots|
    && (forall w | 0 <= w < k :: s.workers[w].Fetching?)
    && (forall w | k <= w < |s.workers| :: s.workers[w].Idle?)
  }

  lemma StartOne(s: State, k: nat)
    requires StartedUpTo(s, k) && k < |s.workers|
    ensures Possible(s, [Claim(k), Check(k)])
    ensures
      var t := After(s, [Claim(k), Check(k)]);
      StartedUpTo(t, k + 1) && |t.workers| == |s.workers|
  {
    var s1 := Apply(s, Claim(k));
    assert s1.workers[k] == Claimed(k);
    var s2 := Apply(s1, Check(k));
    assert s2.workers[k] == Fetching(k);
    var two := [Claim(k), Check(k)];
    assert two[1..] == [Check(k)] && [Check(k)][1..] == [];
    assert After(s1, two[1..]) == After(s2, []) == s2;
  }

  lemma {:induction false} StartAll(s: State, k: nat)
    requires StartedUpTo(s, k)
    ensures
      var events := StartFrom(k, |s.workers|);
      && Possible(s, events) && |After(s, events).workers| == |s.workers|
      && StartedUpTo(After(s, events), |s.workers|)
    decreases |s.workers| - k
  {
    hide Enabled, Apply;
    if k < |s.workers| {
      var two := [Claim(k), Check(k)];
      StartOne(s, k);
      StartAll(After(s, two), k + 1);
      AfterAppend(s, two, StartFrom(k + 1, |s.workers|));
    }
  }

  lemma {:induction false} AllInFlight(workers: seq<Worker>)
    requires forall w | 0 <= w < |workers| :: workers[w].Fetching?
    ensures InFlight(workers) == |workers|
  {
    if workers != [] {
      AllInFlight(workers[1..]);
    }
  }

  /** The bound on the fetches in flight is met: as many can run at once as the concurrency and the chunks allow. */
  lemma FetchesReachBound(cfg: Config)
    requires cfg.Valid()
    ensures exists s :: ReachableFrom(cfg, s) && InFlight(s.workers) == Min(cfg.concurrency, cfg.NChunks())
  {
    hide Config.NChunks, Possible, After;
    var s := InitialState(cfg);
    var events := StartFrom(0, |s.workers|);
    StartAll(s, 0);
    var t := After(s, events);
    AllInFlight(t.workers);
    assert ReachableFrom(cfg, t);
  }

  lemma {:induction false} SlotsStay(s: State, events: seq<Event>)
    requires Possible(s, events)
    ensures |After(s, events).slots| == |s.slots|
    decreases |events|
  {
    if events != [] {
      SlotsStay(Apply(s, events[0]), events[1..]);
    }
  }

  /** In every interleaving of a request at most `concurrency` chunks are buffered in the slots at once. */
  ghost predicate BufferedWithinConcurrency(cfg: Config)
    requires cfg.Valid()
  {
    forall s | ReachableFrom(cfg, s) :: Filled(s.slots) <= cfg.concurrency
  }

  /** The slots keep the buffered chunks within the concurrency exactly when the request has no more chunks than that. */
  lemma BufferedBoundedExactly(cfg: Config)
    requires cfg.Valid()
    ensures BufferedWithinConcurrency(cfg) <==> cfg.NChunks() <= cfg.concurrency
  {
    hide Possible, After, Config.NChunks, Filled;
    if cfg.NChunks() <= cfg.concurrency {
      forall s | ReachableFrom(cfg, s)
        ensures Filled(s.slots) <= cfg.concurrency
      {
        var events: seq<Event> :| Possible(InitialState(cfg), events) && s == After(InitialState(cfg), events);
        SlotsStay(InitialState(cfg), events);
        FilledBounds(s.slots);
      }
    } else {
      NoChunksInNothing(cfg);
      OneWorkerBuffersEverything(cfg);
      var t := After(InitialState(cfg), FillFrom(0, cfg.NChunks()));
      assert ReachableFrom(cfg, t);
      FilledBounds(t.slots);
    }
  }

  lemma NoChunksInNothing(cfg: Config)
    requires cfg.Valid()
    ensures cfg.start >= cfg.end ==> cfg.NChunks() == 0
  {
  }

  // A consumer that keeps reading

  /** A goroutine moves, or Read answers, or Read discards a used-up buffer; a Read that only waits is no step. */
  predicate Advances(s: State, e: Event) {
    && Enabled(s, e)
    && (IsGoroutine(e)
        || (e.Read? && 0 < e.plen
            && (!ReadResultOf(s, e.plen).Blocked? || |ApplyRead(s, e.plen).out| < |s.out|)))
  }

  predicate Ends(s: State, e: Event) {
    e.Read? && (ReadResultOf(s, e.plen).Eof? || ReadResultOf(s, e.plen).Failed?)
  }

  /** A run of such steps none of which ends the reading. */
  predicate KeepsReading(s: State, events: seq<Event>)
    decreases |events|
  {
    events == [] ||
    (Advances(s, events[0]) && !Ends(s, events[0]) && KeepsReading(Apply(s, events[0]), events[1..]))
  }

  /** What is left to do before the reading ends: goroutine steps, and bytes to deliver. */
  function Remaining(s: State): int {
    Measure(s) + |Wanted(s.cfg)| - |s.delivered|
  }

  lemma DeliveredFits(s: State)
    requires Inv(s)
    ensures |s.delivered| <= |Wanted(s.cfg)| && 0 <= Remaining(s)
  {
    hide Contents, Places, NothingLost, Measure;
  }

  lemma ReadTurnsLower(s: State, plen: nat)
    requires Inv(s) && Advances(s, Read(plen)) && !Ends(s, Read(plen))
    ensures Remaining(ApplyRead(s, plen)) < Remaining(s)
  {
    hide Contents, Places, NothingLost, ReadLoop, Stream, DrainerOk, TotalWeight;
    if s.err.None? {
      ReadLoopMeaning(s.cur, s.out, s.drainer.Stopped?, plen);
      GotIsNonempty(s.cur, s.out, s.drainer.Stopped?, plen);
    }
  }

  lemma {:induction false} GotIsNonempty(cur: Option<bytes>, out: seq<Buffer>, closed: bool, plen: nat)
    requires 0 < plen
    ensures ReadLoop(cur, out, closed, plen).result.Got? ==> ReadLoop(cur, out, closed, plen).result.bytes != []
    decreases |out|
  {
    if (cur.Some? && cur.value != []) || out == [] || out[0].Fail? {
    } else {
      GotIsNonempty(Some(out[0].buf), out[1..], closed, plen);
    }
  }

  lemma StepLowersRemaining(s: State, e: Event)
    requires Inv(s) && Advances(s, e) && !Ends(s, e)
    ensures Remaining(Apply(s, e)) < Remaining(s)
  {
    if e.Read? {
      ReadTurnsLower(s, e.plen);
    } else {
      StepMeasure(s, e);
      GoroutinesDeliverNothing(s, e);
      hide Inv, Measure;
    }
  }

  lemma GoroutinesDeliverNothing(s: State, e: Event)
    requires Enabled(s, e) && IsGoroutine(e)
    ensures Apply(s, e).delivered == s.delivered && Apply(s, e).cfg == s.cfg
  {
  }

  /** Reading ends within a bound computed at its start, however the steps are interleaved ... */
  lemma {:induction false} ReadingEnds(s: State, events: seq<Event>)
    requires Inv(s) && KeepsReading(s, events)
    ensures |events| <= Remaining(s)
    decreases |events|
  {
    hide Inv, Remaining, Advances, Ends, Enabled, Apply;
    DeliveredFits(s);
    if events != [] {
      assert Enabled(s, events[0]) by { AdvanceIsEnabled(s, events[0]); }
      EventKeeps(s, events[0]);
      StepLowersRemaining(s, events[0]);
      ReadingEnds(Apply(s, events[0]), events[1..]);
    }
  }

  lemma AdvanceIsEnabled(s: State, e: Event)
    requires Advances(s, e)
    ensures Enabled(s, e)
  {
  }

  /** ... and until it has ended some step can always be taken, so it ends with EOF or the failure. */
  lemma ReadingGoesOn(s: State, plen: nat)
    requires Reachable(s) && !s.cancelled && 0 < plen
    ensures exists e: Event :: Advances(s, e)
  {
    hide Contents, Flow, ReadLoop, Places, NothingLost;
    ReachableInv(s);
    if CanMove(s) {
      var e: Event :| IsGoroutine(e) && Enabled(s, e);
      assert Advances(s, e);
    } else {
      hide Enabled;
      NoDeadlock(s, plen);
      StuckReadAdvances(s, plen);
      assert Advances(s, Read(plen));
    }
  }

  lemma StuckReadAdvances(s: State, plen: nat)
    requires Inv(s) && !s.cancelled && 0 < plen && !CanMove(s)
    requires !ReadResultOf(s, plen).Blocked? || CanMove(ApplyRead(s, plen))
    ensures Advances(s, Read(plen))
  {
    hide Inv, ReadLoop;
    assert !s.closing by { OpenUntilClosed(s); }
    if ReadResultOf(s, plen).Blocked? {
      var t := ApplyRead(s, plen);
      var e: Event :| IsGoroutine(e) && Enabled(t, e);
      ReadOnlyTakes(s, t, e);
      if Enabled(s, e) {
        MovesBy(s, e);
      }
    }
  }

  lemma OpenUntilClosed(s: State)
    requires Inv(s) && !s.cancelled
    ensures !s.closing
  {
    hide Places, NothingLost, Contents, Flow;
  }

  /** A Read can only enable the drainer's send, by making room in the channel. */
  lemma ReadOnlyTakes(s: State, t: State, e: Event)
    requires t == s.(cur := t.cur, out := t.out, err := t.err, delivered := t.delivered)
    requires !s.closing && IsGoroutine(e) && Enabled(t, e)
    ensures Enabled(s, e) || |t.out| < |s.out|
  {
  }

  lemma ReachableStep(s: State, e: Event)
    requires Reachable(s) && Enabled(s, e)
    ensures Reachable(Apply(s, e))
  {
    hide Enabled, Apply, Config.Valid;
    var cfg: Config, events: seq<Event> :|
      cfg.Valid() && Possible(InitialState(cfg), events) && s == After(InitialState(cfg), events);
    assert [e][1..] == [];
    assert Possible(s, [e]) && After(s, [e]) == Apply(s, e);
    AfterAppend(InitialState(cfg), events, [e]);
    assert Possible(InitialState(cfg), events + [e]);
    SameConfig(s, e);
  }

  lemma SameConfig(s: State, e: Event)
    requires Enabled(s, e)
    ensures Apply(s, e).cfg == s.cfg
  {
  }

  lemma AdvanceKeepsOpen(s: State, e: Event)
    requires Advances(s, e)
    ensures Apply(s, e).cancelled == s.cancelled
  {
  }

  /** Every reachable uncancelled reader can be read to its end, by steps of which there are never more than `Remaining`. */
  lemma {:induction false} ReadingCompletes(s: State, plen: nat) returns (events: seq<Event>, last: Event)
    requires Reachable(s) && !s.cancelled && 0 < plen
    ensures Possible(s, events) && KeepsReading(s, events) && |events| <= Remaining(s)
    ensures Advances(After(s, events), last) && Ends(After(s, events), last)
    decreases Remaining(s)
  {
    hide Reachable, Advances, Ends, Enabled, Apply, Remaining, Inv;
    ReachableInv(s);
    ReadingGoesOn(s, plen);
    var e: Event :| Advances(s, e);
    if Ends(s, e) {
      DeliveredFits(s);
      events, last := [], e;
    } else {
      AdvanceIsEnabled(s, e);
      ReachableStep(s, e);
      AdvanceKeepsOpen(s, e);
      StepLowersRemaining(s, e);
      EventKeeps(s, e);
      DeliveredFits(Apply(s, e));
      var rest;
      rest, last := ReadingCompletes(Apply(s, e), plen);
      events := [e] + rest;
      assert events[1..] == rest;
    }
  }
}

/** The prefetch reader's own fields, updated in place, one method per atomic action. */
module PrefetchReader {
  import opened ByteStrings
  import opened PrefetchModel
  import opened PrefetchGeometry
  import opened PrefetchInvariant

  /** A chunk and how far the consumer has got in it. */
  class Cursor {
    var buf: bytes
    var offset: nat

    constructor (buf: bytes)
      ensures this.buf == buf && offset == 0
    {
      this.buf, offset := buf, 0;
    }

    predicate IsEmpty()
      reads this
    {
      offset >= |buf|
    }

    /** What is left to copy. */
    function Remaining(): (rest: bytes)
      reads this
      ensures rest == [] <==> IsEmpty()
    {
      if offset <= |buf| then buf[offset..] else []
    }

    method Advance(n: nat)
      modifies this
      ensures buf == old(buf)
      ensures Remaining() == old(Remaining())[Min(n, |old(Remaining())|)..]
    {
      offset := offset + n;
      if offset > |buf| {
        offset := |buf|;
      }
    }
  }

  lemma WaitingAt(s: State)
    requires Inv(s) && s.drainer.Waiting?
    ensures s.taken == s.sent
  {
  }

  /** One turn of Read's loop. */
  lemma ReadTurn(cur: Option<bytes>, out: seq<Buffer>, closed: bool, plen: nat)
    ensures
      var step := ReadLoop(cur, out, closed, plen);
      if cur.Some? && cur.value != [] then
        var n := Min(plen, |cur.value|);
        step == ReadStep(Some(cur.value[n..]), out, Got(cur.value[..n]))
      else if out == [] then step == ReadStep(None, [], if closed then Eof else Blocked)
      else if out[0].Fail? then step == ReadStep(None, out[1..], Failed(out[0].error))
      else step == ReadLoop(Some(out[0].buf), out[1..], closed, plen)
  {
  }

  class Reader {
    const cfg: Config
    var idx: nat
    var workers: seq<Worker>
    var results: seq<Option<Buffer>>
    var drainer: Drainer
    var next: nat               // the drain loop's index
    ghost var taken: nat
    var out: seq<Buffer>
    var cancelled: bool
    var closed: bool
    var cur: Cursor?
    var err: Option<ReadResult>
    ghost var delivered: bytes
    ghost var failures: map<nat, Error>

    ghost function Staged(): Option<bytes>
      reads this, cur
    {
      if cur == null then None else Some(cur.Remaining())
    }

    ghost function Model(): State
      reads this, cur
    {
      State(cfg, idx, workers, results, drainer, taken, next, out, cancelled, closed, Staged(), err,
            delivered, failures)
    }

    constructor New(content: bytes, start: int, end: int, chunkSize: int, concurrency: int, outBuffers: int)
      ensures Model() == InitialState(MakeConfig(content, start, end, chunkSize, concurrency, outBuffers))
      ensures Inv(Model())
    {
      hide Inv, MakeConfig, Config.NChunks, Config.WorkerCount;
      cfg := MakeConfig(content, start, end, chunkSize, concurrency, outBuffers);
      idx, next, taken, out := 0, 0, 0, [];
      cancelled, closed, cur, err, delivered, failures := false, false, null, None, [], map[];
      workers, results := [], [];
      drainer := Stopped;
      new;
      if cfg.start < cfg.end {
        drainer := Waiting;
      }
      results := seq(cfg.NChunks(), _ => None);
      workers := seq(cfg.WorkerCount(), _ => Idle);
      InitialInv(cfg);
      assert results == InitialState(cfg).slots && workers == InitialState(cfg).workers;
    }

    method ClaimIndex(w: nat)
      requires Inv(Model()) && CanClaim(Model(), w)
      modifies this
      ensures Model() == ApplyClaim(old(Model()), w) && Inv(Model())
    {
      hide Inv;
      ClaimKeeps(Model(), w);
      var i := idx;
      idx := idx + 1;
      workers := workers[w := if i >= |results| then Done else Claimed(i)];
    }

    method CheckContext(w: nat)
      requires Inv(Model()) && CanCheck(Model(), w)
      modifies this
      ensures Model() == ApplyCheck(old(Model()), w) && Inv(Model())
    {
      hide Inv;
      CheckKeeps(Model(), w);
      var i := workers[w].i;
      if cancelled {
        if results[i].None? {
          results := results[i := Some(Fail(Cancelled))];
        }
        workers := workers[w := Done];
      } else {
        workers := workers[w := Fetching(i)];
      }
    }

    method FetchChunk(w: nat, outcome: Outcome)
      requires Inv(Model()) && CanFetch(Model(), w, outcome)
      modifies this
      ensures Model() == ApplyFetch(old(Model()), w, outcome) && Inv(Model())
    {
      hide Inv;
      FetchKeeps(Model(), w, outcome);
      var i := workers[w].i;
      match outcome {
        case FetchOk =>
          workers := workers[w := Holding(i, Data(cfg.Full(i)))];
        case FetchErr(code) =>
          workers := workers[w := Holding(i, Fail(FetchError(code)))];
          failures := failures[i := FetchError(code)];
        case FetchAborted =>
          workers := workers[w := Holding(i, Fail(Cancelled))];
      }
    }

    method PublishChunk(w: nat)
      requires Inv(Model()) && CanPublish(Model(), w)
      modifies this
      ensures Model() == ApplyPublish(old(Model()), w) && Inv(Model())
    {
      hide Inv;
      PublishKeeps(Model(), w);
      results := results[workers[w].i := Some(workers[w].b)];
      workers := workers[w := Idle];
    }

    /** The drainer's two-sided cut of chunk `i` to the requested range. */
    method TrimChunk(i: nat, buf: bytes) returns (cut: bytes)
      requires cfg.Valid()
      ensures cut == cfg.Trim(i, buf)
    {
      hide Config.AlignedStart;
      var chunkOff := cfg.Offset(i);
      var lo, hi := chunkOff, chunkOff + |buf|;
      if lo < cfg.start {
        lo := cfg.start;
      }
      if hi > cfg.end {
        hi := cfg.end;
      }
      cut := if hi <= lo then [] else buf[lo - chunkOff..hi - chunkOff];
    }

    /** Receives slot `next` and trims it to the requested range. */
    method DrainTake()
      requires Inv(Model()) && CanTake(Model())
      modifies this
      ensures Model() == ApplyTake(old(Model())) && Inv(Model())
    {
      hide Inv, Config.Trim, Config.Offset;
      TakeKeeps(Model());
      WaitingAt(Model());
      var b := results[next].value;
      results := results[next := None];
      taken := next + 1;
      if b.Data? {
        var cut := TrimChunk(next, b.buf);
        b := Data(cut);
      }
      drainer := Sending(b);
    }

    method DrainSend()
      requires Inv(Model()) && CanSend(Model())
      modifies this
      ensures Model() == ApplySend(old(Model())) && Inv(Model())
    {
      hide Inv;
      SendKeeps(Model());
      out := out + [drainer.b];
      if drainer.b.Fail? {
        drainer := Stopped;
      } else {
        drainer := Waiting;
        next := next + 1;
      }
    }

    method DrainStop()
      requires Inv(Model()) && (CanFinish(Model()) || CanQuit(Model()))
      modifies this
      ensures Model() == old(Model()).(drainer := Stopped) && Inv(Model())
    {
      hide Inv;
      StopKeeps(Model());
      drainer := Stopped;
    }

    method Prime() returns (r: ReadResult)
      requires Inv(Model()) && !closed
      modifies this
      ensures Model() == ApplyPrime(old(Model())) && Inv(Model())
      ensures r == PrimeResultOf(old(Model()))
      ensures cur != null ==> cur == old(cur) || fresh(cur)
    {
      hide Inv;
      PrimeKeeps(Model());
      if cur != null {
        return Got([]);
      }
      if out == [] {
        return if drainer.Stopped? then Eof else Blocked;
      }
      var b := out[0];
      out := out[1..];
      if b.Fail? {
        err := Some(Failed(b.error));
        return Failed(b.error);
      }
      cur := new Cursor(b.buf);
      return Got([]);
    }

    /**
     Read's loop: receive until a buffer with something left is staged, unless the stream
     ends, fails or has nothing yet. `Got([])` means a buffer is staged.
     */
    method Stage(ghost plen: nat) returns (answer: ReadResult)
      modifies `out, `cur
      ensures cur != null ==> cur == old(cur) || fresh(cur)
      ensures
        var step := ReadLoop(old(Staged()), old(out), drainer.Stopped?, plen);
        if answer == Got([]) then cur != null && !cur.IsEmpty() && step == ReadLoop(Staged(), out, drainer.Stopped?, plen)
        else cur == null && !answer.Got? && step == ReadStep(None, out, answer)
    {
      hide ReadLoop;
      while cur == null || cur.IsEmpty()
        invariant cur != null ==> cur == old(cur) || fresh(cur)
        invariant ReadLoop(Staged(), out, drainer.Stopped?, plen)
                  == ReadLoop(old(Staged()), old(out), drainer.Stopped?, plen)
        decreases |out|
      {
        ReadTurn(Staged(), out, drainer.Stopped?, plen);
        cur := null;
        if out == [] {
          return if drainer.Stopped? then Eof else Blocked;
        }
        var b := out[0];
        out := out[1..];
        if b.Fail? {
          return Failed(b.error);
        }
        cur := new Cursor(b.buf);
      }
      return Got([]);
    }

    method Read(plen: nat) returns (r: ReadResult)
      requires Inv(Model()) && !closed
      modifies this, cur
      ensures Model() == ApplyRead(old(Model()), plen) && Inv(Model())
      ensures r == ReadResultOf(old(Model()), plen)
    {
      hide Inv, ReadLoop;
      ReadKeeps(Model(), plen);
      if err.Some? {
        return err.value;
      }
      r := Stage(plen);
      if !r.Got? {
        err := if r.Blocked? then None else Some(r);
        return;
      }
      ReadTurn(Staged(), out, drainer.Stopped?, plen);
      var rest := cur.Remaining();
      var n := Min(plen, |rest|);
      cur.Advance(n);
      delivered := delivered + rest[..n];
      r := Got(rest[..n]);
    }

    method Close()
      requires Inv(Model())
      modifies this
      ensures Model() == old(Model()).(cancelled := true, closing := true) && Inv(Model())
    {
      hide Inv;
      CancelKeeps(Model(), true);
      closed := true;
      cancelled := true;
    }
  }
}

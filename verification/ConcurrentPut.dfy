/**
 Overlapping requests that write or remove one object row: every interleaving of the read-old, commit and reap steps of
 PUT, CopyObject and CompleteMultipartUpload, and of the read, delete and drop steps of DELETE.
 */
module ConcurrentPut {
  import O = Ownership

  /** PUT and CopyObject upload messages of their own; Complete takes over those of an upload; DELETE has none. */
  datatype Kind = Write | Assemble | Remove

  /**
   Where a request is after its body has been uploaded, its parts have been read, or its object has been found. `saw` is
   what it read of the row it is about to replace or remove.
   */
  datatype Phase =
    | Ready
    | OldRead(saw: set<nat>)
    | Committed(saw: set<nat>)   // the row is written and the old one not yet reaped
    | Refused                    // a write that failed and has not yet been cleaned up
    | Dropping(saw: set<nat>)    // a DELETE that has deleted the messages and not yet the row
    | Undropped(saw: set<nat>)   // a DELETE that failed to delete the row
    | Finished

  /** Messages come as a batch with one request: a PUT or copy, or the first Complete of an upload. */
  datatype Origin = Origin(kind: Kind, batch: nat, key: O.ObjectKey)

  /** `mine` are the messages the request writes into the row. */
  datatype Request = Request(origin: Origin, mine: set<nat>, phase: Phase)

  /**
   `rows` is what each object row references and `live` what the channel holds. The rest is history: where each message
   came from; which messages were ever in a row, read by a request that then committed or began to delete, and reaped;
   and which DELETE was the last to be given a message to delete since it was last written into a row.
   */
  datatype State = State(
    rows: map<O.ObjectKey, set<nat>>,
    live: set<nat>,
    reqs: map<nat, Request>,
    origins: map<nat, Origin>,
    placed: set<nat>,
    doomed: set<nat>,
    reaped: set<nat>,
    struck: map<nat, nat>)

  const INIT: State := State(map[], {}, map[], map[], {}, {}, {}, map[])

  datatype Event =
    | Arrive(r: nat, kind: Kind, key: O.ObjectKey, mine: set<nat>)
    | Again(r: nat, first: nat)         // another Complete of an upload that is still there
    | ReadOld(r: nat, seen: set<nat>)
    | Commit(r: nat)
    | Refuse(r: nat)
    | Reap(r: nat, gone: set<nat>)
    | Cleanup(r: nat, gone: set<nat>)
    | Strike(r: nat, gone: set<nat>)    // a DELETE's batch deletion
    | Drop(r: nat)
    | FailDrop(r: nat)

  function RowOf(s: State, k: O.ObjectKey): set<nat> {
    if k in s.rows then s.rows[k] else {}
  }

  /**
   A write's read that fails part of the way has seen only some of the row, where a DELETE's ends the request; a batch
   deletion deletes some of what it was given.
   */
  predicate Possible(s: State, e: Event) {
    match e
    case Arrive(r, kind, _, mine) =>
      r !in s.reqs && (kind.Remove? ==> mine == {}) && forall m | m in mine :: m !in s.origins
    case Again(r, p) => r !in s.reqs && p in s.reqs && s.reqs[p].origin.kind.Assemble? && s.reqs[p].mine !! s.placed
    case ReadOld(r, seen) =>
      && r in s.reqs && s.reqs[r].phase.Ready? && seen <= RowOf(s, s.reqs[r].origin.key)
      && (s.reqs[r].origin.kind.Remove? ==> s.reqs[r].origin.key in s.rows && seen == s.rows[s.reqs[r].origin.key])
    case Commit(r) => r in s.reqs && !s.reqs[r].origin.kind.Remove? && s.reqs[r].phase.OldRead?
    case Refuse(r) => r in s.reqs && (s.reqs[r].phase.Ready? || s.reqs[r].phase.OldRead?)
    case Reap(r, gone) => r in s.reqs && s.reqs[r].phase.Committed? && gone <= s.reqs[r].phase.saw
    case Cleanup(r, gone) => r in s.reqs && s.reqs[r].phase.Refused? && gone <= s.reqs[r].mine
    case Strike(r, gone) =>
      r in s.reqs && s.reqs[r].origin.kind.Remove? && s.reqs[r].phase.OldRead? && gone <= s.reqs[r].phase.saw
    case Drop(r) => r in s.reqs && s.reqs[r].phase.Dropping?
    case FailDrop(r) => r in s.reqs && s.reqs[r].phase.Dropping?
  }

  function To(s: State, r: nat, phase: Phase): State
    requires r in s.reqs
  {
    s.(reqs := s.reqs[r := s.reqs[r].(phase := phase)])
  }

  function Next(s: State, e: Event): State
    requires Possible(s, e)
  {
    match e
    case Arrive(r, kind, key, mine) =>
      s.(reqs := s.reqs[r := Request(Origin(kind, r, key), mine, Ready)],
         live := s.live + mine,
         origins := s.origins + map m | m in mine :: Origin(kind, r, key))
    case Again(r, p) => s.(reqs := s.reqs[r := s.reqs[p].(phase := Ready)])
    case ReadOld(r, seen) => To(s, r, OldRead(seen))
    case Commit(r) =>
      var q := s.reqs[r];
      To(s, r, Committed(q.phase.saw)).(rows := s.rows[q.origin.key := q.mine], placed := s.placed + q.mine,
                                         doomed := s.doomed + q.phase.saw, struck := s.struck - q.mine)
    case Refuse(r) => To(s, r, if s.reqs[r].origin.kind.Write? then Refused else Finished)
    case Reap(r, gone) => To(s, r, Finished).(live := s.live - gone, reaped := s.reaped + gone)
    case Cleanup(r, gone) => To(s, r, Finished).(live := s.live - gone)
    case Strike(r, gone) =>
      var saw := s.reqs[r].phase.saw;
      To(s, r, Dropping(saw)).(live := s.live - gone, reaped := s.reaped + gone, doomed := s.doomed + saw,
                               struck := s.struck + map m | m in saw :: r)
    case Drop(r) => To(s, r, Finished).(rows := s.rows - {s.reqs[r].origin.key})
    case FailDrop(r) => To(s, r, Undropped(s.reqs[r].phase.saw))
  }

  predicate PossibleRun(s: State, run: seq<Event>)
    decreases |run|
  {
    run == [] || (Possible(s, run[0]) && PossibleRun(Next(s, run[0]), run[1..]))
  }

  function After(s: State, run: seq<Event>): State
    requires PossibleRun(s, run)
    decreases |run|
  {
    if run == [] then s else After(Next(s, run[0]), run[1..])
  }

  // The invariant

  /** A write that has neither committed nor finished: no row has ever had its messages. */
  predicate Pending(q: Request) {
    q.origin.kind.Write? && (q.phase.Ready? || q.phase.OldRead? || q.phase.Refused?)
  }

  predicate Belongs(s: State, m: nat, k: O.ObjectKey) {
    m in s.origins && s.origins[m].key == k
  }

  /** Only Completes of one upload share messages. */
  predicate OwnersOk(s: State) {
    forall r | r in s.reqs ::
      && (!s.reqs[r].origin.kind.Assemble? ==> s.reqs[r].origin.batch == r)
      && forall m | m in s.reqs[r].mine :: m in s.origins && s.origins[m] == s.reqs[r].origin
  }

  predicate RequestOk(s: State, q: Request) {
    && (Keeps(q) ==> q.mine - s.placed <= s.live)
    && (Pending(q) ==> q.mine !! s.placed)
    && (q.phase.Refused? ==> q.origin.kind.Write?)
    && (q.origin.kind.Remove? ==> q.mine == {})
    && (q.phase.OldRead? || q.phase.Committed? || q.phase.Dropping? ==>
          forall m | m in q.phase.saw :: m in s.placed && Belongs(s, m, q.origin.key))
    && (q.phase.Committed? || q.phase.Dropping? ==> q.phase.saw <= s.doomed)
    && (q.phase.Committed? ==> q.phase.saw !! RowOf(s, q.origin.key))
  }

  /** Nothing but the request's own cleanup deletes its messages before they are in a row. */
  predicate Keeps(q: Request) {
    Pending(q) || q.origin.kind.Assemble?
  }

  /** A DELETE of `k` that has deleted the messages and not the row. */
  predicate Striking(s: State, d: nat, k: O.ObjectKey) {
    && d in s.reqs && s.reqs[d].origin.kind.Remove? && s.reqs[d].origin.key == k
    && (s.reqs[d].phase.Dropping? || s.reqs[d].phase.Undropped?)
  }

  /** A row's messages are its key's, and one that was ever given up is in the hands of a DELETE of that key. */
  predicate RowOk(s: State, k: O.ObjectKey) {
    forall m | m in RowOf(s, k) ::
      m in s.placed && Belongs(s, m, k) && (m in s.doomed ==> m in s.struck && Striking(s, s.struck[m], k))
  }

  ghost predicate Inv(s: State) {
    && OwnersOk(s) && s.placed - s.doomed <= s.live && s.doomed <= s.placed <= s.origins.Keys
    && (forall k :: RowOk(s, k))
    && (forall r | r in s.reqs :: RequestOk(s, s.reqs[r]))
  }

  /** What a reaping request deletes is in no row. */
  lemma OldIsUnreferenced(s: State, r: nat, k: O.ObjectKey)
    requires Inv(s) && r in s.reqs && s.reqs[r].phase.Committed?
    ensures s.reqs[r].phase.saw !! RowOf(s, k)
  {
    assert RequestOk(s, s.reqs[r]) && RowOk(s, k);
  }

  lemma MineIsUnreferenced(s: State, r: nat, k: O.ObjectKey)
    requires Inv(s) && r in s.reqs && Pending(s.reqs[r])
    ensures s.reqs[r].mine !! RowOf(s, k) && s.reqs[r].mine !! s.placed
  {
    assert RequestOk(s, s.reqs[r]) && RowOk(s, k);
  }

  lemma MineIsOwn(s: State, r: nat, q: nat)
    requires OwnersOk(s) && r in s.reqs && q in s.reqs && r != q && !s.reqs[r].origin.kind.Assemble?
    ensures s.reqs[r].mine !! s.reqs[q].mine
  {
    forall m | m in s.reqs[r].mine
      ensures m !in s.reqs[q].mine
    {
      assert s.origins[m] == s.reqs[r].origin;
    }
  }

  /** A commit would write into the row a message that some request has already read in order to delete it. */
  predicate Clashes(s: State, e: Event)
    requires Possible(s, e)
  {
    e.Commit? && !(s.reqs[e.r].mine !! s.doomed + s.reqs[e.r].phase.saw)
  }

  /** The invariant survives a step exactly when the step is not such a commit. */
  lemma NextKeeps(s: State, e: Event)
    requires Inv(s) && Possible(s, e)
    ensures Inv(Next(s, e)) <==> !Clashes(s, e)
  {
    hide Inv, Next;
    match e
    case Arrive(_, _, _, _) => ArriveKeeps(s, e);
    case Again(_, _) => AgainKeeps(s, e);
    case ReadOld(_, _) => ReadOldKeeps(s, e);
    case Commit(_) => CommitKeeps(s, e);
    case Refuse(_) => RefuseKeeps(s, e);
    case Reap(_, _) => ReapKeeps(s, e);
    case Cleanup(_, _) => CleanupKeeps(s, e);
    case Strike(_, _) => StrikeKeeps(s, e);
    case Drop(_) => DropKeeps(s, e);
    case FailDrop(_) => FailDropKeeps(s, e);
  }

  /** Rows are as good as they were when only the request `r` is new or moved on, and did not finish a deletion. */
  lemma RowsStay(s: State, t: State, r: nat)
    requires forall k :: RowOk(s, k)
    requires t.rows == s.rows && t.placed == s.placed && t.doomed == s.doomed && t.struck == s.struck
    requires forall m | m in s.origins :: m in t.origins && t.origins[m] == s.origins[m]
    requires forall q | q in s.reqs && q != r :: q in t.reqs && t.reqs[q] == s.reqs[q]
    requires r in s.reqs ==> !s.reqs[r].phase.Undropped? && r in t.reqs && t.reqs[r].origin == s.reqs[r].origin
    requires r in s.reqs && s.reqs[r].phase.Dropping? ==> t.reqs[r].phase.Undropped?
    ensures forall k :: RowOk(t, k)
  {
    hide OwnersOk, RequestOk;
    forall k
      ensures RowOk(t, k)
    {
      assert RowOk(s, k);
    }
  }

  lemma StruckRows(s: State, e: Event)
    requires Inv(s) && Possible(s, e) && e.Strike?
    ensures forall k :: RowOk(Next(s, e), k)
  {
    var t := Next(s, e);
    assert RequestOk(s, s.reqs[e.r]);
    hide OwnersOk, RequestOk;
    forall k
      ensures RowOk(t, k)
    {
      assert RowOk(s, k);
    }
  }

  lemma DroppedRows(s: State, e: Event)
    requires Inv(s) && Possible(s, e) && e.Drop?
    ensures forall k :: RowOk(Next(s, e), k)
  {
    hide OwnersOk, RequestOk;
    var t := Next(s, e);
    forall k
      ensures RowOk(t, k)
    {
      assert RowOk(s, k);
    }
  }

  lemma OtherStays(s: State, t: State, q: Request)
    requires RequestOk(s, q) && (Keeps(q) ==> q.mine - s.placed <= t.live)
    requires forall m | m in s.origins :: m in t.origins && t.origins[m] == s.origins[m]
    requires t.placed == s.placed && s.doomed <= t.doomed
    requires forall k :: RowOf(t, k) <= RowOf(s, k)
    ensures RequestOk(t, q)
  {
    hide RowOf, Keeps, Pending;
  }

  /** A live message of a request stays live when nothing is deleted. */
  lemma LiveStays(s: State)
    requires Inv(s)
    ensures forall q | q in s.reqs && Keeps(s.reqs[q]) :: s.reqs[q].mine - s.placed <= s.live
  {
    hide RowOk, OwnersOk, Keeps, Pending, Belongs;
    forall q | q in s.reqs && Keeps(s.reqs[q])
      ensures s.reqs[q].mine - s.placed <= s.live
    {
      assert RequestOk(s, s.reqs[q]);
    }
  }

  lemma ArriveKeeps(s: State, e: Event)
    requires Inv(s) && Possible(s, e) && e.Arrive?
    ensures Inv(Next(s, e))
  {
    hide RowOk;
    var t := Next(s, e);
    RowsStay(s, t, e.r);
    LiveStays(s);
    assert e.mine !! s.placed;
    NewOk(t, e);
    hide RequestOk;
    OthersOk(s, t, e.r);
    ArriveOwners(s, e);
    hide OwnersOk;
  }

  lemma ArriveOwners(s: State, e: Event)
    requires OwnersOk(s) && Possible(s, e) && e.Arrive?
    ensures OwnersOk(Next(s, e))
  {
  }

  lemma AgainKeeps(s: State, e: Event)
    requires Inv(s) && Possible(s, e) && e.Again?
    ensures Inv(Next(s, e))
  {
    hide RowOk;
    var t := Next(s, e);
    RowsStay(s, t, e.r);
    LiveStays(s);
    assert RequestOk(s, s.reqs[e.first]) && RequestOk(t, t.reqs[e.r]);
    OthersOk(s, t, e.r);
    assert OwnersOk(t);
    hide RequestOk, OwnersOk;
  }

  lemma NewOk(t: State, e: Event)
    requires e.Arrive? && (e.kind.Remove? ==> e.mine == {}) && e.mine <= t.live && e.mine !! t.placed
    ensures RequestOk(t, Request(Origin(e.kind, e.r, e.key), e.mine, Ready))
  {
  }

  /** The requests that were there before `r` are as good as they were. */
  lemma OthersOk(s: State, t: State, r: nat)
    requires forall q | q in s.reqs :: RequestOk(s, s.reqs[q])
    requires t.reqs - {r} == s.reqs - {r} && RowsSame(s, t)
    requires forall q | q in s.reqs && Keeps(s.reqs[q]) :: s.reqs[q].mine - s.placed <= t.live
    ensures forall q | q in t.reqs && q != r :: RequestOk(t, t.reqs[q])
  {
    hide RequestOk;
    forall q | q in t.reqs && q != r
      ensures RequestOk(t, t.reqs[q])
    {
      assert q in t.reqs - {r} && (t.reqs - {r})[q] == (s.reqs - {r})[q];
      OtherStays(s, t, s.reqs[q]);
    }
  }

  /** Rows and their history are the same, and origins were only added. */
  predicate RowsSame(s: State, t: State) {
    && t.rows == s.rows && t.placed == s.placed && t.doomed == s.doomed
    && forall m | m in s.origins :: m in t.origins && t.origins[m] == s.origins[m]
  }

  lemma RowMeans(s: State, k: O.ObjectKey)
    requires RowOk(s, k)
    ensures forall m | m in RowOf(s, k) :: m in s.placed && Belongs(s, m, k)
  {
  }

  /** Only the phase of `r` differs, among the requests and what they are checked against. */
  predicate OnlyMoves(s: State, t: State, r: nat) {
    && r in s.reqs && r in t.reqs && t.reqs == s.reqs[r := s.reqs[r].(phase := t.reqs[r].phase)]
    && t.origins == s.origins && t.placed == s.placed && s.doomed <= t.doomed <= t.placed
  }

  /** The other requests are as good as they were when no row has grown and nothing they count on was deleted. */
  lemma OthersStay(s: State, t: State, r: nat)
    requires Inv(s) && OnlyMoves(s, t, r) && t.placed - t.doomed <= t.live
    requires forall q | q in s.reqs && q != r && Keeps(s.reqs[q]) :: s.reqs[q].mine - s.placed <= t.live
    requires RequestOk(t, t.reqs[r]) && (forall k :: RowOf(t, k) <= RowOf(s, k)) && (forall k :: RowOk(t, k))
    ensures Inv(t)
  {
    hide RowOk;
    forall q | q in t.reqs
      ensures RequestOk(t, t.reqs[q])
    {
      if q != r {
        assert RequestOk(s, s.reqs[q]);
        OtherStays(s, t, s.reqs[q]);
      }
    }
    OwnersStay(s, t, r);
    hide RequestOk, OwnersOk;
  }

  lemma OwnersStay(s: State, t: State, r: nat)
    requires OwnersOk(s) && OnlyMoves(s, t, r)
    ensures OwnersOk(t)
  {
  }

  lemma ReadOldKeeps(s: State, e: Event)
    requires Inv(s) && Possible(s, e) && e.ReadOld?
    ensures Inv(Next(s, e))
  {
    hide RowOk, OwnersOk;
    var t := Next(s, e);
    RowsStay(s, t, e.r);
    RowMeans(s, s.reqs[e.r].origin.key);
    assert RequestOk(s, s.reqs[e.r]) && RequestOk(t, t.reqs[e.r]);
    LiveStays(s);
    hide *;
    OthersStay(s, t, e.r) by { assert OnlyMoves(s, t, e.r); }
  }

  lemma RefuseKeeps(s: State, e: Event)
    requires Inv(s) && Possible(s, e) && e.Refuse?
    ensures Inv(Next(s, e))
  {
    hide RowOk, OwnersOk;
    var t := Next(s, e);
    RowsStay(s, t, e.r);
    assert RequestOk(s, s.reqs[e.r]) && RequestOk(t, t.reqs[e.r]);
    LiveStays(s);
    OthersStay(s, t, e.r);
    hide Inv;
  }

  lemma FailDropKeeps(s: State, e: Event)
    requires Inv(s) && Possible(s, e) && e.FailDrop?
    ensures Inv(Next(s, e))
  {
    hide RowOk, OwnersOk;
    var t := Next(s, e);
    RowsStay(s, t, e.r);
    assert RequestOk(s, s.reqs[e.r]) && RequestOk(t, t.reqs[e.r]);
    LiveStays(s);
    OthersStay(s, t, e.r);
    hide Inv;
  }

  lemma CommitKeeps(s: State, e: Event)
    requires Inv(s) && Possible(s, e) && e.Commit?
    ensures Inv(Next(s, e)) <==> !Clashes(s, e)
  {
    var t, key := Next(s, e), s.reqs[e.r].origin.key;
    if Clashes(s, e) {
      var m :| m in s.reqs[e.r].mine && m in s.doomed + s.reqs[e.r].phase.saw;
      assert !RowOk(t, key);
    } else {
      CommittedRows(s, e);
      CommittedRequests(s, e);
      assert RequestOk(s, s.reqs[e.r]);
    }
  }

  lemma CommittedRows(s: State, e: Event)
    requires Inv(s) && Possible(s, e) && e.Commit? && !Clashes(s, e)
    ensures forall k :: RowOk(Next(s, e), k)
  {
    var t, q := Next(s, e), s.reqs[e.r];
    assert RequestOk(s, q);
    forall k
      ensures RowOk(t, k)
    {
      assert RowOk(s, k);
    }
  }

  lemma CommittedRequests(s: State, e: Event)
    requires Inv(s) && Possible(s, e) && e.Commit? && !Clashes(s, e)
    ensures var t := Next(s, e); forall r | r in t.reqs :: RequestOk(t, t.reqs[r])
  {
    var t := Next(s, e);
    assert RequestOk(s, s.reqs[e.r]);
    forall r | r in t.reqs
      ensures RequestOk(t, t.reqs[r])
    {
      assert RequestOk(s, s.reqs[r]);
      if r != e.r && Pending(s.reqs[r]) {
        MineIsOwn(s, r, e.r);
      }
    }
  }

  lemma ReapKeeps(s: State, e: Event)
    requires Inv(s) && Possible(s, e) && e.Reap?
    ensures Inv(Next(s, e))
  {
    hide RowOk, OwnersOk;
    var t := Next(s, e);
    RowsStay(s, t, e.r);
    assert RequestOk(s, s.reqs[e.r]) && RequestOk(t, t.reqs[e.r]);
    LiveStays(s);
    OthersStay(s, t, e.r);
    hide Inv;
  }

  lemma CleanupKeeps(s: State, e: Event)
    requires Inv(s) && Possible(s, e) && e.Cleanup?
    ensures Inv(Next(s, e))
  {
    hide RowOk, OwnersOk;
    var t := Next(s, e);
    RowsStay(s, t, e.r);
    assert RequestOk(s, s.reqs[e.r]) && RequestOk(t, t.reqs[e.r]);
    LiveStays(s);
    forall q | q in s.reqs && q != e.r
      ensures s.reqs[e.r].mine !! s.reqs[q].mine
    {
      MineIsOwn(s, e.r, q);
    }
    OthersStay(s, t, e.r);
    hide Inv;
  }

  lemma StrikeKeeps(s: State, e: Event)
    requires Inv(s) && Possible(s, e) && e.Strike?
    ensures Inv(Next(s, e))
  {
    hide RowOk, OwnersOk;
    var t := Next(s, e);
    StruckRows(s, e);
    assert RequestOk(s, s.reqs[e.r]) && RequestOk(t, t.reqs[e.r]);
    LiveStays(s);
    OthersStay(s, t, e.r);
    hide Inv;
  }

  lemma DropKeeps(s: State, e: Event)
    requires Inv(s) && Possible(s, e) && e.Drop?
    ensures Inv(Next(s, e))
  {
    hide RowOk, OwnersOk;
    var t := Next(s, e);
    DroppedRows(s, e);
    assert RequestOk(s, s.reqs[e.r]) && RequestOk(t, t.reqs[e.r]);
    LiveStays(s);
    OthersStay(s, t, e.r);
    hide Inv;
  }

  // Runs

  /** No commit of the run writes a message that has been given up. */
  predicate NoClash(s: State, run: seq<Event>)
    requires PossibleRun(s, run)
    decreases |run|
  {
    run == [] || (!Clashes(s, run[0]) && NoClash(Next(s, run[0]), run[1..]))
  }

  lemma {:induction false} RunKeeps(s: State, run: seq<Event>)
    requires Inv(s) && PossibleRun(s, run) && NoClash(s, run)
    ensures Inv(After(s, run))
    decreases |run|
  {
    hide Inv, Next, Possible, Clashes;
    if run != [] {
      NextKeeps(s, run[0]);
      RunKeeps(Next(s, run[0]), run[1..]);
    }
  }

  lemma InitInv()
    ensures Inv(INIT)
  {
  }

  /**
   In every interleaving without a clash, every message of every row is live, unless a DELETE of that key has been
   given it to delete and has not, or not yet, deleted the row.
   */
  lemma RowsStayLive(run: seq<Event>, k: O.ObjectKey, m: nat)
    requires PossibleRun(INIT, run) && NoClash(INIT, run)
    requires m in RowOf(After(INIT, run), k) && m !in After(INIT, run).live
    ensures
      var s := After(INIT, run);
      m in s.struck && Striking(s, s.struck[m], k)
  {
    hide Next, Possible, Clashes;
    InitInv();
    RunKeeps(INIT, run);
    assert RowOk(After(INIT, run), k);
  }

  function Deleted(e: Event): set<nat> {
    match e
    case Reap(_, gone) => gone
    case Cleanup(_, gone) => gone
    case Strike(_, gone) => gone
    case _ => {}
  }

  /** What a step deletes from the channel. */
  lemma OnlyDeleted(s: State, e: Event)
    requires Possible(s, e)
    ensures s.live - Deleted(e) <= Next(s, e).live
  {
  }

  /**
   In every interleaving without a clash, no reap and no cleanup deletes a message that any committed row references,
   and a DELETE deletes none that another key's row references.
   */
  lemma NoReapHurts(run: seq<Event>, e: Event, k: O.ObjectKey)
    requires PossibleRun(INIT, run) && NoClash(INIT, run) && Possible(After(INIT, run), e)
    requires e.Strike? ==> After(INIT, run).reqs[e.r].origin.key != k
    ensures Deleted(e) !! RowOf(After(INIT, run), k)
    ensures RowOf(After(INIT, run), k) * After(INIT, run).live <= Next(After(INIT, run), e).live
  {
    OnlyDeleted(After(INIT, run), e);
    hide Next;
    InitInv();
    RunKeeps(INIT, run);
    var s := After(INIT, run);
    match e
    case Reap(r, gone) => OldIsUnreferenced(s, r, k);
    case Cleanup(r, gone) =>
      assert RequestOk(s, s.reqs[r]);
      MineIsUnreferenced(s, r, k);
    case Strike(r, gone) => assert RequestOk(s, s.reqs[r]) && RowOk(s, k);
    case _ =>
  }

  // When commits clash

  /** A PUT or copy never clashes: no row has ever had its messages. */
  lemma WritesNeverClash(s: State, r: nat)
    requires Inv(s) && Possible(s, Commit(r)) && s.reqs[r].origin.kind.Write?
    ensures !Clashes(s, Commit(r))
  {
    assert RequestOk(s, s.reqs[r]);
  }

  /** Nor does a Complete whose upload no other Complete has finished. */
  lemma FirstCompleteNeverClashes(s: State, r: nat)
    requires Inv(s) && Possible(s, Commit(r)) && s.reqs[r].mine !! s.placed
    ensures !Clashes(s, Commit(r))
  {
    assert RequestOk(s, s.reqs[r]);
  }

  /** No two Completes of one upload. */
  predicate NoneAgain(run: seq<Event>) {
    forall e | e in run :: !e.Again?
  }

  /** No row has had what a request is still to write, and only it has those messages. */
  predicate AllFirst(s: State) {
    forall r | r in s.reqs ::
      s.reqs[r].origin.batch == r && (s.reqs[r].phase.Ready? || s.reqs[r].phase.OldRead? ==> s.reqs[r].mine !! s.placed)
  }

  lemma FirstStays(s: State, e: Event)
    requires Inv(s) && AllFirst(s) && Possible(s, e) && !e.Again?
    ensures AllFirst(Next(s, e)) && !Clashes(s, e)
  {
    hide Inv, Next, AllFirst;
    if e.Commit? {
      FirstCommit(s, e);
    } else if e.Arrive? {
      FirstArrives(s, e);
    } else {
      FirstMoves(s, e);
    }
  }

  lemma FirstCommit(s: State, e: Event)
    requires Inv(s) && AllFirst(s) && Possible(s, e) && e.Commit?
    ensures AllFirst(Next(s, e)) && !Clashes(s, e)
  {
    FirstCompleteNeverClashes(s, e.r);
    hide RowOk, RequestOk, Clashes;
    var t := Next(s, e);
    forall r | r in t.reqs && r != e.r
      ensures s.reqs[r].mine !! s.reqs[e.r].mine
    {
      assert forall m | m in s.reqs[r].mine :: s.origins[m] == s.reqs[r].origin;
    }
  }

  lemma FirstArrives(s: State, e: Event)
    requires Inv(s) && AllFirst(s) && Possible(s, e) && e.Arrive?
    ensures AllFirst(Next(s, e))
  {
    hide RowOk, RequestOk, OwnersOk;
    assert forall m | m in e.mine :: m !in s.placed;
  }

  lemma FirstMoves(s: State, e: Event)
    requires AllFirst(s) && Possible(s, e) && !e.Again? && !e.Arrive? && !e.Commit?
    ensures AllFirst(Next(s, e))
  {
  }

  /** As long as no upload is completed by two requests at once, no commit clashes, whatever else overlaps. */
  lemma {:induction false} SingleCompletesNeverClash(s: State, run: seq<Event>)
    requires Inv(s) && AllFirst(s) && PossibleRun(s, run) && NoneAgain(run)
    ensures NoClash(s, run)
    decreases |run|
  {
    hide Inv, Next, Possible, Clashes, AllFirst;
    if run != [] {
      assert run[0] in run;
      FirstStays(s, run[0]);
      NextKeeps(s, run[0]);
      SingleCompletesNeverClash(Next(s, run[0]), run[1..]);
    }
  }

  predicate NoStrikes(run: seq<Event>) {
    forall e | e in run :: !e.Strike?
  }

  lemma StruckBefore(s: State, e: Event)
    requires Possible(s, e) && !e.Strike?
    ensures Next(s, e).struck.Keys <= s.struck.Keys
  {
  }

  lemma {:induction false} NothingStruck(s: State, run: seq<Event>)
    requires PossibleRun(s, run) && NoStrikes(run) && s.struck == map[]
    ensures After(s, run).struck == map[]
    decreases |run|
  {
    hide Possible, Next;
    if run != [] {
      assert run[0] in run;
      assert Next(s, run[0]).struck == map[] by { StruckBefore(s, run[0]); }
      NothingStruck(Next(s, run[0]), run[1..]);
    }
  }

  /** With no DELETE and no upload completed twice, every message of every row is live in every interleaving. */
  lemma WritesStayLive(run: seq<Event>, k: O.ObjectKey)
    requires PossibleRun(INIT, run) && NoneAgain(run) && NoStrikes(run)
    ensures RowOf(After(INIT, run), k) <= After(INIT, run).live
  {
    hide Next, Possible, Clashes;
    InitInv();
    assert AllFirst(INIT);
    SingleCompletesNeverClash(INIT, run);
    NothingStruck(INIT, run);
    forall m | m in RowOf(After(INIT, run), k)
      ensures m in After(INIT, run).live
    {
      if m !in After(INIT, run).live {
        RowsStayLive(run, k, m);
      }
    }
  }
}

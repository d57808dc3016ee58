/** What overlapping writes and deletes of one key leave behind in the channel. */
module ConcurrentLeaks {
  import O = Ownership
  import opened ConcurrentPut
  // Leaks

  function Rows(s: State): set<nat> {
    set k, m | k in s.rows && m in s.rows[k] :: m
  }

  /** The messages of pending writes and of uploads. */
  function KeptMessages(s: State): set<nat> {
    set r, m | r in s.reqs && Keeps(s.reqs[r]) && m in s.reqs[r].mine :: m
  }

  /** Messages of uploads that no Complete has finished: part rows reference them. */
  function InUploads(s: State): set<nat> {
    (set r, m | r in s.reqs && s.reqs[r].origin.kind.Assemble? && m in s.reqs[r].mine :: m) - s.placed
  }

  predicate Quiet(s: State) {
    forall r | r in s.reqs :: s.reqs[r].phase.Finished? || s.reqs[r].phase.Undropped?
  }

  /** Batch deletion deletes everything it is given. */
  predicate DeletesAll(s: State, e: Event)
    requires Possible(s, e)
  {
    match e
    case Reap(r, gone) => gone == s.reqs[r].phase.saw
    case Cleanup(r, gone) => gone == s.reqs[r].mine
    case Strike(r, gone) => gone == s.reqs[r].phase.saw
    case _ => true
  }

  predicate RunDeletesAll(s: State, run: seq<Event>)
    requires PossibleRun(s, run)
    decreases |run|
  {
    run == [] || (DeletesAll(s, run[0]) && RunDeletesAll(Next(s, run[0]), run[1..]))
  }

  /** Live is what is not yet in a row, or was in one and is not reaped; the doomed are reaped or about to be. */
  ghost predicate Counted(s: State) {
    && s.live == (KeptMessages(s) - s.placed) + (s.placed - s.reaped)
    && s.reaped <= s.doomed
    && (forall m | m in s.doomed && m !in s.reaped :: AboutToGo(s, m))
  }

  ghost predicate AboutToGo(s: State, m: nat) {
    exists r :: r in s.reqs && s.reqs[r].phase.Committed? && m in s.reqs[r].phase.saw
  }

  /** A request that moves on gives up at most its own messages. */
  lemma KeptAfter(s: State, t: State, r: nat)
    requires OwnersOk(s) && r in s.reqs && r in t.reqs && t.reqs == s.reqs[r := s.reqs[r].(phase := t.reqs[r].phase)]
    requires Pending(t.reqs[r]) ==> Pending(s.reqs[r])
    ensures KeptMessages(t) == KeptMessages(s) - (if Keeps(s.reqs[r]) && !Keeps(t.reqs[r]) then s.reqs[r].mine else {})
  {
    var gone := if Keeps(s.reqs[r]) && !Keeps(t.reqs[r]) then s.reqs[r].mine else {};
    forall m | m in KeptMessages(s) && m !in gone
      ensures m in KeptMessages(t)
    {
      var q :| q in s.reqs && Keeps(s.reqs[q]) && m in s.reqs[q].mine;
      assert q in t.reqs && Keeps(t.reqs[q]);
    }
    forall m | m in KeptMessages(t)
      ensures m in KeptMessages(s) && m !in gone
    {
      var q :| q in t.reqs && Keeps(t.reqs[q]) && m in t.reqs[q].mine;
      assert q in s.reqs && Keeps(s.reqs[q]) && m in s.reqs[q].mine;
      if m in gone && q != r {
        MineIsOwn(s, r, q);
      }
    }
  }

  lemma MineKept(s: State, r: nat)
    requires r in s.reqs && Keeps(s.reqs[r])
    ensures s.reqs[r].mine <= KeptMessages(s)
  {
  }

  /** A request that is not the one that moved is still about to reap what it saw. */
  lemma StillGoing(s: State, t: State, r: nat)
    requires forall q | q in s.reqs && q != r :: q in t.reqs && t.reqs[q] == s.reqs[q]
    requires r in s.reqs ==> !s.reqs[r].phase.Committed?
    ensures forall m | AboutToGo(s, m) :: AboutToGo(t, m)
  {
    forall m | AboutToGo(s, m)
      ensures AboutToGo(t, m)
    {
      var q :| q in s.reqs && s.reqs[q].phase.Committed? && m in s.reqs[q].phase.saw;
      assert q in t.reqs && t.reqs[q] == s.reqs[q];
    }
  }

  lemma ArriveCounts(s: State, e: Event)
    requires Inv(s) && Counted(s) && Possible(s, e) && e.Arrive?
    ensures Counted(Next(s, e))
  {
    hide RowOk, RequestOk, OwnersOk;
    var t := Next(s, e);
    assert KeptMessages(t) == KeptMessages(s) + e.mine by {
      assert t.reqs[e.r].mine == e.mine && (e.mine != {} ==> Keeps(t.reqs[e.r]));
      forall m | m in KeptMessages(s)
        ensures m in KeptMessages(t)
      {
        var q :| q in s.reqs && Keeps(s.reqs[q]) && m in s.reqs[q].mine;
        assert t.reqs[q] == s.reqs[q];
      }
    }
    StillGoing(s, t, e.r);
    hide KeptMessages, AboutToGo, Keeps;
    assert e.mine !! s.placed;
  }

  lemma AgainCounts(s: State, e: Event)
    requires Inv(s) && Counted(s) && Possible(s, e) && e.Again?
    ensures Counted(Next(s, e))
  {
    hide RowOk, RequestOk, OwnersOk;
    var t := Next(s, e);
    assert KeptMessages(t) == KeptMessages(s) by {
      MineKept(s, e.first);
      forall m | m in KeptMessages(s)
        ensures m in KeptMessages(t)
      {
        var q :| q in s.reqs && Keeps(s.reqs[q]) && m in s.reqs[q].mine;
        assert t.reqs[q] == s.reqs[q];
      }
    }
    StillGoing(s, t, e.r);
  }

  lemma NextCounts(s: State, e: Event)
    requires Inv(s) && Counted(s) && Possible(s, e) && DeletesAll(s, e) && !Clashes(s, e)
    ensures Counted(Next(s, e))
  {
    hide Inv, Next, Counted, Clashes;
    match e
    case Arrive(_, _, _, _) => ArriveCounts(s, e);
    case Again(_, _) => AgainCounts(s, e);
    case Commit(_) => CommitCounts(s, e);
    case Reap(_, _) => ReapCounts(s, e);
    case Cleanup(_, _) => CleanupCounts(s, e);
    case Strike(_, _) => StrikeCounts(s, e);
    case _ => QuietCounts(s, e);
  }

  lemma QuietCounts(s: State, e: Event)
    requires Inv(s) && Counted(s) && Possible(s, e) && (e.ReadOld? || e.Refuse? || e.Drop? || e.FailDrop?)
    ensures Counted(Next(s, e))
  {
    hide RowOk, RequestOk, KeptMessages, AboutToGo;
    assert e.Drop? || e.FailDrop? ==> !Pending(s.reqs[e.r]);
    KeptAfter(s, Next(s, e), e.r);
    StillGoing(s, Next(s, e), e.r);
  }

  lemma CommitCounts(s: State, e: Event)
    requires Inv(s) && Counted(s) && Possible(s, e) && e.Commit? && !Clashes(s, e)
    ensures Counted(Next(s, e))
  {
    var t, q := Next(s, e), s.reqs[e.r];
    assert forall m | m in q.phase.saw :: AboutToGo(t, m) by {
      assert t.reqs[e.r].phase.Committed? && t.reqs[e.r].phase.saw == q.phase.saw;
    }
    KeptAfter(s, t, e.r);
    StillGoing(s, t, e.r);
    MineKept(s, e.r);
    hide KeptMessages, AboutToGo, Inv;
  }

  lemma ReapCounts(s: State, e: Event)
    requires Inv(s) && Counted(s) && Possible(s, e) && e.Reap? && DeletesAll(s, e)
    ensures Counted(Next(s, e))
  {
    hide RowOk;
    var t := Next(s, e);
    assert RequestOk(s, s.reqs[e.r]);
    hide RequestOk;
    KeptAfter(s, t, e.r);
    forall m | m in t.doomed && m !in t.reaped
      ensures AboutToGo(t, m)
    {
      assert AboutToGo(s, m);
      var q :| q in s.reqs && s.reqs[q].phase.Committed? && m in s.reqs[q].phase.saw;
      assert q != e.r && t.reqs[q] == s.reqs[q];
    }
    assert e.gone <= s.doomed <= s.placed;
    hide KeptMessages, AboutToGo, Inv;
  }

  lemma CleanupCounts(s: State, e: Event)
    requires Inv(s) && Counted(s) && Possible(s, e) && e.Cleanup? && DeletesAll(s, e)
    ensures Counted(Next(s, e))
  {
    var t := Next(s, e);
    assert RequestOk(s, s.reqs[e.r]);
    KeptAfter(s, t, e.r);
    MineKept(s, e.r);
    StillGoing(s, t, e.r);
    assert e.gone !! s.placed;
    hide KeptMessages, AboutToGo, Inv;
  }

  lemma StrikeCounts(s: State, e: Event)
    requires Inv(s) && Counted(s) && Possible(s, e) && e.Strike? && DeletesAll(s, e)
    ensures Counted(Next(s, e))
  {
    var t := Next(s, e);
    assert RequestOk(s, s.reqs[e.r]);
    assert e.gone <= s.placed;
    KeptAfter(s, t, e.r);
    StillGoing(s, t, e.r);
    hide KeptMessages, AboutToGo, Inv;
  }

  lemma {:induction false} RunCounts(s: State, run: seq<Event>)
    requires Inv(s) && Counted(s) && PossibleRun(s, run) && NoClash(s, run) && RunDeletesAll(s, run)
    ensures Counted(After(s, run)) && Inv(After(s, run))
    decreases |run|
  {
    hide Inv, Next, Possible, Counted, DeletesAll, Clashes;
    if run != [] {
      NextKeeps(s, run[0]);
      NextCounts(s, run[0]);
      RunCounts(Next(s, run[0]), run[1..]);
    }
  }

  /** What was once current, has been superseded or dropped, and was read by no request that then reaped it. */
  function Leaked(s: State): set<nat> {
    s.placed - s.doomed - Rows(s)
  }

  /**
   Once all requests are done and deletions succeed, what is live is what part rows reference, what object rows
   reference and no DELETE has deleted, and exactly the leak. If every DELETE dropped its row, no row is dangling.
   */
  lemma LeakExactly(run: seq<Event>)
    requires PossibleRun(INIT, run) && NoClash(INIT, run) && RunDeletesAll(INIT, run) && Quiet(After(INIT, run))
    ensures
      var s := After(INIT, run);
      && s.live == InUploads(s) + (Rows(s) - s.doomed) + Leaked(s)
      && InUploads(s) !! Rows(s) && Leaked(s) !! Rows(s) && Leaked(s) !! InUploads(s)
      && ((forall r | r in s.reqs :: s.reqs[r].phase.Finished?) ==> Rows(s) <= s.live)
  {
    hide Next, Possible, DeletesAll, Clashes;
    var s := After(INIT, run);
    InitInv();
    assert Counted(INIT);
    RunCounts(INIT, run);
    QuietMeans(s);
    RowsPlaced(s);
    hide *;
    assert Rows(s) <= s.placed;
  }

  lemma RowsPlaced(s: State)
    requires Inv(s)
    ensures Rows(s) <= s.placed
    ensures (forall r | r in s.reqs :: s.reqs[r].phase.Finished?) ==> Rows(s) !! s.doomed
  {
    forall m | m in Rows(s)
      ensures m in s.placed && ((forall r | r in s.reqs :: s.reqs[r].phase.Finished?) ==> m !in s.doomed)
    {
      var k :| k in s.rows && m in s.rows[k];
      assert RowOk(s, k) && m in RowOf(s, k);
    }
  }

  lemma QuietMeans(s: State)
    requires Inv(s) && Counted(s) && Quiet(s)
    ensures s.live == InUploads(s) + (s.placed - s.doomed)
  {
    hide RowOk, RequestOk, OwnersOk;
    forall m | m in KeptMessages(s)
      ensures m in InUploads(s) + s.placed
    {
      var r :| r in s.reqs && Keeps(s.reqs[r]) && m in s.reqs[r].mine;
      assert s.reqs[r].origin.kind.Assemble?;
    }
    forall m | m in InUploads(s)
      ensures m in KeptMessages(s)
    {
      var r :| r in s.reqs && s.reqs[r].origin.kind.Assemble? && m in s.reqs[r].mine;
      assert Keeps(s.reqs[r]);
    }
    assert forall m | m in s.doomed && m !in s.reaped :: !AboutToGo(s, m);
    assert s.doomed == s.reaped;
  }

  lemma RowsReplaced(s: State, t: State, k: O.ObjectKey, mine: set<nat>)
    requires t.rows - {k} == s.rows - {k} && RowOf(t, k) == mine
    requires forall j | j in s.rows && j != k :: s.rows[j] !! RowOf(s, k)
    ensures Rows(t) == Rows(s) - RowOf(s, k) + mine
  {
    forall j | j != k
      ensures RowOf(t, j) == RowOf(s, j)
    {
      assert j in t.rows <==> j in t.rows - {k};
      assert j in s.rows <==> j in s.rows - {k};
      assert j in t.rows ==> (t.rows - {k})[j] == (s.rows - {k})[j];
    }
    forall m | m in Rows(s) - RowOf(s, k) + mine
      ensures m in Rows(t)
    {
      if m in mine {
        assert k in t.rows;
      } else {
        var j :| j in s.rows && m in s.rows[j];
        assert j != k && RowOf(t, j) == s.rows[j];
      }
    }
    forall m | m in Rows(t)
      ensures m in Rows(s) - RowOf(s, k) + mine
    {
      var j :| j in t.rows && m in t.rows[j];
      if j != k {
        assert RowOf(s, j) == t.rows[j];
      }
    }
  }

  lemma RowsDiffer(s: State, j: O.ObjectKey, k: O.ObjectKey)
    requires Inv(s) && j != k
    ensures RowOf(s, j) !! RowOf(s, k)
  {
    assert RowOk(s, j) && RowOk(s, k);
  }

  /** A commit leaks exactly what it supersedes without having read it, and rescues what it read or writes again. */
  lemma CommitLeaks(s: State, r: nat)
    requires Inv(s) && Possible(s, Commit(r))
    ensures
      var q := s.reqs[r];
      Leaked(Next(s, Commit(r))) == (Leaked(s) + (RowOf(s, q.origin.key) - s.doomed)) - q.phase.saw - q.mine
  {
    var q, t := s.reqs[r], Next(s, Commit(r));
    var k := q.origin.key;
    forall j | j in s.rows && j != k
      ensures s.rows[j] !! RowOf(s, k)
    {
      RowsDiffer(s, j, k);
    }
    RowsReplaced(s, t, k, q.mine);
    RowIsPlaced(s, k);
    hide Rows, Inv;
  }

  lemma RowIsPlaced(s: State, k: O.ObjectKey)
    requires Inv(s)
    ensures RowOf(s, k) <= s.placed && RowOf(s, k) <= Rows(s)
  {
    assert RowOk(s, k);
  }

  /** A DELETE leaks exactly what was written into the row since it read it: it removes a row it has not deleted. */
  lemma DropLeaks(s: State, r: nat)
    requires Inv(s) && Possible(s, Drop(r))
    ensures Leaked(Next(s, Drop(r))) == Leaked(s) + (RowOf(s, s.reqs[r].origin.key) - s.doomed)
  {
    var t := Next(s, Drop(r));
    var k := s.reqs[r].origin.key;
    forall j | j in s.rows && j != k
      ensures s.rows[j] !! RowOf(s, k)
    {
      RowsDiffer(s, j, k);
    }
    RowsReplaced(s, t, k, {});
    RowIsPlaced(s, k);
    hide Rows, Inv;
  }

  /** Each commit replaces, and each drop removes, the very row its request had read. */
  predicate ReadsCurrent(s: State, run: seq<Event>)
    requires PossibleRun(s, run)
    decreases |run|
  {
    run == [] || (HasReadRow(s, run[0]) && ReadsCurrent(Next(s, run[0]), run[1..]))
  }

  predicate HasReadRow(s: State, e: Event)
    requires Possible(s, e)
  {
    (e.Commit? || e.Drop?) ==> s.reqs[e.r].phase.saw == RowOf(s, s.reqs[e.r].origin.key)
  }

  lemma {:induction false} NoLeakIfCurrent(s: State, run: seq<Event>)
    requires Inv(s) && PossibleRun(s, run) && NoClash(s, run) && ReadsCurrent(s, run) && Leaked(s) == {}
    ensures Leaked(After(s, run)) == {}
    decreases |run|
  {
    hide Inv, Next, Possible, Leaked, Clashes, HasReadRow;
    if run != [] {
      NextKeeps(s, run[0]);
      LeakStep(s, run[0]);
      NoLeakIfCurrent(Next(s, run[0]), run[1..]);
    }
  }

  lemma LeakStep(s: State, e: Event)
    requires Inv(s) && Possible(s, e) && Leaked(s) == {} && HasReadRow(s, e)
    ensures Leaked(Next(s, e)) == {}
  {
    if e.Commit? {
      CommitLeaks(s, e.r);
    } else if e.Drop? {
      DropLeaks(s, e.r);
      assert RequestOk(s, s.reqs[e.r]);
    } else {
      assert Next(s, e).rows == s.rows;
    }
  }
}

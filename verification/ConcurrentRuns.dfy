/** Three runs of overlapping requests that go wrong, step by step. */
module ConcurrentRuns {
  import O = Ownership
  import opened ConcurrentPut
  import opened ConcurrentLeaks

  /** A step that deletes all it is given to delete. */
  predicate Links(s: State, e: Event, t: State) {
    Possible(s, e) && DeletesAll(s, e) && Next(s, e) == t
  }

  predicate Trace(states: seq<State>, run: seq<Event>) {
    |states| == |run| + 1 && forall i | 0 <= i < |run| :: Links(states[i], run[i], states[i + 1])
  }

  lemma {:induction false} TraceIsRun(states: seq<State>, run: seq<Event>)
    requires Trace(states, run)
    ensures PossibleRun(states[0], run) && RunDeletesAll(states[0], run) && After(states[0], run) == states[|run|]
    decreases |run|
  {
    hide Next, Possible, DeletesAll;
    if run != [] {
      assert Links(states[0], run[0], states[1]);
      TraceIsRun(states[1..], run[1..]);
    }
  }

  function Writer(r: nat, k: O.ObjectKey, phase: Phase): Request {
    Request(Origin(Write, r, k), {r}, phase)
  }

  function Completer(k: O.ObjectKey, phase: Phase): Request {
    Request(Origin(Assemble, 0, k), {0}, phase)
  }

  function Deleter(r: nat, k: O.ObjectKey, phase: Phase): Request {
    Request(Origin(Remove, r, k), {}, phase)
  }

  /** A state in which nothing has been given up. */
  function Unreaped(rows: map<O.ObjectKey, set<nat>>, live: set<nat>, reqs: map<nat, Request>,
                    origins: map<nat, Origin>, placed: set<nat>): State {
    State(rows, live, reqs, origins, placed, {}, {}, map[])
  }

  // A lost update

  function LostState(k: O.ObjectKey, i: nat): State {
    var o := map[0 := Origin(Write, 0, k), 1 := Origin(Write, 1, k)];
    match i
    case 0 => INIT
    case 1 => Unreaped(map[], {0}, map[0 := Writer(0, k, Ready)], map[0 := Origin(Write, 0, k)], {})
    case 2 => Unreaped(map[], {0, 1}, map[0 := Writer(0, k, Ready), 1 := Writer(1, k, Ready)], o, {})
    case 3 => Unreaped(map[], {0, 1}, map[0 := Writer(0, k, OldRead({})), 1 := Writer(1, k, Ready)], o, {})
    case 4 => Unreaped(map[], {0, 1}, map[0 := Writer(0, k, OldRead({})), 1 := Writer(1, k, OldRead({}))], o, {})
    case 5 => Unreaped(map[k := {0}], {0, 1}, map[0 := Writer(0, k, Committed({})),
              1 := Writer(1, k, OldRead({}))], o, {0})
    case 6 => Unreaped(map[k := {1}], {0, 1}, map[0 := Writer(0, k, Committed({})),
              1 := Writer(1, k, Committed({}))], o, {0, 1})
    case 7 => Unreaped(map[k := {1}], {0, 1}, map[0 := Writer(0, k, Finished), 1 := Writer(1, k, Committed({}))],
              o, {0, 1})
    case _ => Unreaped(map[k := {1}], {0, 1}, map[0 := Writer(0, k, Finished), 1 := Writer(1, k, Finished)], o, {0, 1})
  }

  function LostEvent(k: O.ObjectKey, i: nat): Event {
    match i
    case 0 => Arrive(0, Write, k, {0})
    case 1 => Arrive(1, Write, k, {1})
    case 2 => ReadOld(0, {})
    case 3 => ReadOld(1, {})
    case 4 => Commit(0)
    case 5 => Commit(1)
    case 6 => Reap(0, {})
    case _ => Reap(1, {})
  }

  lemma LostSteps1(k: O.ObjectKey)
    ensures Links(LostState(k, 0), LostEvent(k, 0), LostState(k, 1))
  {
  }

  lemma LostSteps2(k: O.ObjectKey)
    ensures Links(LostState(k, 1), LostEvent(k, 1), LostState(k, 2))
  {
  }

  lemma LostSteps3(k: O.ObjectKey)
    ensures Links(LostState(k, 2), LostEvent(k, 2), LostState(k, 3))
    ensures Links(LostState(k, 3), LostEvent(k, 3), LostState(k, 4))
  {
  }

  lemma LostSteps4(k: O.ObjectKey)
    ensures Links(LostState(k, 4), LostEvent(k, 4), LostState(k, 5))
  {
  }

  lemma LostSteps5(k: O.ObjectKey)
    ensures Links(LostState(k, 5), LostEvent(k, 5), LostState(k, 6))
  {
  }

  lemma LostSteps6(k: O.ObjectKey)
    ensures Links(LostState(k, 6), LostEvent(k, 6), LostState(k, 7))
  {
  }

  lemma LostSteps7(k: O.ObjectKey)
    ensures Links(LostState(k, 7), LostEvent(k, 7), LostState(k, 8))
  {
  }

  lemma LostLast(k: O.ObjectKey)
    ensures LostState(k, 0) == INIT
    ensures var s := LostState(k, 8); Quiet(s) && Leaked(s) == {0}
  {
    var s := LostState(k, 8);
    assert RowOf(s, k) == {1};
    assert Rows(s) == {1};
  }

  /** Two PUTs of one key that both read the row before either commits: the first one's messages are never reaped. */
  lemma LostUpdateLeaks(k: O.ObjectKey)
    ensures
      var run := seq(8, i requires 0 <= i => LostEvent(k, i));
      && PossibleRun(INIT, run) && RunDeletesAll(INIT, run)
      && Quiet(After(INIT, run)) && Leaked(After(INIT, run)) == {0}
  {
    LostLast(k);
    LostSteps1(k);
    LostSteps2(k);
    LostSteps3(k);
    LostSteps4(k);
    LostSteps5(k);
    LostSteps6(k);
    LostSteps7(k);
    hide LostState, LostEvent, Links, Possible, PossibleRun, RunDeletesAll, After, Quiet, Leaked;
    var run := seq(8, i requires 0 <= i => LostEvent(k, i));
    var states := seq(9, i requires 0 <= i => LostState(k, i));
    TraceIsRun(states, run);
  }

  // A DELETE that overlaps a PUT

  function DroppedState(k: O.ObjectKey, i: nat): State {
    var o := map[0 := Origin(Write, 0, k), 2 := Origin(Write, 2, k)];
    match i
    case 0 => INIT
    case 1 => Unreaped(map[], {0}, map[0 := Writer(0, k, Ready)], map[0 := Origin(Write, 0, k)], {})
    case 2 => Unreaped(map[], {0}, map[0 := Writer(0, k, OldRead({}))], map[0 := Origin(Write, 0, k)], {})
    case 3 => Unreaped(map[k := {0}], {0}, map[0 := Writer(0, k, Committed({}))], map[0 := Origin(Write, 0, k)], {0})
    case 4 => Unreaped(map[k := {0}], {0}, map[0 := Writer(0, k, Finished)], map[0 := Origin(Write, 0, k)], {0})
    case 5 => Unreaped(map[k := {0}], {0}, map[0 := Writer(0, k, Finished), 1 := Deleter(1, k, Ready)],
              map[0 := Origin(Write, 0, k)], {0})
    case 6 => Unreaped(map[k := {0}], {0}, map[0 := Writer(0, k, Finished), 1 := Deleter(1, k, OldRead({0}))],
              map[0 := Origin(Write, 0, k)], {0})
    case 7 => Unreaped(map[k := {0}], {0, 2}, map[0 := Writer(0, k, Finished), 1 := Deleter(1, k, OldRead({0})),
              2 := Writer(2, k, Ready)], o, {0})
    case 8 => Unreaped(map[k := {0}], {0, 2}, map[0 := Writer(0, k, Finished), 1 := Deleter(1, k, OldRead({0})),
              2 := Writer(2, k, OldRead({0}))], o, {0})
    case 9 => State(map[k := {2}], {0, 2}, map[0 := Writer(0, k, Finished), 1 := Deleter(1, k, OldRead({0})),
              2 := Writer(2, k, Committed({0}))], o, {0, 2}, {0}, {}, map[])
    case 10 => State(map[k := {2}], {2}, map[0 := Writer(0, k, Finished), 1 := Deleter(1, k, OldRead({0})),
               2 := Writer(2, k, Finished)], o, {0, 2}, {0}, {0}, map[])
    case 11 => State(map[k := {2}], {2}, map[0 := Writer(0, k, Finished), 1 := Deleter(1, k, Dropping({0})),
               2 := Writer(2, k, Finished)], o, {0, 2}, {0}, {0}, map[0 := 1])
    case _ => State(map[], {2}, map[0 := Writer(0, k, Finished), 1 := Deleter(1, k, Finished),
              2 := Writer(2, k, Finished)], o, {0, 2}, {0}, {0}, map[0 := 1])
  }

  function DroppedEvent(k: O.ObjectKey, i: nat): Event {
    match i
    case 0 => Arrive(0, Write, k, {0})
    case 1 => ReadOld(0, {})
    case 2 => Commit(0)
    case 3 => Reap(0, {})
    case 4 => Arrive(1, Remove, k, {})
    case 5 => ReadOld(1, {0})
    case 6 => Arrive(2, Write, k, {2})
    case 7 => ReadOld(2, {0})
    case 8 => Commit(2)
    case 9 => Reap(2, {0})
    case 10 => Strike(1, {0})
    case _ => Drop(1)
  }

  lemma DroppedSteps1(k: O.ObjectKey)
    ensures Links(DroppedState(k, 0), DroppedEvent(k, 0), DroppedState(k, 1))
    ensures Links(DroppedState(k, 1), DroppedEvent(k, 1), DroppedState(k, 2))
  {
  }

  lemma DroppedSteps2(k: O.ObjectKey)
    ensures Links(DroppedState(k, 2), DroppedEvent(k, 2), DroppedState(k, 3))
    ensures Links(DroppedState(k, 3), DroppedEvent(k, 3), DroppedState(k, 4))
  {
  }

  lemma DroppedSteps3(k: O.ObjectKey)
    ensures Links(DroppedState(k, 4), DroppedEvent(k, 4), DroppedState(k, 5))
    ensures Links(DroppedState(k, 5), DroppedEvent(k, 5), DroppedState(k, 6))
  {
  }

  lemma DroppedSteps4(k: O.ObjectKey)
    ensures Links(DroppedState(k, 6), DroppedEvent(k, 6), DroppedState(k, 7))
  {
  }

  lemma DroppedSteps5(k: O.ObjectKey)
    ensures Links(DroppedState(k, 7), DroppedEvent(k, 7), DroppedState(k, 8))
  {
  }

  lemma DroppedSteps6(k: O.ObjectKey)
    ensures Links(DroppedState(k, 8), DroppedEvent(k, 8), DroppedState(k, 9))
  {
  }

  lemma DroppedSteps7(k: O.ObjectKey)
    ensures Links(DroppedState(k, 9), DroppedEvent(k, 9), DroppedState(k, 10))
  {
  }

  lemma DroppedSteps8(k: O.ObjectKey)
    ensures Links(DroppedState(k, 10), DroppedEvent(k, 10), DroppedState(k, 11))
  {
    var s, t := DroppedState(k, 10), DroppedState(k, 11);
    assert s.reqs[1] == Deleter(1, k, OldRead({0}));
    assert t.reqs == s.reqs[1 := Deleter(1, k, Dropping({0}))];
    assert t.struck == s.struck[0 := 1];
    assert t == s.(reqs := t.reqs, struck := t.struck) && 0 !in s.live && s.doomed == s.reaped == {0};
    hide DroppedState;
    StrikeLinks(s, 1, k, 0);
  }

  /** A DELETE that is given one message which is gone already. */
  lemma StrikeLinks(s: State, r: nat, k: O.ObjectKey, m: nat)
    requires r in s.reqs && s.reqs[r] == Deleter(r, k, OldRead({m}))
    requires m !in s.live && m in s.doomed && m in s.reaped
    ensures
      Links(s, Strike(r, {m}), s.(reqs := s.reqs[r := Deleter(r, k, Dropping({m}))], struck := s.struck[m := r]))
  {
    var saw := {m};
    assert s.live - saw == s.live && s.doomed + saw == s.doomed && s.reaped + saw == s.reaped;
    assert s.struck + (map n | n in saw :: r) == s.struck[m := r];
  }

  lemma DroppedSteps9(k: O.ObjectKey)
    ensures Links(DroppedState(k, 11), DroppedEvent(k, 11), DroppedState(k, 12))
  {
  }

  lemma DroppedLast(k: O.ObjectKey)
    ensures DroppedState(k, 0) == INIT
    ensures var s := DroppedState(k, 12); Quiet(s) && k !in s.rows && s.live == {2} && Leaked(s) == {2}
  {
    var s := DroppedState(k, 12);
    assert Rows(s) == {};
  }

  /** A PUT commits between a DELETE's read and its drop: the DELETE removes the new row, whose messages stay behind. */
  lemma DeleteLeaksLaterWrite(k: O.ObjectKey)
    ensures
      var run := seq(12, i requires 0 <= i => DroppedEvent(k, i));
      && PossibleRun(INIT, run) && RunDeletesAll(INIT, run)
      && var s := After(INIT, run); Quiet(s) && k !in s.rows && s.live == {2} && Leaked(s) == {2}
  {
    DroppedLast(k);
    DroppedSteps1(k);
    DroppedSteps2(k);
    DroppedSteps3(k);
    DroppedSteps4(k);
    DroppedSteps5(k);
    DroppedSteps6(k);
    DroppedSteps7(k);
    DroppedSteps8(k);
    DroppedSteps9(k);
    hide DroppedState, DroppedEvent, Links, Possible, PossibleRun, RunDeletesAll, After, Quiet, Leaked;
    var run := seq(12, i requires 0 <= i => DroppedEvent(k, i));
    var states := seq(13, i requires 0 <= i => DroppedState(k, i));
    TraceIsRun(states, run);
  }

  // Two Completes of one upload

  function TwiceState(k: O.ObjectKey, i: nat): State {
    var o := map[0 := Origin(Assemble, 0, k)];
    match i
    case 0 => INIT
    case 1 => Unreaped(map[], {0}, map[0 := Completer(k, Ready)], o, {})
    case 2 => Unreaped(map[], {0}, map[0 := Completer(k, Ready), 1 := Completer(k, Ready)], o, {})
    case 3 => Unreaped(map[], {0}, map[0 := Completer(k, OldRead({})), 1 := Completer(k, Ready)], o, {})
    case 4 => Unreaped(map[k := {0}], {0}, map[0 := Completer(k, Committed({})), 1 := Completer(k, Ready)], o, {0})
    case 5 => Unreaped(map[k := {0}], {0}, map[0 := Completer(k, Finished), 1 := Completer(k, Ready)], o, {0})
    case 6 => Unreaped(map[k := {0}], {0}, map[0 := Completer(k, Finished), 1 := Completer(k, OldRead({0}))], o, {0})
    case 7 => State(map[k := {0}], {0}, map[0 := Completer(k, Finished), 1 := Completer(k, Committed({0}))],
              o, {0}, {0}, {}, map[])
    case _ => State(map[k := {0}], {}, map[0 := Completer(k, Finished), 1 := Completer(k, Finished)],
              o, {0}, {0}, {0}, map[])
  }

  function TwiceEvent(k: O.ObjectKey, i: nat): Event {
    match i
    case 0 => Arrive(0, Assemble, k, {0})
    case 1 => Again(1, 0)
    case 2 => ReadOld(0, {})
    case 3 => Commit(0)
    case 4 => Reap(0, {})
    case 5 => ReadOld(1, {0})
    case 6 => Commit(1)
    case _ => Reap(1, {0})
  }

  lemma TwiceSteps1(k: O.ObjectKey)
    ensures Links(TwiceState(k, 0), TwiceEvent(k, 0), TwiceState(k, 1))
    ensures Links(TwiceState(k, 1), TwiceEvent(k, 1), TwiceState(k, 2))
  {
  }

  lemma TwiceSteps2(k: O.ObjectKey)
    ensures Links(TwiceState(k, 2), TwiceEvent(k, 2), TwiceState(k, 3))
    ensures Links(TwiceState(k, 3), TwiceEvent(k, 3), TwiceState(k, 4))
  {
  }

  lemma TwiceSteps3(k: O.ObjectKey)
    ensures Links(TwiceState(k, 4), TwiceEvent(k, 4), TwiceState(k, 5))
  {
  }

  lemma TwiceSteps4(k: O.ObjectKey)
    ensures Links(TwiceState(k, 5), TwiceEvent(k, 5), TwiceState(k, 6))
  {
  }

  lemma TwiceSteps5(k: O.ObjectKey)
    ensures Links(TwiceState(k, 6), TwiceEvent(k, 6), TwiceState(k, 7))
  {
  }

  lemma TwiceSteps6(k: O.ObjectKey)
    ensures Links(TwiceState(k, 7), TwiceEvent(k, 7), TwiceState(k, 8))
  {
  }

  lemma TwiceLast(k: O.ObjectKey)
    ensures TwiceState(k, 0) == INIT
    ensures var s := TwiceState(k, 8); Quiet(s) && RowOf(s, k) == {0} && s.live == {} && s.struck == map[]
  {
    var s := TwiceState(k, 8);
  }

  /** Two Completes of one upload: the second reads the row the first wrote and reaps the messages it writes again. */
  lemma CompletingTwiceLosesData(k: O.ObjectKey)
    ensures
      var run := seq(8, i requires 0 <= i => TwiceEvent(k, i));
      && PossibleRun(INIT, run) && RunDeletesAll(INIT, run)
      && !NoClash(INIT, run)
      && var s := After(INIT, run); Quiet(s) && RowOf(s, k) == {0} && s.live == {}
  {
    TwiceLast(k);
    TwiceSteps1(k);
    TwiceSteps2(k);
    TwiceSteps3(k);
    TwiceSteps4(k);
    TwiceSteps5(k);
    TwiceSteps6(k);
    hide TwiceState, TwiceEvent, Links, Possible, PossibleRun, RunDeletesAll, After, Quiet, Leaked;
    var run := seq(8, i requires 0 <= i => TwiceEvent(k, i));
    var states := seq(9, i requires 0 <= i => TwiceState(k, i));
    TraceIsRun(states, run);
    if NoClash(INIT, run) {
      RowsStayLive(run, k, 0);
      assert false;
    }
  }
}

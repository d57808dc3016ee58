/** Batched deletion: which bot gets which message ids, and in how many calls. */
module DeleteBatches {
  import opened ByteStrings

  const DELETE_BATCH_SIZE: nat := 100

  datatype Ref = Ref(msg: nat, botIndex: int)

  /** One `channels.deleteMessages` call, and whether the server took it. */
  datatype Call = Call(bot: nat, ids: seq<nat>, failed: bool)

  function Ids(refs: seq<Ref>): seq<nat> {
    seq(|refs|, i requires 0 <= i < |refs| => refs[i].msg)
  }

  function IdSet(ids: seq<nat>): set<nat> {
    set m | m in ids
  }

  predicate InPool(i: int, bots: nat) {
    0 <= i < bots
  }

  /** Number of references whose own bot is not in the pool; each takes one round-robin pick. */
  function Strays(refs: seq<Ref>, bots: nat): nat {
    if refs == [] then 0
    else Strays(refs[..|refs| - 1], bots) + (if InPool(refs[|refs| - 1].botIndex, bots) then 0 else 1)
  }

  /** The bot the last of `refs` goes to when the round-robin counter starts at `picks`. */
  function Route(refs: seq<Ref>, bots: nat, picks: nat): nat
    requires refs != [] && 0 < bots
  {
    var last := refs[|refs| - 1];
    if InPool(last.botIndex, bots) then last.botIndex
    else (picks + Strays(refs[..|refs| - 1], bots)) % bots
  }

  /** The ids routed to bot `b`, in order. */
  function Routed(refs: seq<Ref>, bots: nat, picks: nat, b: nat): seq<nat>
    requires 0 < bots
  {
    if refs == [] then []
    else Routed(refs[..|refs| - 1], bots, picks, b)
         + (if Route(refs, bots, picks) == b then [refs[|refs| - 1].msg] else [])
  }

  /** What one more reference adds. */
  lemma RouteStep(refs: seq<Ref>, k: nat, bots: nat, picks: nat)
    requires k < |refs| && 0 < bots
    ensures Strays(refs[..k + 1], bots) == Strays(refs[..k], bots) + (if InPool(refs[k].botIndex, bots) then 0 else 1)
    ensures
      Route(refs[..k + 1], bots, picks)
      == if InPool(refs[k].botIndex, bots) then refs[k].botIndex else (picks + Strays(refs[..k], bots)) % bots
  {
    assert refs[..k + 1][..k] == refs[..k] && refs[..k + 1][k] == refs[k];
  }

  lemma RoutedStep(refs: seq<Ref>, k: nat, bots: nat, picks: nat, b: nat)
    requires k < |refs| && 0 < bots
    ensures
      Routed(refs[..k + 1], bots, picks, b)
      == if Route(refs[..k + 1], bots, picks) == b then Routed(refs[..k], bots, picks, b) + [refs[k].msg]
         else Routed(refs[..k], bots, picks, b)
  {
    hide Route;
    assert refs[..k + 1][..k] == refs[..k] && refs[..k + 1][k] == refs[k];
    assert Routed(refs[..k], bots, picks, b) + [] == Routed(refs[..k], bots, picks, b);
  }

  /** Everything the calls sent to bot `b`, in order. */
  function SentTo(calls: seq<Call>, b: nat): seq<nat> {
    if calls == [] then []
    else SentTo(calls[..|calls| - 1], b) + (if calls[|calls| - 1].bot == b then calls[|calls| - 1].ids else [])
  }

  function AllSent(calls: seq<Call>): seq<nat> {
    if calls == [] then [] else AllSent(calls[..|calls| - 1]) + calls[|calls| - 1].ids
  }

  /** What the calls that the server took removed. */
  function Removed(calls: seq<Call>): set<nat> {
    set c, m | c in calls && !c.failed && m in c.ids :: m
  }

  predicate WellSized(calls: seq<Call>) {
    forall c | c in calls :: 0 < |c.ids| <= 100
  }

  lemma {:induction false} SentToAppend(a: seq<Call>, b: seq<Call>, bot: nat)
    ensures SentTo(a + b, bot) == SentTo(a, bot) + SentTo(b, bot)
  {
    if b == [] {
      assert a + b == a;
    } else {
      assert (a + b)[..|a + b| - 1] == a + b[..|b| - 1];
      SentToAppend(a, b[..|b| - 1], bot);
    }
  }

  function Count(ids: seq<nat>, m: nat): nat {
    multiset(ids)[m]
  }

  lemma CountAppend(a: seq<nat>, b: seq<nat>, m: nat)
    ensures Count(a + b, m) == Count(a, m) + Count(b, m)
  {
  }

  /** How often the first `n` bots were sent `m`. */
  function SentCount(calls: seq<Call>, n: nat, m: nat): nat {
    if n == 0 then 0 else SentCount(calls, n - 1, m) + Count(SentTo(calls, n - 1), m)
  }

  lemma {:induction false} SentCountStep(calls: seq<Call>, n: nat, m: nat)
    requires calls != []
    ensures
      var c := calls[|calls| - 1];
      SentCount(calls, n, m) == SentCount(calls[..|calls| - 1], n, m) + (if c.bot < n then Count(c.ids, m) else 0)
  {
    hide Count;
    if n > 0 {
      SentCountStep(calls, n - 1, m);
      CountAppend(SentTo(calls[..|calls| - 1], n - 1), calls[|calls| - 1].ids, m);
      assert SentTo(calls[..|calls| - 1], n - 1) + [] == SentTo(calls[..|calls| - 1], n - 1);
    }
  }

  lemma CountNone(n: nat, m: nat)
    ensures SentCount([], n, m) == 0
  {
  }

  lemma {:induction false} SentCountIsAll(calls: seq<Call>, bots: nat, m: nat)
    requires forall c | c in calls :: c.bot < bots
    ensures SentCount(calls, bots, m) == Count(AllSent(calls), m)
  {
    if calls == [] {
      CountNone(bots, m);
    } else {
      var n := |calls| - 1;
      SentCountIsAll(calls[..n], bots, m);
      SentCountStep(calls, bots, m);
      CountAppend(AllSent(calls[..n]), calls[n].ids, m);
    }
  }

  function RoutedCount(refs: seq<Ref>, bots: nat, picks: nat, n: nat, m: nat): nat
    requires 0 < bots
  {
    if n == 0 then 0 else RoutedCount(refs, bots, picks, n - 1, m) + Count(Routed(refs, bots, picks, n - 1), m)
  }

  lemma {:induction false} RoutedCountStep(refs: seq<Ref>, bots: nat, picks: nat, n: nat, m: nat)
    requires 0 < bots && refs != []
    ensures
      var front, last := refs[..|refs| - 1], refs[|refs| - 1];
      RoutedCount(refs, bots, picks, n, m)
      == RoutedCount(front, bots, picks, n, m) + (if Route(refs, bots, picks) < n then Count([last.msg], m) else 0)
  {
    hide Count, Route;
    if n > 0 {
      RoutedCountStep(refs, bots, picks, n - 1, m);
      var front, last := refs[..|refs| - 1], refs[|refs| - 1];
      CountAppend(Routed(front, bots, picks, n - 1), [last.msg], m);
      assert Routed(front, bots, picks, n - 1) + [] == Routed(front, bots, picks, n - 1);
    }
  }

  lemma RoutedCountNone(bots: nat, picks: nat, n: nat, m: nat)
    requires 0 < bots
    ensures RoutedCount([], bots, picks, n, m) == 0 && Count(Ids([]), m) == 0
  {
  }

  lemma IdsSnoc(refs: seq<Ref>, m: nat)
    requires refs != []
    ensures Count(Ids(refs), m) == Count(Ids(refs[..|refs| - 1]), m) + Count([refs[|refs| - 1].msg], m)
  {
    hide Count;
    var n := |refs| - 1;
    assert Ids(refs) == Ids(refs[..n]) + [refs[n].msg];
    CountAppend(Ids(refs[..n]), [refs[n].msg], m);
  }

  lemma RouteInPool(refs: seq<Ref>, bots: nat, picks: nat)
    requires refs != [] && 0 < bots
    ensures Route(refs, bots, picks) < bots
  {
  }

  lemma {:induction false} RoutedCountIsAll(refs: seq<Ref>, bots: nat, picks: nat, m: nat)
    requires 0 < bots
    ensures RoutedCount(refs, bots, picks, bots, m) == Count(Ids(refs), m)
  {
    hide Count, Ids, Routed, Route, RoutedCount;
    if refs == [] {
      RoutedCountNone(bots, picks, bots, m);
    } else {
      RoutedCountIsAll(refs[..|refs| - 1], bots, picks, m);
      RoutedCountStep(refs, bots, picks, bots, m);
      RouteInPool(refs, bots, picks);
      IdsSnoc(refs, m);
    }
  }

  lemma {:induction false} SameCounts(calls: seq<Call>, refs: seq<Ref>, bots: nat, picks: nat, n: nat, m: nat)
    requires 0 < bots && n <= bots
    requires forall b: nat | b < bots :: SentTo(calls, b) == Routed(refs, bots, picks, b)
    ensures SentCount(calls, n, m) == RoutedCount(refs, bots, picks, n, m)
  {
    if n > 0 {
      SameCounts(calls, refs, bots, picks, n - 1, m);
    }
  }

  /** When every bot was sent exactly what was routed to it, every reference was sent exactly once. */
  lemma EveryRefOnce(calls: seq<Call>, refs: seq<Ref>, bots: nat, picks: nat)
    requires 0 < bots && forall c | c in calls :: c.bot < bots
    requires forall b: nat | b < bots :: SentTo(calls, b) == Routed(refs, bots, picks, b)
    ensures multiset(AllSent(calls)) == multiset(Ids(refs))
  {
    var sent, asked := multiset(AllSent(calls)), multiset(Ids(refs));
    forall m: nat
      ensures sent[m] == asked[m]
    {
      SentCountIsAll(calls, bots, m);
      RoutedCountIsAll(refs, bots, picks, m);
      SameCounts(calls, refs, bots, picks, bots, m);
    }
    assert sent == asked;
  }

  /** A reference whose bot is in the pool is sent to that bot. */
  lemma {:induction false} OwnBotDeletes(refs: seq<Ref>, bots: nat, picks: nat, i: nat)
    requires 0 < bots && i < |refs| && 0 <= refs[i].botIndex < bots
    ensures refs[i].msg in Routed(refs, bots, picks, refs[i].botIndex)
    decreases |refs|
  {
    var n := |refs| - 1;
    if i < n {
      OwnBotDeletes(refs[..n], bots, picks, i);
    }
  }

  /** The others take turns: the bot of the j-th of them is `j` picks on. */
  lemma {:induction false} StraysTakeTurns(refs: seq<Ref>, bots: nat, picks: nat, i: nat)
    requires 0 < bots && i < |refs| && !(0 <= refs[i].botIndex < bots)
    ensures refs[i].msg in Routed(refs, bots, picks, (picks + CountStrays(refs, bots, i)) % bots)
    decreases |refs|
  {
    var n := |refs| - 1;
    if i < n {
      StraysTakeTurns(refs[..n], bots, picks, i);
      StraysCounted(refs, bots, i);
      StraysCounted(refs[..n], bots, i);
      assert refs[..n][..i] == refs[..i];
    } else {
      StraysCounted(refs, bots, i);
    }
  }

  /** How many of the first `i` references have no bot in the pool. */
  function CountStrays(refs: seq<Ref>, bots: nat, i: nat): nat
    requires i <= |refs|
  {
    |set j | 0 <= j < i && !(0 <= refs[j].botIndex < bots)|
  }

  lemma {:induction false} StraysCounted(refs: seq<Ref>, bots: nat, i: nat)
    requires i <= |refs|
    ensures CountStrays(refs, bots, i) == Strays(refs[..i], bots)
  {
    var s := set j | 0 <= j < i && !(0 <= refs[j].botIndex < bots);
    if i == 0 {
      assert s == {};
    } else {
      StraysCounted(refs, bots, i - 1);
      var t := set j | 0 <= j < i - 1 && !(0 <= refs[j].botIndex < bots);
      assert refs[..i][..i - 1] == refs[..i - 1];
      assert s == if 0 <= refs[i - 1].botIndex < bots then t else t + {i - 1};
    }
  }

  lemma RemovedAppend(a: seq<Call>, b: seq<Call>)
    ensures Removed(a + b) == Removed(a) + Removed(b)
  {
  }

  lemma {:induction false} AllSentMembers(calls: seq<Call>, m: nat)
    ensures m in AllSent(calls) <==> exists c :: c in calls && m in c.ids
  {
    if calls != [] {
      var n := |calls| - 1;
      AllSentMembers(calls[..n], m);
      assert calls == calls[..n] + [calls[n]];
    }
  }

  /** Every call went to a bot of the pool, within the size limit, and each bot got exactly what was routed to it. */
  predicate Covers(calls: seq<Call>, refs: seq<Ref>, bots: nat, picks: nat)
    requires 0 < bots
  {
    && WellSized(calls) && (forall c | c in calls :: c.bot < bots)
    && forall b: nat | b < bots :: SentTo(calls, b) == Routed(refs, bots, picks, b)
  }

  /** What a covering batch removes: nothing but the references, and all of them when no call failed. */
  lemma CoversRemoves(calls: seq<Call>, refs: seq<Ref>, bots: nat, picks: nat)
    requires 0 < bots && Covers(calls, refs, bots, picks)
    ensures multiset(AllSent(calls)) == multiset(Ids(refs))
    ensures Removed(calls) <= IdSet(Ids(refs))
    ensures (forall c | c in calls :: !c.failed) ==> Removed(calls) == IdSet(Ids(refs))
  {
    EveryRefOnce(calls, refs, bots, picks);
    forall m: nat
      ensures m in AllSent(calls) <==> m in Ids(refs)
    {
      assert m in multiset(AllSent(calls)) <==> m in multiset(Ids(refs));
    }
    forall m | m in Removed(calls)
      ensures m in IdSet(Ids(refs))
    {
      AllSentMembers(calls, m);
    }
    if forall c | c in calls :: !c.failed {
      forall m | m in IdSet(Ids(refs))
        ensures m in Removed(calls)
      {
        AllSentMembers(calls, m);
      }
    }
  }

  lemma SentToOwnBot(calls: seq<Call>, refs: seq<Ref>, bots: nat, picks: nat, i: nat)
    requires 0 < bots && Covers(calls, refs, bots, picks) && i < |refs| && 0 <= refs[i].botIndex < bots
    ensures refs[i].msg in SentTo(calls, refs[i].botIndex)
  {
    OwnBotDeletes(refs, bots, picks, i);
  }
}

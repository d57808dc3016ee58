/** The TTL cache: every interleaving of its steps agrees with a plain map of values and expiry times. */
module TtlCache {
  import opened ByteStrings

  /** One `Set`; `id` is the identity of the allocated entry. */
  datatype Entry<V> = Entry(id: nat, value: V, expiresAt: int)

  predicate Expired<V>(e: Entry<V>, now: int) {
    now > e.expiresAt
  }

  /** What a caller at `now` should see under `key` in a map of entries. */
  function Current<K, V>(m: map<K, Entry<V>>, key: K, now: int): Option<V> {
    if key in m && !Expired(m[key], now) then Some(m[key].value) else None
  }

  /** The cache holds nothing but the timed map's own entries, and all of those that have not expired. */
  predicate Agrees<K, V(==)>(items: map<K, Entry<V>>, timed: map<K, Entry<V>>, now: int) {
    && (forall k | k in items :: k in timed && timed[k] == items[k])
    && (forall k | k in timed && !Expired(timed[k], now) :: k in items)
  }

  lemma AgreesMeans<K, V>(items: map<K, Entry<V>>, timed: map<K, Entry<V>>, now: int, key: K)
    requires Agrees(items, timed, now)
    ensures Current(items, key, now) == Current(timed, key, now)
  {
  }

  /** Removes an entry if it is still the one that was looked at. */
  function CompareAndDelete<K, V(==)>(items: map<K, Entry<V>>, key: K, e: Entry<V>): map<K, Entry<V>> {
    if key in items && items[key] == e then items - {key} else items
  }

  lemma EvictionAgrees<K, V>(items: map<K, Entry<V>>, timed: map<K, Entry<V>>, now: int, key: K, e: Entry<V>)
    requires Agrees(items, timed, now) && Expired(e, now)
    ensures Agrees(CompareAndDelete(items, key, e), timed, now)
  {
  }

  // One caller at a time

  class Cache<K(==), V(==)> {
    const defaultTtl: int
    var items: map<K, Entry<V>>
    var nextId: nat
    ghost var timed: map<K, Entry<V>>

    ghost predicate Valid(now: int)
      reads this
    {
      Agrees(items, timed, now)
    }

    constructor (defaultTtl: int)
      ensures this.defaultTtl == defaultTtl && timed == map[] && forall now :: Valid(now)
    {
      this.defaultTtl, items, nextId, timed := defaultTtl, map[], 0, map[];
    }

    /** A hit is the unexpired value of the timed map, and there is no other miss. */
    method Get(key: K, now: int) returns (r: Option<V>)
      requires Valid(now)
      modifies this`items
      ensures Valid(now) && r == Current(timed, key, now)
      ensures r == if key in timed && now <= timed[key].expiresAt then Some(timed[key].value) else None
    {
      if key !in items {
        return None;
      }
      var e := items[key];
      if now > e.expiresAt {
        EvictionAgrees(items, timed, now, key, e);
        items := CompareAndDelete(items, key, e);
        return None;
      }
      return Some(e.value);
    }

    method Set(key: K, value: V, ttl: int, now: int)
      requires Valid(now)
      modifies this
      ensures Valid(now)
      ensures timed == old(timed)[key := Entry(old(nextId), value, now + if 0 < ttl then ttl else defaultTtl)]
    {
      var life := ttl;
      if ttl <= 0 {
        life := defaultTtl;
      }
      var e := Entry(nextId, value, now + life);
      nextId := nextId + 1;
      items := items[key := e];
      timed := timed[key := e];
    }

    method Delete(key: K, now: int)
      requires Valid(now)
      modifies this`items, this`timed
      ensures Valid(now) && timed == old(timed) - {key}
    {
      items := items - {key};
      timed := timed - {key};
    }

    /** The sweeper's pass over the entries: expired ones go, and nothing a caller could see changes. */
    method Sweep(now: int)
      requires Valid(now)
      modifies this`items
      ensures Valid(now)
      ensures forall k | k in items :: now <= items[k].expiresAt
    {
      var todo := items.Keys;
      while todo != {}
        invariant Valid(now) && todo <= old(items).Keys
        invariant forall k | k in items :: k in todo || !Expired(items[k], now)
        decreases |todo|
      {
        var k :| k in todo;
        if k in items && now > items[k].expiresAt {
          EvictionAgrees(items, timed, now, k, items[k]);
          items := CompareAndDelete(items, k, items[k]);
        }
        todo := todo - {k};
      }
    }
  }

  // Overlapping callers

  /** How far a caller or the sweeper has got; `version` counts the writes to the key before the entry was looked at. */
  datatype Thread<K, V> =
    | Setting(key: K, entry: Entry<V>)
    | Loaded(key: K, entry: Entry<V>, version: nat)
    | Evicting(key: K, entry: Entry<V>, version: nat)
    | Sweeping(asOf: int)
    | Visiting(asOf: int, key: K, entry: Entry<V>, version: nat)

  /** `timed` is the map the cache stands for, `stored` the entries ever stored, `versions` the writes per key. */
  datatype State<K, V> = State(
    defaultTtl: int,
    clock: int,
    items: map<K, Entry<V>>,
    threads: map<nat, Thread<K, V>>,
    nextId: nat,
    timed: map<K, Entry<V>>,
    stored: set<nat>,
    versions: map<K, nat>)

  datatype Event<K, V> =
    | Tick(to: int)
    | SetStart(t: nat, key: K, value: V, ttl: int)
    | SetStore(t: nat)
    | Delete(key: K)
    | GetLoad(t: nat, key: K)
    | GetCheck(t: nat)
    | GetEvict(t: nat)
    | SweepStart(t: nat)
    | SweepVisit(t: nat, key: K)
    | SweepDecide(t: nat)
    | SweepEnd(t: nat)

  function VersionOf<K, V>(s: State<K, V>, key: K): nat {
    if key in s.versions then s.versions[key] else 0
  }

  predicate Possible<K(==), V>(s: State<K, V>, e: Event<K, V>) {
    match e
    case Tick(to) => s.clock <= to
    case SetStart(t, _, _, _) => t !in s.threads
    case SetStore(t) => t in s.threads && s.threads[t].Setting?
    case Delete(_) => true
    case GetLoad(t, _) => t !in s.threads
    case GetCheck(t) => t in s.threads && s.threads[t].Loaded?
    case GetEvict(t) => t in s.threads && s.threads[t].Evicting?
    case SweepStart(t) => t !in s.threads
    case SweepVisit(t, key) => t in s.threads && s.threads[t].Sweeping? && key in s.items
    case SweepDecide(t) => t in s.threads && s.threads[t].Visiting?
    case SweepEnd(t) => t in s.threads && s.threads[t].Sweeping?
  }

  function At<K, V>(s: State<K, V>, t: nat, th: Thread<K, V>): State<K, V> {
    s.(threads := s.threads[t := th])
  }

  function Leave<K, V>(s: State<K, V>, t: nat): State<K, V> {
    s.(threads := s.threads - {t})
  }

  function Next<K(==), V(==)>(s: State<K, V>, e: Event<K, V>): State<K, V>
    requires Possible(s, e)
  {
    match e
    case Tick(to) => s.(clock := to)
    case SetStart(t, key, value, ttl) =>
      var entry := Entry(s.nextId, value, s.clock + if 0 < ttl then ttl else s.defaultTtl);
      At(s, t, Setting(key, entry)).(nextId := s.nextId + 1)
    case SetStore(t) =>
      var th := s.threads[t];
      Leave(s, t).(items := s.items[th.key := th.entry], timed := s.timed[th.key := th.entry],
                   stored := s.stored + {th.entry.id}, versions := s.versions[th.key := VersionOf(s, th.key) + 1])
    case Delete(key) => s.(items := s.items - {key}, timed := s.timed - {key})
    case GetLoad(t, key) =>
      if key in s.items then At(s, t, Loaded(key, s.items[key], VersionOf(s, key))) else s
    case GetCheck(t) =>
      var th := s.threads[t];
      if Expired(th.entry, s.clock) then At(s, t, Evicting(th.key, th.entry, th.version)) else Leave(s, t)
    case GetEvict(t) =>
      var th := s.threads[t];
      Leave(s, t).(items := CompareAndDelete(s.items, th.key, th.entry))
    case SweepStart(t) => At(s, t, Sweeping(s.clock))
    case SweepVisit(t, key) => At(s, t, Visiting(s.threads[t].asOf, key, s.items[key], VersionOf(s, key)))
    case SweepDecide(t) =>
      var th := s.threads[t];
      var swept := if Expired(th.entry, th.asOf) then CompareAndDelete(s.items, th.key, th.entry) else s.items;
      At(s, t, Sweeping(th.asOf)).(items := swept)
    case SweepEnd(t) => Leave(s, t)
  }

  /** What a step answers to a caller of `Get`: nothing yet, a miss, or a hit. */
  datatype Answer<V> = NoAnswer | Miss | Hit(value: V)

  function Answers<K(==), V>(s: State<K, V>, e: Event<K, V>): Answer<V>
    requires Possible(s, e)
  {
    match e
    case GetLoad(_, key) => if key in s.items then NoAnswer else Miss
    case GetCheck(t) => if Expired(s.threads[t].entry, s.clock) then NoAnswer else Hit(s.threads[t].entry.value)
    case GetEvict(_) => Miss
    case _ => NoAnswer
  }

  // The invariant

  predicate Looking<K, V>(th: Thread<K, V>) {
    th.Loaded? || th.Evicting? || th.Visiting?
  }

  /** An entry somebody looked at: stored once, and no longer the key's entry once the key was written again. */
  predicate LookOk<K, V(==)>(s: State<K, V>, th: Thread<K, V>)
    requires Looking(th)
  {
    && th.entry.id in s.stored && th.version <= VersionOf(s, th.key)
    && (th.version < VersionOf(s, th.key) && th.key in s.items ==> s.items[th.key].id != th.entry.id)
    && (th.version == VersionOf(s, th.key) && th.key in s.timed ==> s.timed[th.key] == th.entry)
  }

  predicate ThreadOk<K, V(==)>(s: State<K, V>, th: Thread<K, V>) {
    && (Looking(th) ==> LookOk(s, th))
    && (th.Evicting? ==> Expired(th.entry, s.clock))
    && (th.Sweeping? || th.Visiting? ==> th.asOf <= s.clock)
    && (th.Setting? ==> th.entry.id < s.nextId && th.entry.id !in s.stored)
  }

  predicate Inv<K, V(==)>(s: State<K, V>) {
    && Agrees(s.items, s.timed, s.clock)
    && (forall t | t in s.threads :: ThreadOk(s, s.threads[t]))
    && (forall t, u | t in s.threads && u in s.threads && t != u && s.threads[t].Setting? && s.threads[u].Setting? ::
          s.threads[t].entry.id != s.threads[u].entry.id)
    && (forall id | id in s.stored :: id < s.nextId)
    && (forall k | k in s.items :: s.items[k].id in s.stored)
  }

  function Init<K, V>(defaultTtl: int, clock: int): State<K, V> {
    State(defaultTtl, clock, map[], map[], 0, map[], {}, map[])
  }

  /** The key was not written since it was looked at, or what is there now is another entry. */
  lemma EvictStep<K, V>(s: State<K, V>, t: nat, u: State<K, V>, now: int)
    requires Inv(s) && t in s.threads && Looking(s.threads[t]) && Expired(s.threads[t].entry, now) && now <= s.clock
    requires u.threads.Keys <= s.threads.Keys && (forall x | x in u.threads && x != t :: u.threads[x] == s.threads[x])
    requires t in u.threads ==> u.threads[t].Sweeping? && u.threads[t].asOf <= s.clock
    requires u == s.(items := CompareAndDelete(s.items, s.threads[t].key, s.threads[t].entry), threads := u.threads)
    ensures Inv(u)
  {
    var th := s.threads[t];
    EvictionAgrees(s.items, s.timed, s.clock, th.key, th.entry);
    forall x | x in u.threads
      ensures ThreadOk(u, u.threads[x])
    {
      if x != t {
        assert ThreadOk(s, s.threads[x]);
      }
    }
  }

  lemma StoreStep<K, V>(s: State<K, V>, t: nat)
    requires Inv(s) && t in s.threads && s.threads[t].Setting?
    ensures Inv(Next(s, SetStore(t)))
  {
    var u, th := Next(s, SetStore(t)), s.threads[t];
    assert ThreadOk(s, th);
    forall x | x in u.threads
      ensures ThreadOk(u, u.threads[x])
    {
      assert ThreadOk(s, s.threads[x]);
    }
  }

  lemma LookStep<K, V>(s: State<K, V>, t: nat, th: Thread<K, V>)
    requires Inv(s) && Looking(th) && !th.Evicting? && (th.Visiting? ==> th.asOf <= s.clock)
    requires th.key in s.items && th.entry == s.items[th.key] && th.version == VersionOf(s, th.key)
    ensures Inv(At(s, t, th))
  {
    var u := At(s, t, th);
    forall x | x in u.threads
      ensures ThreadOk(u, u.threads[x])
    {
      if x != t {
        assert ThreadOk(s, s.threads[x]);
      }
    }
  }

  /** A step that leaves the clock, the map and the other callers alone. */
  lemma MoveStep<K, V>(s: State<K, V>, t: nat, u: State<K, V>)
    requires Inv(s) && u == s.(threads := u.threads)
    requires u.threads.Keys <= s.threads.Keys + {t}
    requires forall x | x in u.threads && x != t :: u.threads[x] == s.threads[x]
    requires t in u.threads ==> !u.threads[t].Setting? && ThreadOk(s, u.threads[t])
    ensures Inv(u)
  {
    hide Agrees, LookOk;
    forall x | x in u.threads
      ensures ThreadOk(u, u.threads[x])
    {
      ThreadMoves(s, u, x);
    }
  }

  lemma ThreadMoves<K, V>(s: State<K, V>, u: State<K, V>, x: nat)
    requires u == s.(threads := u.threads) && x in u.threads && ThreadOk(s, u.threads[x])
    ensures ThreadOk(u, u.threads[x])
  {
  }

  lemma SetStartStep<K, V>(s: State<K, V>, e: Event<K, V>)
    requires Inv(s) && Possible(s, e) && e.SetStart?
    ensures Inv(Next(s, e))
  {
    var u := Next(s, e);
    forall x | x in u.threads
      ensures ThreadOk(u, u.threads[x])
    {
      if x in s.threads {
        assert ThreadOk(s, s.threads[x]);
      }
    }
  }

  lemma DeleteStep<K, V>(s: State<K, V>, e: Event<K, V>)
    requires Inv(s) && Possible(s, e) && e.Delete?
    ensures Inv(Next(s, e))
  {
    var u := Next(s, e);
    forall x | x in u.threads
      ensures ThreadOk(u, u.threads[x])
    {
      assert ThreadOk(s, s.threads[x]);
    }
  }

  lemma TickStep<K, V>(s: State<K, V>, e: Event<K, V>)
    requires Inv(s) && Possible(s, e) && e.Tick?
    ensures Inv(Next(s, e))
  {
    var u := Next(s, e);
    forall x | x in u.threads
      ensures ThreadOk(u, u.threads[x])
    {
      assert ThreadOk(s, s.threads[x]);
    }
  }

  lemma NextKeeps<K, V>(s: State<K, V>, e: Event<K, V>)
    requires Inv(s) && Possible(s, e)
    ensures Inv(Next(s, e))
  {
    hide Inv, LookOk;
    match e {
      case Tick(_) => TickStep(s, e);
      case SetStart(_, _, _, _) => SetStartStep(s, e);
      case Delete(_) => DeleteStep(s, e);
      case SetStore(t) => StoreStep(s, t);
      case GetCheck(t) =>
        ThreadMeans(s, t);
        if Expired(s.threads[t].entry, s.clock) {
          CheckedIsOk(s, t);
        }
        MoveStep(s, t, Next(s, e));
      case SweepStart(t) => MoveStep(s, t, Next(s, e));
      case SweepEnd(t) => MoveStep(s, t, Next(s, e));
      case GetLoad(t, key) =>
        if key in s.items {
          LookStep(s, t, Loaded(key, s.items[key], VersionOf(s, key)));
        }
      case GetEvict(t) =>
        ThreadMeans(s, t);
        EvictStep(s, t, Next(s, e), s.clock);
      case SweepVisit(t, key) =>
        ThreadMeans(s, t);
        LookStep(s, t, Visiting(s.threads[t].asOf, key, s.items[key], VersionOf(s, key)));
      case SweepDecide(t) =>
        ThreadMeans(s, t);
        if Expired(s.threads[t].entry, s.threads[t].asOf) {
          EvictStep(s, t, Next(s, e), s.threads[t].asOf);
        } else {
          MoveStep(s, t, Next(s, e));
        }
    }
  }

  lemma CheckedIsOk<K, V>(s: State<K, V>, t: nat)
    requires t in s.threads && s.threads[t].Loaded? && ThreadOk(s, s.threads[t]) && Expired(s.threads[t].entry, s.clock)
    ensures var th := s.threads[t]; ThreadOk(s, Evicting(th.key, th.entry, th.version))
  {
  }

  lemma ThreadMeans<K, V>(s: State<K, V>, t: nat)
    requires Inv(s) && t in s.threads
    ensures ThreadOk(s, s.threads[t])
  {
  }

  predicate PossibleRun<K(==), V(==)>(s: State<K, V>, run: seq<Event<K, V>>)
    decreases |run|, 0
  {
    run == [] || (PossibleRun(s, run[..|run| - 1]) && Possible(After(s, run[..|run| - 1]), run[|run| - 1]))
  }

  function After<K(==), V(==)>(s: State<K, V>, run: seq<Event<K, V>>): State<K, V>
    requires PossibleRun(s, run)
    decreases |run|, 1
  {
    if run == [] then s else Next(After(s, run[..|run| - 1]), run[|run| - 1])
  }

  lemma {:induction false} RunKeeps<K, V>(s: State<K, V>, run: seq<Event<K, V>>)
    requires Inv(s) && PossibleRun(s, run)
    ensures Inv(After(s, run))
  {
    hide Inv, Next, Possible;
    if run != [] {
      var n := |run| - 1;
      RunKeeps(s, run[..n]);
      NextKeeps(After(s, run[..n]), run[n]);
    }
  }

  lemma InitInv<K, V>(defaultTtl: int, clock: int)
    ensures Inv<K, V>(Init(defaultTtl, clock))
  {
  }

  // What callers can rely on

  /** In every interleaving, at every moment, the cache shows what the timed map shows. */
  lemma CacheAgrees<K, V>(defaultTtl: int, clock: int, run: seq<Event<K, V>>, key: K)
    requires PossibleRun(Init(defaultTtl, clock), run)
    ensures
      var s := After(Init(defaultTtl, clock), run);
      Current(s.items, key, s.clock) == Current(s.timed, key, s.clock)
  {
    hide Next, Possible;
    InitInv<K, V>(defaultTtl, clock);
    RunKeeps(Init(defaultTtl, clock), run);
    var s := After(Init(defaultTtl, clock), run);
    AgreesMeans(s.items, s.timed, s.clock, key);
  }

  /** A look that finds nothing is right, and one that finds something finds the timed map's entry. */
  lemma LoadIsCurrent<K, V>(s: State<K, V>, t: nat, key: K)
    requires Inv(s) && Possible(s, GetLoad(t, key))
    ensures Answers(s, GetLoad(t, key)).Miss? ==> Current(s.timed, key, s.clock).None?
    ensures key in s.items ==> key in s.timed && s.timed[key] == s.items[key]
  {
  }

  /** A hit is the entry that was current when the caller looked, and it has not expired at the check. */
  lemma HitWasCurrent<K, V>(defaultTtl: int, clock: int, run: seq<Event<K, V>>, t: nat)
    requires PossibleRun(Init(defaultTtl, clock), run) && Possible(After(Init(defaultTtl, clock), run), GetCheck(t))
    ensures
      var s := After(Init(defaultTtl, clock), run);
      var th := s.threads[t];
      && (Answers(s, GetCheck(t)).Hit? <==> !Expired(th.entry, s.clock))
      && (Answers(s, GetCheck(t)).Hit? ==> Answers(s, GetCheck(t)).value == th.entry.value)
      && exists n :: LookedAt(Init(defaultTtl, clock), run, n, t, th)
  {
    InitInv<K, V>(defaultTtl, clock);
    var n := Origin(Init(defaultTtl, clock), run, t);
  }

  /** Step `n` of the run is where the caller looked, and it got the timed map's entry of that moment. */
  ghost predicate LookedAt<K, V>(s: State<K, V>, run: seq<Event<K, V>>, n: nat, t: nat, th: Thread<K, V>)
    requires th.Loaded?
  {
    && n < |run| && PossibleRun(s, run[..n]) && run[n] == GetLoad(t, th.key)
    && th.key in After(s, run[..n]).timed && After(s, run[..n]).timed[th.key] == th.entry
  }

  lemma {:induction false} Origin<K, V>(s: State<K, V>, run: seq<Event<K, V>>, t: nat) returns (n: nat)
    requires Inv(s) && s.threads == map[] && PossibleRun(s, run)
    requires t in After(s, run).threads && After(s, run).threads[t].Loaded?
    ensures LookedAt(s, run, n, t, After(s, run).threads[t])
  {
    hide Inv, Next, Possible;
    var m := |run| - 1;
    var before, e := After(s, run[..m]), run[m];
    LoadedBy(before, e, t);
    if t in before.threads && before.threads[t] == After(s, run).threads[t] {
      n := Origin(s, run[..m], t);
      assert run[..m][..n] == run[..n] && run[..m][n] == run[n];
    } else {
      n := m;
      RunKeeps(s, run[..m]);
      LoadIsCurrent(before, t, e.key);
    }
  }

  /** A caller that is between its look and its check was so before this step, or this step is its look. */
  lemma LoadedBy<K, V>(s: State<K, V>, e: Event<K, V>, t: nat)
    requires Possible(s, e) && t in Next(s, e).threads && Next(s, e).threads[t].Loaded?
    ensures
      var th := Next(s, e).threads[t];
      || (t in s.threads && s.threads[t] == th)
      || (e == GetLoad(t, th.key) && th.key in s.items && th.entry == s.items[th.key])
  {
  }

  /** An eviction only removes the entry that was looked at: a key written since then is left alone. */
  lemma EvictionSparesLaterWrites<K, V>(defaultTtl: int, clock: int, run: seq<Event<K, V>>, e: Event<K, V>)
    requires PossibleRun(Init(defaultTtl, clock), run) && Possible(After(Init(defaultTtl, clock), run), e)
    requires e.GetEvict? || e.SweepDecide?
    ensures
      var s := After(Init(defaultTtl, clock), run);
      var th := s.threads[e.t];
      && th.version <= VersionOf(s, th.key)
      && (th.version < VersionOf(s, th.key) ==> Next(s, e).items == s.items)
      && (Next(s, e).items == s.items
          || (Next(s, e).items == s.items - {th.key} && s.items[th.key] == th.entry && Expired(th.entry, s.clock)))
  {
    InitInv<K, V>(defaultTtl, clock);
    RunKeeps(Init(defaultTtl, clock), run);
    ThreadMeans(After(Init(defaultTtl, clock), run), e.t);
  }

  /** A miss decided at the check is wrong exactly when the key was written again after the look and that entry is live. */
  lemma MissAtCheck<K, V>(s: State<K, V>, t: nat)
    requires Inv(s) && Possible(s, GetCheck(t)) && Expired(s.threads[t].entry, s.clock)
    ensures
      var th := s.threads[t];
      Current(s.timed, th.key, s.clock).Some?
      <==> th.version < VersionOf(s, th.key) && th.key in s.timed && !Expired(s.timed[th.key], s.clock)
  {
    ThreadMeans(s, t);
  }

  /** Step `m` of the run stores `e` under `key`. */
  ghost predicate StoredAt<K, V>(s: State<K, V>, run: seq<Event<K, V>>, m: nat, key: K, e: Entry<V>) {
    && m < |run| && PossibleRun(s, run[..m]) && run[m].SetStore?
    && var before := After(s, run[..m]);
       run[m].t in before.threads && before.threads[run[m].t] == Setting(key, e)
  }

  /** Since a caller looked, the key's entry is the one it saw, or was stored later, or was deleted. */
  lemma {:induction false} SinceLook<K, V>(s: State<K, V>, run: seq<Event<K, V>>, t: nat) returns (n: nat, m: nat)
    requires Inv(s) && s.threads == map[] && PossibleRun(s, run)
    requires t in After(s, run).threads && After(s, run).threads[t].Loaded?
    ensures LookedAt(s, run, n, t, After(s, run).threads[t])
    ensures
      var now, th := After(s, run), After(s, run).threads[t];
      th.key in now.timed && now.timed[th.key] != th.entry ==> n < m && StoredAt(s, run, m, th.key, now.timed[th.key])
  {
    hide Inv, Possible;
    var last := |run| - 1;
    var before, e, now := After(s, run[..last]), run[last], After(s, run);
    var th := now.threads[t];
    LoadedBy(before, e, t);
    if t in before.threads && before.threads[t] == th {
      n, m := SinceLook(s, run[..last], t);
      assert run[..last][..n] == run[..n] && run[..last][n] == run[n];
      if m < last {
        assert run[..last][..m] == run[..m] && run[..last][m] == run[m];
      }
      TimedBy(before, e, th.key);
      if e.SetStore? && before.threads[e.t].key == th.key {
        m := last;
      }
    } else {
      n, m := last, 0;
      RunKeeps(s, run[..last]);
      LoadIsCurrent(before, t, e.key);
    }
  }

  /** What one step does to one key of the timed map. */
  lemma TimedBy<K, V>(s: State<K, V>, e: Event<K, V>, key: K)
    requires Possible(s, e)
    ensures e.SetStore? ==> e.t in s.threads && s.threads[e.t].Setting?
    ensures
      var u := Next(s, e);
      if e.SetStore? && s.threads[e.t].key == key then key in u.timed && u.timed[key] == s.threads[e.t].entry
      else key in u.timed ==> key in s.timed && u.timed[key] == s.timed[key]
  {
  }

  /**
   In every interleaving, a lookup that finds its entry expired at the check answers a miss, and that miss is wrong
   exactly when an entry that is still live was stored under the key between the caller's look and its check.
   */
  lemma MissWrongExactlyWhen<K, V>(defaultTtl: int, clock: int, run: seq<Event<K, V>>, t: nat)
    requires PossibleRun(Init(defaultTtl, clock), run) && Possible(After(Init(defaultTtl, clock), run), GetCheck(t))
    requires
      var s := After(Init(defaultTtl, clock), run);
      Expired(s.threads[t].entry, s.clock)
    ensures
      var s0: State<K, V> := Init(defaultTtl, clock);
      var s := After(s0, run);
      var th := s.threads[t];
      Current(s.timed, th.key, s.clock).Some?
      <==> exists n, m, e: Entry<V> :: LookedAt(s0, run, n, t, th) && n < m && StoredAt(s0, run, m, th.key, e)
                                       && th.key in s.timed && s.timed[th.key] == e && !Expired(e, s.clock)
  {
    hide Next, Inv, PossibleRun, After;
    InitInv<K, V>(defaultTtl, clock);
    var n, m := SinceLook(Init(defaultTtl, clock), run, t);
    var s := After(Init(defaultTtl, clock), run);
    var th := s.threads[t];
    if Current(s.timed, th.key, s.clock).Some? {
      assert LookedAt(Init(defaultTtl, clock), run, n, t, th) && n < m
          && StoredAt(Init(defaultTtl, clock), run, m, th.key, s.timed[th.key]);
    }
  }

  /** Otherwise it can be wrong: the key has had a live value all along, and the caller is told there is none. */
  lemma MissDespiteLaterWrite()
    ensures
      var run := [SetStart(0, 7, 1, 1), SetStore(0), GetLoad(1, 7), SetStart(2, 7, 2, 9), SetStore(2), Tick(5)];
      && PossibleRun<nat, nat>(Init(60, 0), run)
      && var s := After<nat, nat>(Init(60, 0), run);
         && Possible(s, GetCheck(1)) && !Answers(s, GetCheck(1)).Hit?
         && Possible(Next(s, GetCheck(1)), GetEvict(1)) && Answers(Next(s, GetCheck(1)), GetEvict(1)).Miss?
         && Current(s.timed, 7, s.clock) == Some(2)
  {
    hide PossibleRun, After, Next, Possible, Answers, Current;
    LookFirst();
    LateWrite();
    var r3: seq<Event<nat, nat>> := [SetStart(0, 7, 1, 1), SetStore(0), GetLoad(1, 7)];
    RunMore(INIT_60, r3, SetStart(2, 7, 2, 9));
    RunMore(INIT_60, r3 + [SetStart(2, 7, 2, 9)], SetStore(2));
    RunMore(INIT_60, r3 + [SetStart(2, 7, 2, 9)] + [SetStore(2)], Tick(5));
    assert r3 + [SetStart(2, 7, 2, 9)] + [SetStore(2)] + [Tick(5)]
        == [SetStart(0, 7, 1, 1), SetStore(0), GetLoad(1, 7), SetStart(2, 7, 2, 9), SetStore(2), Tick(5)];
  }

  const INIT_60: State<nat, nat> := Init(60, 0)
  const OLD_ENTRY: Entry<nat> := Entry(0, 1, 1)
  const NEW_ENTRY: Entry<nat> := Entry(1, 2, 9)
  const LOOKED: State<nat, nat> :=
    State(60, 0, map[7 := OLD_ENTRY], map[1 := Loaded(7, OLD_ENTRY, 1)], 1, map[7 := OLD_ENTRY], {0}, map[7 := 1])

  lemma LookFirst()
    ensures
      var run := [SetStart(0, 7, 1, 1), SetStore(0), GetLoad(1, 7)];
      PossibleRun<nat, nat>(Init(60, 0), run) && After<nat, nat>(Init(60, 0), run) == LOOKED
  {
    hide PossibleRun, After;
    RunNothing(INIT_60);
    var r0: seq<Event<nat, nat>> := [];
    var r1 := r0 + [SetStart(0, 7, 1, 1)];
    var r2 := r1 + [SetStore(0)];
    RunMore(INIT_60, r0, SetStart(0, 7, 1, 1));
    RunMore(INIT_60, r1, SetStore(0));
    RunMore(INIT_60, r2, GetLoad(1, 7));
    assert r2 + [GetLoad(1, 7)] == [SetStart(0, 7, 1, 1), SetStore(0), GetLoad(1, 7)];
  }

  lemma LateWrite()
    ensures Init(60, 0) == INIT_60 && Possible(LOOKED, SetStart(2, 7, 2, 9))
    ensures var s4 := Next(LOOKED, SetStart(2, 7, 2, 9)); Possible(s4, SetStore(2)) && Possible(Next(s4, SetStore(2)), Tick(5))
    ensures
      var s := Next(Next(Next(LOOKED, SetStart(2, 7, 2, 9)), SetStore(2)), Tick(5));
      && Possible(s, GetCheck(1)) && !Answers(s, GetCheck(1)).Hit?
      && Possible(Next(s, GetCheck(1)), GetEvict(1)) && Answers(Next(s, GetCheck(1)), GetEvict(1)).Miss?
      && Current(s.timed, 7, s.clock) == Some(2)
  {
    var s5 := Next(Next(LOOKED, SetStart(2, 7, 2, 9)), SetStore(2));
    assert s5.timed[7] == NEW_ENTRY && s5.threads[1] == Loaded(7, OLD_ENTRY, 1);
  }

  lemma RunNothing<K, V>(s: State<K, V>)
    ensures PossibleRun(s, []) && After(s, []) == s
  {
  }

  lemma RunMore<K, V>(s: State<K, V>, run: seq<Event<K, V>>, e: Event<K, V>)
    requires PossibleRun(s, run) && Possible(After(s, run), e)
    ensures PossibleRun(s, run + [e]) && After(s, run + [e]) == Next(After(s, run), e)
  {
    assert (run + [e])[..|run|] == run;
  }
}

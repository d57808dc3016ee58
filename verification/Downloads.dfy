/** Reading a message through the bot pool: the location cache, its refresh, and the fallback over the other bots. */
module Downloads {
  import opened ByteStrings
  import opened ChunkMaps
  import opened Backend
  import opened FileWindows
  import TtlCache

  /** How a bot's calls go just now: they work, or fail for every bot alike, or for this bot only. */
  datatype Reach = Works | Banned | Down

  datatype ReadError = MembershipError | OtherError | ReferenceExpired

  datatype ReadResult = Ok(data: bytes) | Err(error: ReadError)

  /** A download location; its file reference goes stale when the server issues a newer one. */
  datatype Location = Location(msg: nat, reference: nat)

  datatype LocationKey = LocationKey(msg: nat, bot: nat)

  /** The server: the channel, the current file reference of each message, and each bot's standing. */
  datatype Server = Server(files: Files, references: map<nat, nat>, bots: seq<Reach>) {

    predicate Valid() {
      files.Keys <= references.Keys && bots != []
    }

    function Locate(bot: nat, msg: nat): Option<Location>
      requires Valid() && bot < |bots|
    {
      if bots[bot].Works? && msg in files then Some(Location(msg, references[msg])) else None
    }
  }

  function ErrorOf(r: Reach): ReadError {
    if r.Banned? then MembershipError else OtherError
  }

  function Slice(file: bytes, offset: nat, length: int): bytes {
    Cut(file, offset, if length > 0 then offset + length else Max(offset, |file|))
  }

  /** What one bot answers when nothing is cached. */
  function ViaBot(server: Server, bot: nat, msg: nat, offset: nat, length: int): ReadResult
    requires bot < |server.bots|
  {
    if !server.bots[bot].Works? then Err(ErrorOf(server.bots[bot]))
    else if msg !in server.files then Err(OtherError)
    else Ok(Slice(server.files[msg], offset, length))
  }

  /** The affine bot first, then the others in order. */
  function TryOrder(primary: nat, n: nat): seq<nat> {
    [primary] + Others(primary, n)
  }

  function Others(primary: nat, n: nat): seq<nat> {
    if n == 0 then [] else Others(primary, n - 1) + (if n - 1 == primary then [] else [n - 1])
  }

  predicate AllInPool(order: seq<nat>, bots: nat) {
    forall i | 0 <= i < |order| :: order[i] < bots
  }

  /** From the k-th bot on, the first that reads it or finds itself banned decides; otherwise all have failed. */
  function FirstDecisive(server: Server, order: seq<nat>, k: nat, msg: nat, offset: nat, length: int): ReadResult
    requires AllInPool(order, |server.bots|)
    decreases |order| - k
  {
    if k >= |order| then Err(OtherError)
    else
      var r := ViaBot(server, order[k], msg, offset, length);
      if r.Ok? || r.error.MembershipError? then r else FirstDecisive(server, order, k + 1, msg, offset, length)
  }

  class Downloader {
    const pool: Pool
    const cache: TtlCache.Cache<LocationKey, Location>

    constructor (pool: Pool, cache: TtlCache.Cache<LocationKey, Location>)
      ensures this.pool == pool && this.cache == cache
    {
      this.pool, this.cache := pool, cache;
    }

    /** What is cached for a message is a location of that message, though maybe a stale one. */
    ghost predicate Valid(now: int)
      reads this, cache
    {
      cache.Valid(now) && forall k | k in cache.timed :: cache.timed[k].value.msg == k.msg
    }

    /** The server's bots are the pool's. */
    predicate Serves(server: Server)
      reads pool
    {
      server.Valid() && pool.bots == |server.bots|
    }

    method ResolveLocation(server: Server, bot: nat, msg: nat, now: int) returns (loc: Option<Location>, ghost hit: bool)
      requires Valid(now) && server.Valid() && bot < |server.bots|
      modifies cache
      ensures Valid(now)
      ensures hit ==> loc.Some? && loc.value.msg == msg
      ensures hit <==> TtlCache.Current(old(cache.timed), LocationKey(msg, bot), now).Some?
      ensures !hit ==> loc == server.Locate(bot, msg)
    {
      var key := LocationKey(msg, bot);
      var cached := cache.Get(key, now);
      if cached.Some? {
        return cached, true;
      }
      loc := server.Locate(bot, msg);
      if loc.Some? {
        cache.Set(key, loc.value, 0, now);
      }
      hit := false;
    }

    /** The file reads over a location: refused when the bot is, or when the reference is stale. */
    method FetchRange(server: Server, bot: nat, loc: Location, offset: nat, length: int) returns (r: ReadResult)
      requires server.Valid() && bot < |server.bots|
      ensures r == if server.bots[bot].Works? && loc.msg in server.files && loc.reference != server.references[loc.msg]
                   then Err(ReferenceExpired) else ViaBot(server, bot, loc.msg, offset, length)
    {
      if !server.bots[bot].Works? {
        return Err(ErrorOf(server.bots[bot]));
      }
      if loc.msg !in server.files {
        return Err(OtherError);
      }
      if loc.reference != server.references[loc.msg] {
        return Err(ReferenceExpired);
      }
      var end := if length > 0 then Some(offset + length) else None;
      var data, windows := FileWindows.FetchRange(server.files[loc.msg], offset, end);
      return Ok(data);
    }

    /** Whatever the cache holds, stale locations included, one bot answers as it would with an empty cache. */
    method DownloadViaBot(server: Server, bot: nat, msg: nat, offset: nat, length: int, now: int) returns (r: ReadResult)
      requires Valid(now) && server.Valid() && bot < |server.bots|
      modifies cache
      ensures Valid(now)
      ensures r == ViaBot(server, bot, msg, offset, length)
    {
      var loc, hit := ResolveLocation(server, bot, msg, now);
      if loc.None? {
        return Err(ErrorOf(server.bots[bot]));
      }
      r := FetchRange(server, bot, loc.value, offset, length);
      if r.Ok? || !r.error.ReferenceExpired? {
        return;
      }
      cache.Delete(LocationKey(msg, bot), now);
      loc, hit := ResolveLocation(server, bot, msg, now);
      if loc.None? {
        return Err(ErrorOf(server.bots[bot]));
      }
      r := FetchRange(server, bot, loc.value, offset, length);
    }

    /** Every bot is asked at most once, the row's own bot first, until one reads it or is found banned. */
    method DownloadRange(server: Server, botIndex: int, msg: nat, offset: nat, length: int, now: int)
      returns (r: ReadResult)
      requires Valid(now) && Serves(server)
      modifies cache, pool
      ensures Valid(now)
      ensures r.Ok? ==>
                && msg in server.files && !MustFail(server, botIndex, msg)
                && r.data == Slice(server.files[msg], offset, length)
      ensures r.Err? ==> MayFail(server, botIndex, msg)
      ensures
        var primary := if 0 <= botIndex < pool.bots then botIndex else old(pool.streamIdx) % pool.bots;
        && AllInPool(TryOrder(primary, pool.bots), |server.bots|)
        && r == FirstDecisive(server, TryOrder(primary, pool.bots), 0, msg, offset, length)
    {
      hide ViaBot, TryOrder, Others, AllInPool, MayFail, MustFail;
      var at := pool.At(botIndex);
      var primary: nat;
      if at.None? {
        primary := pool.Pick(StreamOp);
      } else {
        primary := at.value;
      }
      ghost var order := TryOrder(primary, pool.bots);
      OrderStarts(primary, pool.bots);
      DecidedBy(server, botIndex, primary, msg, offset, length);
      r := DownloadViaBot(server, primary, msg, offset, length, now);
      if r.Ok? || r.error.MembershipError? {
        return;
      }
      for i := 0 to pool.bots
        invariant Valid(now) && r.Err? && !r.error.MembershipError?
        invariant FirstDecisive(server, order, 0, msg, offset, length)
                  == FirstDecisive(server, order, 1 + |Others(primary, i)|, msg, offset, length)
      {
        OrderAt(primary, i, pool.bots);
        if i == primary {
          continue;
        }
        r := DownloadViaBot(server, i, msg, offset, length, now);
        if r.Ok? || r.error.MembershipError? {
          return;
        }
      }
      return Err(OtherError);
    }
  }

  lemma OrderStarts(primary: nat, n: nat)
    requires primary < n
    ensures
      var order := TryOrder(primary, n);
      AllInPool(order, n) && |order| == 1 + |Others(primary, n)| && order[0] == primary
    ensures Others(primary, 0) == []
  {
    forall i | 0 <= i < |TryOrder(primary, n)|
      ensures TryOrder(primary, n)[i] < n
    {
      if i > 0 {
        OthersMembers(primary, n, Others(primary, n)[i - 1]);
      }
    }
  }

  lemma OrderAt(primary: nat, i: nat, n: nat)
    requires i < n
    ensures |Others(primary, i + 1)| == |Others(primary, i)| + (if i == primary then 0 else 1)
    ensures
      i != primary ==>
      1 + |Others(primary, i)| < |TryOrder(primary, n)| && TryOrder(primary, n)[1 + |Others(primary, i)|] == i
  {
    OthersGrow(primary, i + 1, n);
  }

  lemma {:induction false} OthersMembers(primary: nat, n: nat, b: nat)
    ensures b in Others(primary, n) <==> b < n && b != primary
  {
    if n > 0 {
      OthersMembers(primary, n - 1, b);
    }
  }

  lemma {:induction false} OthersGrow(primary: nat, i: nat, n: nat)
    requires i <= n
    ensures Others(primary, i) <= Others(primary, n)
    decreases n
  {
    if i < n {
      OthersGrow(primary, i, n - 1);
    }
  }

  lemma {:induction false} OthersAscend(primary: nat, n: nat)
    ensures forall i, j | 0 <= i < j < |Others(primary, n)| :: Others(primary, n)[i] < Others(primary, n)[j]
  {
    if n > 0 {
      OthersAscend(primary, n - 1);
      var front := Others(primary, n - 1);
      forall i | 0 <= i < |front|
        ensures front[i] < n - 1
      {
        OthersMembers(primary, n - 1, front[i]);
      }
    }
  }

  /** The order asks every bot of the pool exactly once. */
  lemma EveryBotOnce(primary: nat, n: nat)
    requires primary < n
    ensures forall b: nat :: b in TryOrder(primary, n) <==> b < n
    ensures forall i, j | 0 <= i < j < |TryOrder(primary, n)| :: TryOrder(primary, n)[i] != TryOrder(primary, n)[j]
    ensures TryOrder(primary, n)[0] == primary
    ensures forall i, j | 1 <= i < j < |TryOrder(primary, n)| :: TryOrder(primary, n)[i] < TryOrder(primary, n)[j]
  {
    var order, rest := TryOrder(primary, n), Others(primary, n);
    forall b: nat
      ensures b in order <==> b < n
    {
      OthersMembers(primary, n, b);
    }
    OthersAscend(primary, n);
    forall i, j | 0 <= i < j < |order|
      ensures order[i] != order[j]
    {
      assert order[j] == rest[j - 1];
      if i == 0 {
        assert rest[j - 1] in rest;
        OthersMembers(primary, n, rest[j - 1]);
      } else {
        assert order[i] == rest[i - 1];
      }
    }
  }

  /** Some bot from the k-th on works, and those asked before it are merely down. */
  predicate Reachable(server: Server, order: seq<nat>, k: nat)
    requires AllInPool(order, |server.bots|)
  {
    exists i :: k <= i < |order| && server.bots[order[i]].Works? && forall j | k <= j < i :: server.bots[order[j]].Down?
  }

  /** A read succeeds exactly when the message is there and some bot works before any bot in the order is banned. */
  lemma {:induction false} ReadsExactlyWhen(server: Server, order: seq<nat>, k: nat, msg: nat, offset: nat, length: int)
    requires AllInPool(order, |server.bots|)
    ensures
      var r := FirstDecisive(server, order, k, msg, offset, length);
      && (r.Ok? <==> msg in server.files && Reachable(server, order, k))
      && (r.Ok? ==> r.data == Slice(server.files[msg], offset, length))
      && (r.Ok? && 0 < length ==> r.data == Cut(server.files[msg], offset, offset + length))
      && (r.Ok? && length <= 0 ==> r.data == Cut(server.files[msg], offset, |server.files[msg]|))
    decreases |order| - k
  {
    if k < |order| {
      ReadsExactlyWhen(server, order, k + 1, msg, offset, length);
      if server.bots[order[k]].Down? {
        if Reachable(server, order, k + 1) {
          var i :| k + 1 <= i < |order| && server.bots[order[i]].Works?
                   && forall j | k + 1 <= j < i :: server.bots[order[j]].Down?;
          assert forall j | k <= j < i :: server.bots[order[j]].Down?;
        }
      }
    }
  }

  /** A banned bot from the k-th on, and nothing asked before it is banned or can read the message. */
  predicate FoundBanned(server: Server, order: seq<nat>, k: nat, msg: nat)
    requires AllInPool(order, |server.bots|)
  {
    exists i ::
      && k <= i < |order| && server.bots[order[i]].Banned?
      && forall j | k <= j < i :: server.bots[order[j]].Down? || (server.bots[order[j]].Works? && msg !in server.files)
  }

  /** A failed read names the missing membership exactly when such a bot was found. */
  lemma {:induction false} FailsAs(server: Server, order: seq<nat>, k: nat, msg: nat, offset: nat, length: int)
    requires AllInPool(order, |server.bots|)
    ensures
      var r := FirstDecisive(server, order, k, msg, offset, length);
      && (r == Err(MembershipError) <==> FoundBanned(server, order, k, msg))
      && (r.Err? && r.error != MembershipError ==> r.error == OtherError)
    decreases |order| - k
  {
    hide Slice;
    if k < |order| {
      FailsAs(server, order, k + 1, msg, offset, length);
      var bot := server.bots[order[k]];
      if !bot.Banned? && (bot.Down? || msg !in server.files) && FoundBanned(server, order, k + 1, msg) {
        var i :| && k + 1 <= i < |order| && server.bots[order[i]].Banned?
                 && forall j | k + 1 <= j < i ::
                      server.bots[order[j]].Down? || (server.bots[order[j]].Works? && msg !in server.files);
        assert forall j | k <= j < i ::
                 server.bots[order[j]].Down? || (server.bots[order[j]].Works? && msg !in server.files);
      }
    }
  }

  // What decides a read

  /** The first bot that is not merely down works. */
  predicate FirstUpWorks(bots: seq<Reach>) {
    exists i :: 0 <= i < |bots| && bots[i].Works? && forall j | 0 <= j < i :: bots[j].Down?
  }

  /** The bot asked first works, or is merely down and so are those before the first one that works. */
  predicate ReadableFrom(server: Server, primary: nat)
    requires primary < |server.bots|
  {
    server.bots[primary].Works? || (server.bots[primary].Down? && FirstUpWorks(server.bots))
  }

  /** The bots that may be asked first for a message whose row names `botIndex`. */
  predicate MayStart(server: Server, botIndex: int, primary: nat) {
    primary < |server.bots| && (0 <= botIndex < |server.bots| ==> primary == botIndex)
  }

  predicate MayFail(server: Server, botIndex: int, msg: nat) {
    msg !in server.files || exists p: nat | p < |server.bots| :: MayStart(server, botIndex, p) && !ReadableFrom(server, p)
  }

  predicate MustFail(server: Server, botIndex: int, msg: nat) {
    msg !in server.files || forall p: nat | p < |server.bots| && MayStart(server, botIndex, p) :: !ReadableFrom(server, p)
  }

  /** For a row whose bot is still in the pool the two agree: whether a read fails is decided. */
  lemma OwnBotDecides(server: Server, botIndex: int, msg: nat)
    requires 0 <= botIndex < |server.bots|
    ensures MustFail(server, botIndex, msg) <==> msg !in server.files || !ReadableFrom(server, botIndex)
    ensures MayFail(server, botIndex, msg) <==> MustFail(server, botIndex, msg)
  {
    hide ReadableFrom;
    var own: nat := botIndex;
    assert MayStart(server, botIndex, own);
    assert forall p: nat | MayStart(server, botIndex, p) :: p == own;
  }

  lemma FirstUpIsAsked(server: Server, primary: nat)
    requires primary < |server.bots| && AllInPool(TryOrder(primary, |server.bots|), |server.bots|)
    requires server.bots[primary].Down? && FirstUpWorks(server.bots)
    ensures Reachable(server, TryOrder(primary, |server.bots|), 0)
  {
    var n := |server.bots|;
    var order, rest := TryOrder(primary, n), Others(primary, n);
    OthersAscend(primary, n);
    var b :| 0 <= b < n && server.bots[b].Works? && forall j | 0 <= j < b :: server.bots[j].Down?;
    OthersMembers(primary, n, b);
    var i :| 0 <= i < |rest| && rest[i] == b;
    hide Others;
    assert order[i + 1] == b;
    forall j | 0 <= j < i + 1
      ensures server.bots[order[j]].Down?
    {
      assert j == 0 || order[j] == rest[j - 1] < rest[i];
    }
  }

  lemma AskedIsFirstUp(server: Server, primary: nat)
    requires primary < |server.bots| && AllInPool(TryOrder(primary, |server.bots|), |server.bots|)
    requires server.bots[primary].Down? && Reachable(server, TryOrder(primary, |server.bots|), 0)
    ensures FirstUpWorks(server.bots)
  {
    var n := |server.bots|;
    var order := TryOrder(primary, n);
    var i :| 0 <= i < |order| && server.bots[order[i]].Works? && forall j | 0 <= j < i :: server.bots[order[j]].Down?;
    assert order[0] == primary;
    hide Others;
    forall b | 0 <= b < order[i]
      ensures server.bots[b].Down?
    {
      AskedBefore(primary, n, i, b);
    }
  }

  /** The order of the bots matters only through who is asked first and who is the first that is up. */
  lemma ReachableMeans(server: Server, primary: nat)
    requires primary < |server.bots| && AllInPool(TryOrder(primary, |server.bots|), |server.bots|)
    ensures Reachable(server, TryOrder(primary, |server.bots|), 0) <==> ReadableFrom(server, primary)
  {
    assert TryOrder(primary, |server.bots|)[0] == primary;
    hide Others, TryOrder, FirstUpWorks;
    if server.bots[primary].Down? {
      if Reachable(server, TryOrder(primary, |server.bots|), 0) {
        AskedIsFirstUp(server, primary);
      }
      if FirstUpWorks(server.bots) {
        FirstUpIsAsked(server, primary);
      }
    }
  }

  /** A bot below the i-th one asked, other than the first, is asked before it. */
  lemma AskedBefore(primary: nat, n: nat, i: nat, b: nat)
    requires 0 < i < |TryOrder(primary, n)| && b < TryOrder(primary, n)[i] && b < n
    ensures b == primary || exists j :: 0 <= j < i && TryOrder(primary, n)[j] == b
  {
    var rest := Others(primary, n);
    if b != primary {
      OthersMembers(primary, n, b);
      OthersAscend(primary, n);
      var k :| 0 <= k < |rest| && rest[k] == b;
      assert TryOrder(primary, n)[k + 1] == b;
      assert k < i - 1;
    }
  }

  lemma DecidedBy(server: Server, botIndex: int, primary: nat, msg: nat, offset: nat, length: int)
    requires MayStart(server, botIndex, primary) && AllInPool(TryOrder(primary, |server.bots|), |server.bots|)
    ensures
      var r := FirstDecisive(server, TryOrder(primary, |server.bots|), 0, msg, offset, length);
      && (r.Ok? ==>
            && msg in server.files && !MustFail(server, botIndex, msg)
            && r.data == Slice(server.files[msg], offset, length))
      && (r.Err? ==> MayFail(server, botIndex, msg))
  {
    hide ReadableFrom, FirstDecisive, TryOrder;
    ReadsExactlyWhen(server, TryOrder(primary, |server.bots|), 0, msg, offset, length);
    ReachableMeans(server, primary);
  }
}

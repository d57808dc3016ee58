/** The top of the stack: reading from any gateway that any run of requests can lead to. */
module GatewayReads {
  import opened ByteStrings
  import opened ChunkMaps
  import opened ByteRanges
  import opened Ownership
  import opened OwnershipProofs
  import opened Conservation
  import opened EndToEnd
  import Refinement
  import Prefetch = PrefetchModel
  import PrefetchTheorems
  import SS = SimpleStore

  const EMPTY_STORE: SS.Store := SS.Store(map[], map[])

  /** After any run from empty, a key is there exactly when the simple store has it, and with the same bytes. */
  lemma HoldsWhatTheStoreHolds(ops: seq<Op>, key: ObjectKey)
    requires PossibleRun(EMPTY, ops) && AllDrop(ops)
    ensures
      var g, store := After(EMPTY, ops), SS.ServeAll(EMPTY_STORE, ops);
      && (key in g.objects <==> key in store.objects)
      && (key in g.objects ==>
            && ObjectOk(g.files, g.objects[key])
            && Content(g.files, g.objects[key].chunks) == store.objects[key]
            && g.objects[key].size == |store.objects[key]|)
  {
    hide Inv, Step, Possible, SS.Serve, SS.RequestOf, Content, ObjectOk;
    EmptyInv();
    assert Refinement.View(EMPTY) == EMPTY_STORE;
    Refinement.RunRefines(EMPTY, ops);
    RunKeeps(EMPTY, ops);
    var g := After(EMPTY, ops);
    Refinement.ViewKeys(g);
    if key in g.objects {
      Refinement.ViewObjectAt(g, key);
      InvMeans(g);
      Refinement.ObjectsOkAt(g, key);
      WholeSize(g.files, g.objects[key]);
    }
  }

  lemma WholeSize(files: Files, row: ObjectRow)
    requires ObjectOk(files, row)
    ensures |Content(files, row.chunks)| == row.size
  {
    ContentSize(files, row.chunks);
  }

  /**
   After any run of requests, failed ones included, a GET of any range delivers, in every interleaving of its reader,
   a prefix of that range of what the simple store holds under the key.
   */
  lemma GetDelivers(ops: seq<Op>, key: ObjectKey, header: bytes, allowed: bool, a: Answer, s: Prefetch.State)
    requires PossibleRun(EMPTY, ops) && AllDrop(ops) && key in After(EMPTY, ops).objects
    requires
      var g := After(EMPTY, ops);
      Answers(a, header, allowed, g.objects[key].size, g.objects[key].chunks) && Serves(s, g.files, a)
    ensures key in SS.ServeAll(EMPTY_STORE, ops).objects
    ensures s.delivered <= Asked(SS.ServeAll(EMPTY_STORE, ops).objects[key], header, allowed)
  {
    hide Asked, Content, Tiles, Holds, Step, Possible, SS.Serve, SS.RequestOf;
    HoldsWhatTheStoreHolds(ops, key);
    var body := SS.ServeAll(EMPTY_STORE, ops).objects[key];
    WantedIsRequested(s.cfg, body, header, allowed, After(EMPTY, ops).objects[key].chunks, a);
    PrefetchTheorems.DeliveredInOrder(s);
  }

  /** ... and once an uncancelled reader answers EOF, exactly that range, of the announced length. */
  lemma GetCompletes(ops: seq<Op>, key: ObjectKey, header: bytes, allowed: bool, a: Answer, s: Prefetch.State, plen: nat)
    requires PossibleRun(EMPTY, ops) && AllDrop(ops) && key in After(EMPTY, ops).objects
    requires
      var g := After(EMPTY, ops);
      Answers(a, header, allowed, g.objects[key].size, g.objects[key].chunks) && Serves(s, g.files, a)
    requires !s.cancelled && Prefetch.ReadResultOf(s, plen).Eof?
    ensures key in SS.ServeAll(EMPTY_STORE, ops).objects
    ensures s.delivered == Asked(SS.ServeAll(EMPTY_STORE, ops).objects[key], header, allowed)
    ensures |s.delivered| == a.contentLength
  {
    hide Asked, Content, Tiles, Holds, Step, Possible, SS.Serve, SS.RequestOf, Prefetch.ReadResultOf;
    HoldsWhatTheStoreHolds(ops, key);
    var body := SS.ServeAll(EMPTY_STORE, ops).objects[key];
    WantedIsRequested(s.cfg, body, header, allowed, After(EMPTY, ops).objects[key].chunks, a);
    PrefetchTheorems.EofIsComplete(s, plen);
  }
}

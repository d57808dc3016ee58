/** Where every live message is: in exactly one row, or accounted for as left behind by a known operation. */
module Conservation {
  import opened ByteStrings
  import opened ChunkMaps
  import opened Etags
  import opened Multipart
  import opened Ownership
  import opened OwnershipProofs

  // Runs

  predicate PossibleRun(g: Gateway, ops: seq<Op>)
    decreases |ops|
  {
    ops == [] || (Possible(g, ops[0]) && PossibleRun(Step(g, ops[0]), ops[1..]))
  }

  function After(g: Gateway, ops: seq<Op>): Gateway
    requires PossibleRun(g, ops)
    decreases |ops|
  {
    if ops == [] then g else After(Step(g, ops[0]), ops[1..])
  }

  predicate AllDrop(ops: seq<Op>) {
    forall op | op in ops :: Drops(op)
  }

  const EMPTY: Gateway := Gateway(map[], map[], map[], 0)

  lemma EmptyInv()
    ensures Inv(EMPTY)
  {
    forall r
      ensures Row(EMPTY, r) == []
    {
    }
  }

  /** Over any run whose row drops commit, every referenced message is live, whole, and referenced by one row. */
  lemma {:induction false} RunKeeps(g: Gateway, ops: seq<Op>)
    requires Inv(g) && PossibleRun(g, ops) && AllDrop(ops)
    ensures Inv(After(g, ops))
    decreases |ops|
  {
    hide Inv, Step, Possible;
    if ops != [] {
      StepKeeps(g, ops[0]);
      RunKeeps(Step(g, ops[0]), ops[1..]);
    }
  }

  // When the row drop fails

  /** The messages are deleted but the rows that reference them stay. */
  predicate Dangles(g: Gateway, op: Op) {
    match op
    case Delete(key, kept, dropOk) => !dropOk && key in g.objects && !(Messages(g.objects[key].chunks) <= kept)
    case Abort(id, kept, dropOk) => !dropOk && id in g.uploads && !(PartMessages(g.uploads[id].parts) <= kept)
    case _ => false
  }

  lemma DeadRow(h: Gateway, r: RowId, m: nat)
    requires m in Messages(Row(h, r)) && m !in h.files
    ensures !Inv(h)
  {
    hide Row;
    if RowsOk(h) {
      RowHolds(h, r);
      assert false;
    }
  }

  lemma DanglingBreaks(g: Gateway, op: Op)
    requires Inv(g) && Possible(g, op) && Dangles(g, op)
    ensures !Inv(Step(g, op))
  {
    hide Inv;
    var h := Step(g, op);
    match op {
      case Delete(key, kept, _) =>
        var m :| m in Messages(g.objects[key].chunks) && m !in kept;
        DeadRow(h, AtObject(key), m);
      case Abort(id, kept, _) =>
        var m :| m in PartMessages(g.uploads[id].parts) && m !in kept;
        var n := PartMessage(g, id, m);
        DeadRow(h, AtPart(id, n), m);
    }
  }

  /** The invariant survives an operation unless its row drop fails after it deleted some message the row names. */
  lemma InvKeptExactly(g: Gateway, op: Op)
    requires Inv(g) && Possible(g, op)
    ensures Inv(Step(g, op)) <==> !Dangles(g, op)
  {
    hide Inv, PutRow, PutPartRow, Accepts;
    if Dangles(g, op) {
      DanglingBreaks(g, op);
    } else if Drops(op) {
      StepKeeps(g, op);
    } else {
      assert Step(g, op).files == g.files;
      assert Step(g, op) == g;
    }
  }

  /** One byte stored under `key`. */
  function OneByte(key: ObjectKey): Op {
    Put(key, Committed(NewUpload([Chunk(0, 0, 1, 0, 0)], map[0 := [7]], 1), {}))
  }

  /** After a single PUT, a DELETE of that object whose row drop fails: the row keeps a dead message. */
  lemma FailedDropBreaks(key: ObjectKey)
    ensures
      && PossibleRun(EMPTY, [OneByte(key)]) && Inv(After(EMPTY, [OneByte(key)]))
      && !Inv(Step(After(EMPTY, [OneByte(key)]), Delete(key, {}, false)))
  {
    OneByteRun(key);
    var g := Step(EMPTY, OneByte(key));
    OneByteStored(key);
    EmptyInv();
    DeletePossible(g, key);
    hide *;
    StepKeeps(EMPTY, OneByte(key));
    InvKeptExactly(g, Delete(key, {}, false));
  }

  lemma OneByteRun(key: ObjectKey)
    ensures Possible(EMPTY, OneByte(key)) && Drops(OneByte(key))
    ensures PossibleRun(EMPTY, [OneByte(key)]) && After(EMPTY, [OneByte(key)]) == Step(EMPTY, OneByte(key))
  {
    OneByteFits();
    assert [OneByte(key)][1..] == [];
    hide Step, FreshUpload;
  }

  lemma OneByteFits()
    ensures FreshUpload(EMPTY, NewUpload([Chunk(0, 0, 1, 0, 0)], map[0 := [7]], 1))
  {
    var chunks := [Chunk(0, 0, 1, 0, 0)];
    assert chunks[..0] == [];
    assert chunks[0] in chunks;
  }

  lemma OneByteStored(key: ObjectKey)
    requires Possible(EMPTY, OneByte(key))
    ensures Dangles(Step(EMPTY, OneByte(key)), Delete(key, {}, false))
  {
    assert Chunk(0, 0, 1, 0, 0) in Step(EMPTY, OneByte(key)).objects[key].chunks;
    assert 0 in Messages(Step(EMPTY, OneByte(key)).objects[key].chunks);
  }

  lemma DeletePossible(g: Gateway, key: ObjectKey)
    ensures Possible(g, Delete(key, {}, false))
  {
  }

  /** A delete that is repeated until its row drop commits ends where a single successful one would. */
  lemma RetriedDelete(g: Gateway, key: ObjectKey, kept: set<nat>, kept': set<nat>)
    requires key in g.objects
    ensures
      Step(Step(g, Delete(key, kept, false)), Delete(key, kept', true)) == Step(g, Delete(key, kept * kept', true))
  {
    var m := Messages(g.objects[key].chunks);
    assert g.files - (m - kept) - (m - kept') == g.files - (m - kept * kept');
  }

  lemma RetriedAbort(g: Gateway, id: string, kept: set<nat>, kept': set<nat>)
    requires id in g.uploads
    ensures Step(Step(g, Abort(id, kept, false)), Abort(id, kept', true)) == Step(g, Abort(id, kept * kept', true))
  {
    var m := PartMessages(g.uploads[id].parts);
    assert g.files - (m - kept) - (m - kept') == g.files - (m - kept * kept');
  }

  // Accounting

  function ObjectMessages(objects: map<ObjectKey, ObjectRow>): set<nat> {
    set k, c | k in objects && c in objects[k].chunks :: c.msg
  }

  function UploadMessages(uploads: map<string, UploadRow>): set<nat> {
    set id, n, c | id in uploads && n in uploads[id].parts && c in uploads[id].parts[n].chunks :: c.msg
  }

  function Referenced(g: Gateway): set<nat> {
    ObjectMessages(g.objects) + UploadMessages(g.uploads)
  }

  lemma ReferencedIff(g: Gateway, m: nat)
    ensures m in Referenced(g) <==> IsReferenced(g, m)
  {
    if m in ObjectMessages(g.objects) {
      var k, c :| k in g.objects && c in g.objects[k].chunks && c.msg == m;
      assert m in Messages(Row(g, AtObject(k)));
    } else if m in UploadMessages(g.uploads) {
      var id, n, c :| id in g.uploads && n in g.uploads[id].parts && c in g.uploads[id].parts[n].chunks && c.msg == m;
      assert m in Messages(Row(g, AtPart(id, n)));
    }
  }

  /** What one operation leaves live in the channel without any row referencing it. */
  function Trash(g: Gateway, op: Op): set<nat> {
    match op
    case Put(key, fate) => FateTrash(fate, Row(g, AtObject(key)))
    case Copy(_, key, fate) => FateTrash(fate, Row(g, AtObject(key)))
    case CreateUpload(_, _) => {}
    case UploadPart(id, n, _, fate) => FateTrash(fate, Row(g, AtPart(id, n)))
    case UploadPartCopy(id, n, _, _, _, _, fate) => FateTrash(fate, Row(g, AtPart(id, n)))
    case Complete(id, req, commitOk, kept) =>
      if Accepts(g, id, req) && commitOk then
        Unnamed(g.uploads[id].parts, req) + Messages(Row(g, AtObject(g.uploads[id].target))) * kept
      else {}
    case Abort(id, kept, _) => if id in g.uploads then PartMessages(g.uploads[id].parts) * kept else {}
    case Delete(key, kept, _) => Messages(Row(g, AtObject(key))) * kept
  }

  function FateTrash(fate: Fate, prior: seq<Chunk>): set<nat> {
    match fate
    case UploadFailed(junk, _) => junk.Keys
    case Refused(u, kept) => Messages(u.chunks) * kept
    case Committed(_, kept) => Messages(prior) * kept
  }

  /** The messages of uploaded parts that a Complete did not name. */
  function Unnamed(parts: Parts, req: seq<CompletePart>): set<nat> {
    PartMessages(parts) - NamedMessages(parts, req)
  }

  predicate Accounted(g: Gateway, garbage: set<nat>) {
    g.files.Keys == Referenced(g) + garbage && Referenced(g) !! garbage
  }

  lemma ReferencedReplace(g: Gateway, h: Gateway, r: RowId)
    requires Owned(g) && forall q | q != r :: Row(h, q) == Row(g, q)
    ensures Referenced(h) == Referenced(g) - Messages(Row(g, r)) + Messages(Row(h, r))
  {
    hide Referenced, Row, Messages;
    forall m: nat
      ensures m in Referenced(h) <==> m in Referenced(g) - Messages(Row(g, r)) + Messages(Row(h, r))
    {
      ReferencedIff(g, m);
      ReferencedIff(h, m);
      if IsReferenced(h, m) && m !in Messages(Row(h, r)) {
        var q :| m in Messages(Row(h, q));
        assert m in Messages(Row(g, q)) && q != r;
      } else if IsReferenced(g, m) && m !in Messages(Row(g, r)) {
        var q :| m in Messages(Row(g, q));
        assert m in Messages(Row(h, q));
      }
    }
  }

  lemma ReferencedDrop(g: Gateway, h: Gateway, id: string)
    requires Owned(g) && id in g.uploads
    requires h.objects == g.objects && h.uploads == g.uploads - {id}
    ensures Referenced(h) == Referenced(g) - PartMessages(g.uploads[id].parts)
  {
    hide Referenced, Row, Messages, PartMessages;
    RowsAfterAbort(g, h, id);
    forall m: nat
      ensures m in Referenced(h) <==> m in Referenced(g) - PartMessages(g.uploads[id].parts)
    {
      ReferencedIff(g, m);
      ReferencedIff(h, m);
      if IsReferenced(h, m) {
        var q :| m in Messages(Row(h, q));
        NothingInEmpty(h, q, m);
        assert m in Messages(Row(g, q)) && !(q.AtPart? && q.upload == id);
      }
      if IsReferenced(g, m) {
        var q :| m in Messages(Row(g, q));
        if q.AtPart? && q.upload == id {
          PartMessageIn(g, q, m);
        } else {
          PartsAreOwn(g, id, q);
          assert m in Messages(Row(h, q));
        }
      }
    }
  }

  lemma NothingInEmpty(g: Gateway, q: RowId, m: nat)
    requires m in Messages(Row(g, q))
    ensures Row(g, q) != []
  {
  }

  lemma PartMessageIn(g: Gateway, q: RowId, m: nat)
    requires q.AtPart? && q.upload in g.uploads && m in Messages(Row(g, q))
    ensures m in PartMessages(g.uploads[q.upload].parts)
  {
  }

  lemma MessagesLive(g: Gateway, r: RowId)
    requires Inv(g)
    ensures Messages(Row(g, r)) <= g.files.Keys && Messages(Row(g, r)) <= Referenced(g)
  {
    hide Referenced, Row;
    forall m | m in Messages(Row(g, r))
      ensures m in g.files && m in Referenced(g)
    {
      RowsAreOld(g, r, m);
      ReferencedIff(g, m);
    }
  }

  // Accounting, operation by operation

  lemma {:induction false} FateAccounted(g: Gateway, h: Gateway, fate: Fate, r: RowId, garbage: set<nat>)
    requires Inv(g) && PossibleFate(g, fate) && Accounted(g, garbage)
    requires h.files == Settle(g, fate, Row(g, r)).files
    requires fate.Committed? ==> forall q | q != r :: Row(h, q) == Row(g, q)
    requires fate.Committed? ==> Messages(Row(h, r)) == Messages(fate.upload.chunks)
    requires !fate.Committed? ==> Referenced(h) == Referenced(g)
    ensures Accounted(h, garbage + FateTrash(fate, Row(g, r)))
  {
    hide Referenced, Row, Messages, RowsOk;
    var gone := Messages(Row(g, r));
    MessagesLive(g, r);
    match fate {
      case UploadFailed(junk, _) =>
        assert forall m | m in junk :: m !in g.files;
        assert h.files.Keys == g.files.Keys + junk.Keys;
      case Refused(u, kept) =>
        assert forall m | m in u.files :: m !in g.files;
        assert h.files.Keys == g.files.Keys + Messages(u.chunks) * kept;
      case Committed(u, kept) =>
        ReferencedReplace(g, h, r);
        assert forall m | m in u.files :: m !in g.files;
        assert h.files.Keys == g.files.Keys + Messages(u.chunks) - (gone - kept);
    }
  }

  lemma PutAccounted(g: Gateway, key: ObjectKey, fate: Fate, garbage: set<nat>)
    requires Inv(g) && PossibleFate(g, fate) && Accounted(g, garbage)
    ensures Accounted(PutRow(g, key, fate), garbage + FateTrash(fate, Row(g, AtObject(key))))
  {
    hide Inv, Accounted, FateTrash, Row, Settle;
    var h := PutRow(g, key, fate);
    if fate.Committed? {
      RowsAfterPut(g, key, fate);
    } else {
      SettleTables(g, fate, Row(g, AtObject(key)));
    }
    FateAccounted(g, h, fate, AtObject(key), garbage);
  }

  lemma RowsAfterPut(g: Gateway, key: ObjectKey, fate: Fate)
    requires fate.Committed?
    ensures
      forall q :: Row(PutRow(g, key, fate), q) == if q == AtObject(key) then fate.upload.chunks else Row(g, q)
  {
  }

  lemma PartAccounted(g: Gateway, id: string, n: int, etag: bytes, fate: Fate, garbage: set<nat>)
    requires Inv(g) && PossibleFate(g, fate) && Accounted(g, garbage) && id in g.uploads
    ensures Accounted(PutPartRow(g, id, n, etag, fate), garbage + FateTrash(fate, Row(g, AtPart(id, n))))
  {
    hide Inv, Accounted, FateTrash, Row, DropOffsets, Settle;
    var h := PutPartRow(g, id, n, etag, fate);
    if fate.Committed? {
      RowsAfterPart(g, id, n, etag, fate);
      DropOffsetsMessages(fate.upload.chunks);
    } else {
      SettleTables(g, fate, Row(g, AtPart(id, n)));
    }
    FateAccounted(g, h, fate, AtPart(id, n), garbage);
  }

  lemma SettleTables(g: Gateway, fate: Fate, prior: seq<Chunk>)
    ensures Settle(g, fate, prior).objects == g.objects && Settle(g, fate, prior).uploads == g.uploads
  {
  }

  lemma DeleteAccounted(g: Gateway, key: ObjectKey, kept: set<nat>, garbage: set<nat>)
    requires Inv(g) && Accounted(g, garbage)
    ensures Accounted(Step(g, Delete(key, kept, true)), garbage + Messages(Row(g, AtObject(key))) * kept)
  {
    hide Referenced, Messages, RowsOk;
    var r, h := AtObject(key), Step(g, Delete(key, kept, true));
    if key in g.objects {
      RowsAfterDelete(g, h, key);
      ReferencedReplace(g, h, r);
      assert Messages([]) == {} by { NoMessages(); }
      MessagesLive(g, r);
    } else {
      assert Messages([]) == {} by { NoMessages(); }
    }
  }

  lemma NoMessages()
    ensures Messages([]) == {}
  {
  }

  lemma PartsLive(g: Gateway, id: string)
    requires Inv(g) && id in g.uploads
    ensures PartMessages(g.uploads[id].parts) <= g.files.Keys && PartMessages(g.uploads[id].parts) <= Referenced(g)
  {
    hide Referenced, Row;
    forall m | m in PartMessages(g.uploads[id].parts)
      ensures m in g.files && m in Referenced(g)
    {
      var n := PartMessage(g, id, m);
      MessagesLive(g, AtPart(id, n));
    }
  }

  lemma AbortAccounted(g: Gateway, id: string, kept: set<nat>, garbage: set<nat>)
    requires Inv(g) && Accounted(g, garbage) && id in g.uploads
    ensures Accounted(Step(g, Abort(id, kept, true)), garbage + PartMessages(g.uploads[id].parts) * kept)
  {
    hide Referenced, PartMessages, RowsOk, Owned;
    var h := Step(g, Abort(id, kept, true));
    assert Owned(g) by { InvMeans(g); }
    ReferencedDrop(g, h, id);
    PartsLive(g, id);
  }

  lemma CompleteAccounted(g: Gateway, id: string, req: seq<CompletePart>, kept: set<nat>, garbage: set<nat>)
    requires Inv(g) && Accounted(g, garbage) && Accepts(g, id, req)
    ensures Accounted(Step(g, Complete(id, req, true, kept)), garbage + Trash(g, Complete(id, req, true, kept)))
  {
    hide Referenced, PartMessages, NamedMessages, RowsOk, Owned, Accepts, Row, Messages, Gather, Renumber;
    hide Inv, IdsBelowNext, Content, ObjectOk;
    var h := Step(g, Complete(id, req, true, kept));
    assert Owned(g) by { InvMeans(g); }
    assert id in g.uploads by { AcceptedIsThere(g, id, req); }
    var u := g.uploads[id];
    var r := AtObject(u.target);
    var mid := g.(uploads := g.uploads - {id});
    RowsAfterAbort(g, mid, id);
    OwnedFewer(g, mid);
    ReferencedDrop(g, mid, id);
    RowsAfterComplete(g, h, id, u.target, h.objects[u.target]);
    ReferencedReplace(mid, h, r);
    CompletedObject(g, id, req);
    NamedArePart(u.parts, req);
    PartsLive(g, id);
    PartsAreOwn(g, id, r);
    MessagesLive(g, r);
    MovedSets(g.files.Keys, Referenced(g), garbage, PartMessages(u.parts), NamedMessages(u.parts, req),
              Messages(Row(g, r)), kept);
  }

  /** The set arithmetic of a Complete: part messages move into the object, the old object's go. */
  lemma MovedSets(live: set<nat>, referenced: set<nat>, garbage: set<nat>, parts: set<nat>, named: set<nat>,
                  prior: set<nat>, kept: set<nat>)
    requires live == referenced + garbage && referenced !! garbage
    requires parts <= referenced && prior <= referenced && parts !! prior && named <= parts
    ensures
      var live', referenced' := live - (prior - kept), referenced - parts - prior + named;
      var garbage' := garbage + ((parts - named) + prior * kept);
      live' == referenced' + garbage' && referenced' !! garbage'
  {
  }

  lemma CreateAccounted(g: Gateway, id: string, target: ObjectKey, garbage: set<nat>)
    requires Inv(g) && Accounted(g, garbage) && id !in g.uploads
    ensures Accounted(Step(g, CreateUpload(id, target)), garbage)
  {
    hide Referenced, Row, Messages, RowsOk;
    var h := Step(g, CreateUpload(id, target));
    RowsAfterCreate(g, h, id, target);
    ReferencedReplace(g, h, AtObject(target));
    MessagesLive(g, AtObject(target));
  }

  lemma RowsAfterCreate(g: Gateway, h: Gateway, id: string, target: ObjectKey)
    requires h.objects == g.objects && id !in g.uploads && h.uploads == g.uploads[id := UploadRow(target, map[])]
    ensures forall q :: Row(h, q) == Row(g, q)
  {
  }

  /** Exactly `Trash` joins the unreferenced messages at each step. */
  lemma StepAccounted(g: Gateway, op: Op, garbage: set<nat>)
    requires Inv(g) && Possible(g, op) && Drops(op) && Accounted(g, garbage)
    ensures Accounted(Step(g, op), garbage + Trash(g, op))
  {
    hide Inv, Accounted, Accepts, PutRow, PutPartRow, FateTrash, Messages, PartMessages, Unnamed;
    match op
    case Put(key, fate) => PutAccounted(g, key, fate, garbage);
    case Copy(_, key, fate) => PutAccounted(g, key, fate, garbage);
    case CreateUpload(id, target) =>
      assert garbage + {} == garbage;
      CreateAccounted(g, id, target, garbage);
    case UploadPart(id, n, etag, fate) => PartAccounted(g, id, n, etag, fate, garbage);
    case UploadPartCopy(id, n, etag, _, _, _, fate) => PartAccounted(g, id, n, etag, fate, garbage);
    case Complete(id, req, commitOk, kept) =>
      if Accepts(g, id, req) && commitOk {
        CompleteAccounted(g, id, req, kept, garbage);
      } else {
        assert garbage + {} == garbage;
      }
    case Abort(id, kept, _) =>
      if id in g.uploads {
        AbortAccounted(g, id, kept, garbage);
      } else {
        assert garbage + {} == garbage;
      }
    case Delete(key, kept, _) => DeleteAccounted(g, key, kept, garbage);
  }

  function RunTrash(g: Gateway, ops: seq<Op>): set<nat>
    requires PossibleRun(g, ops)
    decreases |ops|
  {
    if ops == [] then {} else Trash(g, ops[0]) + RunTrash(Step(g, ops[0]), ops[1..])
  }

  /** Conservation: over any run the live messages are the referenced ones and exactly what the run left behind. */
  lemma {:induction false} RunAccounted(g: Gateway, ops: seq<Op>, garbage: set<nat>)
    requires Inv(g) && PossibleRun(g, ops) && AllDrop(ops) && Accounted(g, garbage)
    ensures Accounted(After(g, ops), garbage + RunTrash(g, ops))
    decreases |ops|
  {
    hide Inv, Step, Possible, Trash, Accounted;
    if ops == [] {
      assert garbage + {} == garbage;
    } else {
      StepKeeps(g, ops[0]);
      StepAccounted(g, ops[0], garbage);
      RunAccounted(Step(g, ops[0]), ops[1..], garbage + Trash(g, ops[0]));
      assert garbage + Trash(g, ops[0]) + RunTrash(Step(g, ops[0]), ops[1..]) == garbage + RunTrash(g, ops);
    }
  }

  // Runs in which uploads and deletions succeed

  function Fated(op: Op): Option<Fate> {
    match op
    case Put(_, fate) => Some(fate)
    case Copy(_, _, fate) => Some(fate)
    case UploadPart(_, _, _, fate) => Some(fate)
    case UploadPartCopy(_, _, _, _, _, _, fate) => Some(fate)
    case _ => None
  }

  predicate Clean(op: Op) {
    match op
    case Complete(_, _, _, kept) => kept == {}
    case Abort(_, kept, dropOk) => kept == {} && dropOk
    case Delete(_, kept, dropOk) => kept == {} && dropOk
    case _ =>
      var fate := Fated(op);
      fate.Some? ==> !fate.value.UploadFailed? && fate.value.kept == {}
  }

  /** The messages of parts uploaded but not named, over the accepted and committed Completes of a run. */
  function RunUnnamed(g: Gateway, ops: seq<Op>): set<nat>
    requires PossibleRun(g, ops)
    decreases |ops|
  {
    if ops == [] then {}
    else
      var op := ops[0];
      (if op.Complete? && op.commitOk && Accepts(g, op.id, op.req) then Unnamed(g.uploads[op.id].parts, op.req) else {})
      + RunUnnamed(Step(g, op), ops[1..])
  }

  lemma {:induction false} CleanTrash(g: Gateway, ops: seq<Op>)
    requires PossibleRun(g, ops) && forall op | op in ops :: Clean(op)
    ensures RunTrash(g, ops) == RunUnnamed(g, ops) && AllDrop(ops)
    decreases |ops|
  {
    hide Step, Possible, Unnamed, Accepts, Row;
    if ops != [] {
      assert Clean(ops[0]);
      CleanTrash(Step(g, ops[0]), ops[1..]);
      assert Drops(ops[0]);
      assert forall op | op in ops :: op == ops[0] || op in ops[1..];
    }
  }

  /** From empty, when uploads and deletions succeed, nothing leaks but the parts a Complete did not name. */
  lemma CleanRunsLeakOnlyUnnamed(ops: seq<Op>)
    requires PossibleRun(EMPTY, ops) && forall op | op in ops :: Clean(op)
    ensures
      var g := After(EMPTY, ops);
      g.files.Keys == Referenced(g) + RunUnnamed(EMPTY, ops) && Referenced(g) !! RunUnnamed(EMPTY, ops)
  {
    hide Inv, Step, Possible, Unnamed, Accepts;
    EmptyInv();
    CleanTrash(EMPTY, ops);
    assert Accounted(EMPTY, {});
    RunAccounted(EMPTY, ops, {});
    assert {} + RunTrash(EMPTY, ops) == RunTrash(EMPTY, ops);
  }
}

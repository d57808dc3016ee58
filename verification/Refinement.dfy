/** The gateway, messages and chunk maps and failures included, behaves like the simple store. */
module Refinement {
  import opened ByteStrings
  import opened ChunkMaps
  import opened Etags
  import opened Multipart
  import opened Ownership
  import opened OwnershipProofs
  import opened Conservation
  import SS = SimpleStore

  function ViewObjects(g: Gateway): map<ObjectKey, bytes> {
    map k | k in g.objects :: Content(g.files, g.objects[k].chunks)
  }

  function ViewParts(files: Files, parts: Parts): map<int, SS.Part> {
    map n | n in parts :: SS.Part(parts[n].etag, Content(files, parts[n].chunks))
  }

  function ViewUploads(g: Gateway): map<string, SS.Upload> {
    map id | id in g.uploads :: SS.Upload(g.uploads[id].target, ViewParts(g.files, g.uploads[id].parts))
  }

  function View(g: Gateway): SS.Store {
    SS.Store(ViewObjects(g), ViewUploads(g))
  }

  // Frames

  /** Object rows other than `key`'s are the same, and their messages survived. */
  predicate ObjectsFramed(g: Gateway, h: Gateway, key: ObjectKey) {
    && h.objects.Keys - {key} == g.objects.Keys - {key}
    && forall k | k in g.objects && k != key ::
         k in h.objects && h.objects[k] == g.objects[k] && Survive(g.files, h.files, Messages(g.objects[k].chunks))
  }

  lemma ObjectsViewFramed(g: Gateway, h: Gateway, key: ObjectKey)
    requires RowsOk(g) && ObjectsFramed(g, h, key)
    ensures ViewObjects(h) - {key} == ViewObjects(g) - {key}
  {
    hide Content, Survive, ObjectOk, PartOk;
    forall k | k in g.objects && k != key
      ensures Content(h.files, h.objects[k].chunks) == Content(g.files, g.objects[k].chunks)
    {
      ObjectSurvives(g.files, h.files, g.objects[k]);
    }
    var a, b := ViewObjects(h) - {key}, ViewObjects(g) - {key};
    assert a.Keys == h.objects.Keys - {key} && b.Keys == g.objects.Keys - {key};
  }

  lemma PartsViewKept(g: Gateway, h: Gateway, id: string)
    requires RowsOk(g) && id in g.uploads
    requires forall n | n in g.uploads[id].parts :: Survive(g.files, h.files, Messages(Row(g, AtPart(id, n))))
    ensures ViewParts(h.files, g.uploads[id].parts) == ViewParts(g.files, g.uploads[id].parts)
  {
    hide Content, Survive, ObjectOk, PartOk, Row;
    forall n | n in g.uploads[id].parts
      ensures Content(h.files, g.uploads[id].parts[n].chunks) == Content(g.files, g.uploads[id].parts[n].chunks)
    {
      PartRowIs(g, id, n);
      PartSurvives(g.files, h.files, g.uploads[id].parts[n]);
    }
  }

  /** Uploads other than `id` are the same, and their parts' messages survived. */
  predicate UploadsFramed(g: Gateway, h: Gateway, id: string) {
    && h.uploads.Keys - {id} == g.uploads.Keys - {id}
    && (forall i | i in g.uploads && i != id :: i in h.uploads && h.uploads[i] == g.uploads[i])
    && forall i, n | i in g.uploads && i != id && n in g.uploads[i].parts ::
         Survive(g.files, h.files, Messages(Row(g, AtPart(i, n))))
  }

  lemma UploadsViewFramed(g: Gateway, h: Gateway, id: string)
    requires RowsOk(g) && UploadsFramed(g, h, id)
    ensures ViewUploads(h) - {id} == ViewUploads(g) - {id}
  {
    hide Survive, RowsOk, Row, ViewParts;
    forall i | i in g.uploads && i != id
      ensures ViewParts(h.files, h.uploads[i].parts) == ViewParts(g.files, g.uploads[i].parts)
    {
      PartsViewKept(g, h, i);
    }
    var a, b := ViewUploads(h) - {id}, ViewUploads(g) - {id};
    assert a.Keys == h.uploads.Keys - {id} && b.Keys == g.uploads.Keys - {id};
  }

  lemma SamePlus<K, V>(a: map<K, V>, b: map<K, V>, k: K)
    requires a - {k} == b - {k} && k in a
    ensures a == b[k := a[k]]
  {
    forall x | x in a
      ensures x in b[k := a[k]] && b[k := a[k]][x] == a[x]
    {
      if x != k {
        assert x in a - {k} && (a - {k})[x] == a[x];
      }
    }
    forall x | x in b[k := a[k]]
      ensures x in a
    {
      if x != k {
        assert x in b - {k};
      }
    }
  }

  lemma SameMinus<K, V>(a: map<K, V>, b: map<K, V>, k: K)
    requires a - {k} == b - {k} && k !in a
    ensures a == b - {k}
  {
    assert a - {k} == a;
  }

  /** When nothing a row references changed, the view is the same. */
  lemma NothingTouched(g: Gateway, h: Gateway)
    requires RowsOk(g) && h.objects == g.objects && h.uploads == g.uploads
    requires forall r :: Survive(g.files, h.files, Messages(Row(g, r)))
    ensures View(h) == View(g)
  {
    hide Survive, Row, RowsOk, ObjectOk;
    forall k | k in g.objects
      ensures Content(h.files, g.objects[k].chunks) == Content(g.files, g.objects[k].chunks)
    {
      ObjectRowIs(g, k);
      ObjectsOkAt(g, k);
      ObjectSurvives(g.files, h.files, g.objects[k]);
    }
    assert ViewObjects(h) == ViewObjects(g);
    forall id | id in g.uploads
      ensures ViewParts(h.files, g.uploads[id].parts) == ViewParts(g.files, g.uploads[id].parts)
    {
      PartsViewKept(g, h, id);
    }
    assert ViewUploads(h) == ViewUploads(g);
  }

  lemma ObjectsOkAt(g: Gateway, k: ObjectKey)
    requires RowsOk(g) && k in g.objects
    ensures ObjectOk(g.files, g.objects[k])
  {
  }

  /** Everything but one object row is as it was. */
  lemma OnlyObject(g: Gateway, h: Gateway, key: ObjectKey)
    requires Inv(g) && h.objects.Keys - {key} == g.objects.Keys - {key} && h.uploads == g.uploads
    requires forall k | k in g.objects && k != key :: k in h.objects && h.objects[k] == g.objects[k]
    requires forall q | q != AtObject(key) :: Survive(g.files, h.files, Messages(Row(g, q)))
    ensures ViewObjects(h) - {key} == ViewObjects(g) - {key} && ViewUploads(h) == ViewUploads(g)
  {
    hide Survive, Row, RowsOk, Owned, ViewObjects, ViewParts;
    forall k | k in g.objects && k != key
      ensures Survive(g.files, h.files, Messages(g.objects[k].chunks))
    {
      ObjectRowIs(g, k);
    }
    ObjectsViewFramed(g, h, key);
    forall id | id in g.uploads
      ensures ViewParts(h.files, g.uploads[id].parts) == ViewParts(g.files, g.uploads[id].parts)
    {
      PartsViewKept(g, h, id);
    }
  }

  // Operation by operation

  lemma PutRefines(g: Gateway, key: ObjectKey, fate: Fate)
    requires Inv(g) && PossibleFate(g, fate)
    ensures
      View(PutRow(g, key, fate)) == if fate.Committed? then SS.Serve(View(g), SS.PutBytes(key, NewContent(fate))) else View(g)
  {
    hide Row, RowsOk, Owned, Settle, ViewObjects, ViewUploads, Survive, Messages;
    var r, h := AtObject(key), PutRow(g, key, fate);
    SettleFiles(g, fate, r);
    SettleTables(g, fate, Row(g, r));
    if fate.Committed? {
      forall q | q != r
        ensures Survive(g.files, h.files, Messages(Row(g, q)))
      {
        OthersSurvive(g, h.files, r, q);
      }
      OnlyObject(g, h, key);
      PutViewAt(g, h, key, fate);
      SamePlus(ViewObjects(h), ViewObjects(g), key);
    } else {
      AllSurvive(g, h);
      NothingTouched(g, h);
    }
  }

  lemma PutViewAt(g: Gateway, h: Gateway, key: ObjectKey, fate: Fate)
    requires PossibleFate(g, fate) && fate.Committed?
    requires key in h.objects && h.objects[key].chunks == fate.upload.chunks
    requires Survive(fate.upload.files, h.files, fate.upload.files.Keys)
    ensures key in ViewObjects(h) && ViewObjects(h)[key] == NewContent(fate)
  {
    FreshHolds(fate.upload.files, h.files, fate.upload.chunks);
  }

  lemma AllSurvive(g: Gateway, h: Gateway)
    requires Survive(g.files, h.files, g.files.Keys)
    ensures forall r :: Survive(g.files, h.files, Messages(Row(g, r)))
  {
  }

  lemma DeleteRefines(g: Gateway, key: ObjectKey, kept: set<nat>)
    requires Inv(g)
    ensures View(Step(g, Delete(key, kept, true))) == SS.Serve(View(g), SS.Remove(key))
  {
    hide Row, RowsOk, Owned, ViewObjects, ViewUploads, Survive, Messages;
    var r, h := AtObject(key), Step(g, Delete(key, kept, true));
    if key in g.objects {
      ObjectRowIs(g, key);
      forall q | q != r
        ensures Survive(g.files, h.files, Messages(Row(g, q)))
      {
        OthersSurvive(g, h.files, r, q);
      }
      OnlyObject(g, h, key);
    }
    ViewKeys(h);
    SameMinus(ViewObjects(h), ViewObjects(g), key);
  }

  lemma ViewKeys(g: Gateway)
    ensures ViewObjects(g).Keys == g.objects.Keys && ViewUploads(g).Keys == g.uploads.Keys
  {
  }

  lemma ViewUploadAt(g: Gateway, id: string)
    requires id in g.uploads
    ensures
      id in ViewUploads(g) && ViewUploads(g)[id] == SS.Upload(g.uploads[id].target, ViewParts(g.files, g.uploads[id].parts))
  {
  }

  /** Objects keep their view when no object row changed or lost a message. */
  lemma ObjectsViewKept(g: Gateway, h: Gateway)
    requires RowsOk(g) && h.objects == g.objects
    requires forall k: ObjectKey :: Survive(g.files, h.files, Messages(Row(g, AtObject(k))))
    ensures ViewObjects(h) == ViewObjects(g)
  {
    hide Survive, Row, RowsOk, ObjectOk, Content;
    forall k | k in g.objects
      ensures Content(h.files, g.objects[k].chunks) == Content(g.files, g.objects[k].chunks)
    {
      ObjectRowIs(g, k);
      ObjectsOkAt(g, k);
      ObjectSurvives(g.files, h.files, g.objects[k]);
    }
  }

  lemma PartRefines(g: Gateway, id: string, n: int, etag: bytes, fate: Fate)
    requires Inv(g) && PossibleFate(g, fate) && id in g.uploads && HexDecode(etag).Some?
    ensures
      View(PutPartRow(g, id, n, etag, fate))
      == if fate.Committed? then SS.Serve(View(g), SS.PutPart(id, n, etag, NewContent(fate))) else View(g)
  {
    hide Row, RowsOk, Owned, Settle, ViewObjects, ViewUploads, Survive, Messages, HexDecode, ViewParts, DropOffsets;
    var r, h := AtPart(id, n), PutPartRow(g, id, n, etag, fate);
    SettleFiles(g, fate, r);
    SettleTables(g, fate, Row(g, r));
    if fate.Committed? {
      forall q | q != r
        ensures Survive(g.files, h.files, Messages(Row(g, q)))
      {
        OthersSurvive(g, h.files, r, q);
      }
      ObjectsViewKept(g, h);
      UploadsViewFramed(g, h, id);
      ViewUploadAt(h, id);
      ViewUploadAt(g, id);
      FreshHolds(fate.upload.files, h.files, fate.upload.chunks);
      FreshPart(h.files, fate.upload, etag);
      PartViewAt(g, h, id, n);
      SamePlus(ViewUploads(h), ViewUploads(g), id);
    } else {
      AllSurvive(g, h);
      NothingTouched(g, h);
    }
  }

  lemma PartViewAt(g: Gateway, h: Gateway, id: string, n: int)
    requires RowsOk(g) && id in g.uploads && id in h.uploads && n in h.uploads[id].parts
    requires h.uploads[id].parts == g.uploads[id].parts[n := h.uploads[id].parts[n]]
    requires forall q | q != AtPart(id, n) :: Survive(g.files, h.files, Messages(Row(g, q)))
    ensures
      var part := h.uploads[id].parts[n];
      ViewParts(h.files, h.uploads[id].parts)
      == ViewParts(g.files, g.uploads[id].parts)[n := SS.Part(part.etag, Content(h.files, part.chunks))]
  {
    hide Content, Survive, ObjectOk, PartOk, Row, RowsOk;
    forall m | m in g.uploads[id].parts && m != n
      ensures Content(h.files, g.uploads[id].parts[m].chunks) == Content(g.files, g.uploads[id].parts[m].chunks)
    {
      PartRowIs(g, id, m);
      RowsOkAt(g, id, m);
      PartSurvives(g.files, h.files, g.uploads[id].parts[m]);
    }
  }

  lemma AbortRefines(g: Gateway, id: string, kept: set<nat>)
    requires Inv(g)
    ensures View(Step(g, Abort(id, kept, true))) == SS.Serve(View(g), SS.Cancel(id))
  {
    hide Row, RowsOk, Owned, ViewObjects, ViewUploads, Survive, Messages, PartMessages;
    var h := Step(g, Abort(id, kept, true));
    if id in g.uploads {
      forall q: RowId | !(q.AtPart? && q.upload == id)
        ensures Survive(g.files, h.files, Messages(Row(g, q)))
      {
        PartsSurviveAbort(g, h, id, q, kept);
      }
      ObjectsViewKept(g, h);
      UploadsViewFramed(g, h, id);
    }
    ViewKeys(h);
    SameMinus(ViewUploads(h), ViewUploads(g), id);
  }

  lemma PartsSurviveAbort(g: Gateway, h: Gateway, id: string, q: RowId, kept: set<nat>)
    requires Owned(g) && id in g.uploads && !(q.AtPart? && q.upload == id)
    requires h.files == g.files - (PartMessages(g.uploads[id].parts) - kept)
    ensures Survive(g.files, h.files, Messages(Row(g, q)))
  {
    hide Row, PartMessages;
    PartsAreOwn(g, id, q);
  }

  lemma CreateRefines(g: Gateway, id: string, target: ObjectKey)
    requires Inv(g) && id !in g.uploads
    ensures View(Step(g, CreateUpload(id, target))) == SS.Serve(View(g), SS.Start(id, target))
  {
    hide Row, RowsOk, Owned, ViewObjects, ViewUploads, Messages;
    var h := Step(g, CreateUpload(id, target));
    assert RowsOk(g) by { InvMeans(g); }
    ObjectsViewKept(g, h);
    UploadsViewFramed(g, h, id);
    ViewUploadAt(h, id);
    assert ViewParts(h.files, map[]) == map[];
    SamePlus(ViewUploads(h), ViewUploads(g), id);
  }

  // Complete

  /** What the handler checks part by part is what makes a request acceptable. */
  lemma AcceptsExactly(g: Gateway, id: string, req: seq<CompletePart>)
    requires RowsOk(g) && id in g.uploads
    ensures Accepts(g, id, req) <==> SS.Acceptable(ViewParts(g.files, g.uploads[id].parts), req)
  {
    hide RowsOk, Matches, Content, ObjectOk;
    var parts := g.uploads[id].parts;
    var view := ViewParts(g.files, parts);
    forall n | n in parts
      ensures HexDecode(parts[n].etag).Some? && |view[n].content| == parts[n].size
    {
      RowsOkAt(g, id, n);
      PartContentSize(g.files, parts[n]);
    }
    if req != [] && Faultless(parts, req, |req|) {
      FaultlessAcceptable(parts, view, req);
    }
    if SS.Acceptable(view, req) {
      AcceptableFaultless(parts, view, req);
    }
  }

  predicate SameParts(parts: Parts, view: map<int, SS.Part>) {
    && parts.Keys == view.Keys
    && forall n | n in parts ::
         && view[n].etag == parts[n].etag && HexDecode(parts[n].etag).Some?
         && |view[n].content| == parts[n].size
  }

  lemma FaultlessAcceptable(parts: Parts, view: map<int, SS.Part>, req: seq<CompletePart>)
    requires SameParts(parts, view) && req != [] && Faultless(parts, req, |req|)
    ensures SS.Acceptable(view, req)
  {
    hide Matches, HexDecode, SameDigest;
    forall i | 0 <= i < |req|
      ensures 0 < req[i].number && req[i].number in view && SameDigest(req[i].etag, view[req[i].number].etag)
      ensures i < |req| - 1 ==> MIN_PART_SIZE <= |view[req[i].number].content|
    {
      FirstIsPositive(parts, req, i);
      PartsQualify(parts, req, i);
      MatchesSameDigest(req[i].etag, parts[req[i].number].etag);
    }
    forall i, j | 0 <= i < j < |req|
      ensures req[i].number < req[j].number
    {
      PartsAscend(parts, req, i, j);
    }
  }

  lemma AcceptableFaultless(parts: Parts, view: map<int, SS.Part>, req: seq<CompletePart>)
    requires SameParts(parts, view) && SS.Acceptable(view, req)
    ensures Faultless(parts, req, |req|)
  {
    hide Matches, HexDecode, SameDigest;
    forall i | 0 <= i < |req|
      ensures FaultAt(parts, req, i).None?
    {
      assert 0 < req[i].number;
      assert i > 0 ==> req[i - 1].number < req[i].number;
      assert req[i].number in view && SameDigest(req[i].etag, view[req[i].number].etag);
      MatchesSameDigest(req[i].etag, parts[req[i].number].etag);
    }
  }

  lemma {:induction false} PartContentSize(files: Files, part: PartRow)
    requires PartOk(files, part)
    ensures |Content(files, part.chunks)| == part.size
  {
    SumIsLength(files, part.chunks);
  }

  lemma {:induction false} SumIsLength(files: Files, chunks: seq<Chunk>)
    requires Holds(files, chunks)
    ensures |Content(files, chunks)| == SumSizes(chunks)
  {
    if chunks != [] {
      SumIsLength(files, chunks[..|chunks| - 1]);
    }
  }

  lemma JoinedView(files: Files, parts: Parts, req: seq<CompletePart>)
    ensures SS.Joined(ViewParts(files, parts), req) == Concat(PartContents(files, parts, req))
  {
    hide Concat, Content;
    var view := ViewParts(files, parts);
    var a := seq(|req|, i requires 0 <= i < |req| => if req[i].number in view then view[req[i].number].content else []);
    assert a == PartContents(files, parts, req);
  }

  lemma CompleteRefines(g: Gateway, id: string, req: seq<CompletePart>, kept: set<nat>)
    requires Inv(g) && Accepts(g, id, req)
    ensures View(Step(g, Complete(id, req, true, kept))) == SS.Serve(View(g), SS.Finish(id, req))
  {
    hide Row, Owned, RowsOk, ObjectOk, PartOk, PartMessages, NamedMessages, Gather, Renumber, Distinct, Accepts, Content;
    hide ViewObjects, ViewUploads, Messages, Survive, Concat, PartContents, SS.Acceptable, SS.Joined;
    var h := Step(g, Complete(id, req, true, kept));
    assert id in g.uploads by { AcceptedIsThere(g, id, req); }
    var u := g.uploads[id];
    var r := AtObject(u.target);
    CompletedObject(g, id, req);
    NamedArePart(u.parts, req);
    PartsAreOwn(g, id, r);
    SurvivesRemoval(g.files, Messages(Row(g, r)) - kept, Messages(h.objects[u.target].chunks));
    ObjectSurvives(g.files, h.files, h.objects[u.target]);
    forall q | q != r
      ensures Survive(g.files, h.files, Messages(Row(g, q)))
    {
      OthersSurvive(g, h.files, r, q);
    }
    OnlyObject(g, h.(uploads := g.uploads), u.target);
    SameObjectsView(h, h.(uploads := g.uploads));
    ViewObjectAt(h, u.target);
    SamePlus(ViewObjects(h), ViewObjects(g), u.target);
    UploadsViewFramed(g, h, id);
    ViewKeys(h);
    SameMinus(ViewUploads(h), ViewUploads(g), id);
    ViewUploadAt(g, id);
    AcceptsExactly(g, id, req);
    JoinedView(g.files, u.parts, req);
  }

  lemma SurvivesRemoval(files: Files, gone: set<nat>, msgs: set<nat>)
    requires gone !! msgs
    ensures Survive(files, files - gone, msgs)
  {
  }

  lemma SameObjectsView(g: Gateway, h: Gateway)
    requires g.objects == h.objects && g.files == h.files
    ensures ViewObjects(g) == ViewObjects(h)
  {
  }

  lemma ViewObjectAt(g: Gateway, k: ObjectKey)
    requires k in g.objects
    ensures k in ViewObjects(g) && ViewObjects(g)[k] == Content(g.files, g.objects[k].chunks)
  {
  }

  lemma CopyRefines(g: Gateway, op: Op)
    requires Inv(g) && Possible(g, op) && op.Copy?
    ensures View(Step(g, op)) == SS.Serve(View(g), SS.RequestOf(op))
  {
    hide Inv, PutRow, ViewObjects, ViewUploads, Content, Row;
    PutRefines(g, op.key, op.fate);
    ViewObjectAt(g, op.source);
    ObjectRowIs(g, op.source);
  }

  lemma PartWriteRefines(g: Gateway, op: Op)
    requires Inv(g) && Possible(g, op) && op.UploadPart?
    ensures View(Step(g, op)) == SS.Serve(View(g), SS.RequestOf(op))
  {
    hide Inv, PutPartRow, ViewObjects, ViewUploads, Content, HexDecode, Row;
    ViewUploadAt(g, op.id);
    PartRefines(g, op.id, op.number, op.etag, op.fate);
  }

  lemma PartCopyRefines(g: Gateway, op: Op)
    requires Inv(g) && Possible(g, op) && op.UploadPartCopy?
    ensures View(Step(g, op)) == SS.Serve(View(g), SS.RequestOf(op))
  {
    hide Inv, PutPartRow, ViewObjects, ViewUploads, Content, Laid, HexDecode, Row;
    ViewUploadAt(g, op.id);
    PartRefines(g, op.id, op.number, op.etag, op.fate);
    ViewObjectAt(g, op.source);
    SourceIsLaid(g, op.source);
  }

  lemma SourceIsLaid(g: Gateway, source: ObjectKey)
    requires Inv(g) && source in g.objects
    ensures Laid(g.files, g.objects[source].chunks) == Content(g.files, g.objects[source].chunks)
  {
    ObjectsOkAt(g, source);
    LaidIsContent(g.files, g.objects[source].chunks);
  }

  lemma FinishRefines(g: Gateway, op: Op)
    requires Inv(g) && op.Complete?
    ensures View(Step(g, op)) == SS.Serve(View(g), SS.RequestOf(op))
  {
    hide Inv, ViewObjects, ViewUploads, Content, Row, Accepts, SS.Acceptable, SS.Joined, Gather, Renumber;
    if Accepts(g, op.id, op.req) && op.commitOk {
      CompleteRefines(g, op.id, op.req, op.kept);
    } else {
      assert RowsOk(g) by { InvMeans(g); }
      RejectedRefines(g, op.id, op.req);
    }
  }

  /** Every operation, failures included, does to the view what its request does to the simple store. */
  lemma StepRefines(g: Gateway, op: Op)
    requires Inv(g) && Possible(g, op) && Drops(op)
    ensures View(Step(g, op)) == SS.Serve(View(g), SS.RequestOf(op))
  {
    hide Inv, Accepts, PutRow, PutPartRow, ViewObjects, ViewUploads, SS.Acceptable, SS.Joined, Content, PossibleFate;
    match op
    case Put(key, fate) => PutRefines(g, key, fate);
    case Copy(_, _, _) => CopyRefines(g, op);
    case CreateUpload(id, target) => CreateRefines(g, id, target);
    case UploadPart(_, _, _, _) => PartWriteRefines(g, op);
    case UploadPartCopy(_, _, _, _, _, _, _) => PartCopyRefines(g, op);
    case Complete(_, _, _, _) => FinishRefines(g, op);
    case Abort(id, kept, _) => AbortRefines(g, id, kept);
    case Delete(key, kept, _) => DeleteRefines(g, key, kept);
  }

  lemma RejectedRefines(g: Gateway, id: string, req: seq<CompletePart>)
    requires RowsOk(g)
    ensures !Accepts(g, id, req) ==> SS.Serve(View(g), SS.Finish(id, req)) == View(g)
  {
    hide ViewObjects, ViewUploads, SS.Acceptable, SS.Joined, RowsOk;
    ViewKeys(g);
    if id in g.uploads {
      ViewUploadAt(g, id);
      AcceptsExactly(g, id, req);
    } else {
      assert !Accepts(g, id, req);
    }
  }

  /** Over whole runs: reading any key gives what a store of plain byte strings would hold. */
  lemma {:induction false} RunRefines(g: Gateway, ops: seq<Op>)
    requires Inv(g) && PossibleRun(g, ops) && AllDrop(ops)
    ensures View(After(g, ops)) == SS.ServeAll(View(g), ops)
    decreases |ops|
  {
    hide Inv, Step, Possible, View, SS.Serve, SS.RequestOf;
    if ops != [] {
      StepKeeps(g, ops[0]);
      StepRefines(g, ops[0]);
      RunRefines(Step(g, ops[0]), ops[1..]);
    }
  }
}

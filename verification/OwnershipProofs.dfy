/** The ownership invariant is kept by every operation, and content survives everything that does not name it. */
module OwnershipProofs {
  import opened ByteStrings
  import opened ChunkMaps
  import opened Etags
  import opened Multipart
  import opened Ownership

  lemma RowHolds(g: Gateway, r: RowId)
    requires RowsOk(g)
    ensures Holds(g.files, Row(g, r))
  {
    match r
    case AtObject(key) => assert key in g.objects ==> ObjectOk(g.files, g.objects[key]);
    case AtPart(id, n) =>
  }

  /** No row references a message that has not been handed out. */
  lemma RowsAreOld(g: Gateway, r: RowId, m: nat)
    requires RowsOk(g) && IdsBelowNext(g) && m in Messages(Row(g, r))
    ensures m in g.files && m < g.nextMsg
  {
    RowHolds(g, r);
  }

  predicate Survive(before: Files, after: Files, msgs: set<nat>) {
    forall m | m in msgs && m in before :: m in after && after[m] == before[m]
  }

  lemma ObjectSurvives(before: Files, after: Files, row: ObjectRow)
    requires ObjectOk(before, row) && Survive(before, after, Messages(row.chunks))
    ensures ObjectOk(after, row) && Content(after, row.chunks) == Content(before, row.chunks)
  {
    forall c | c in row.chunks
      ensures c.msg in after && after[c.msg] == before[c.msg]
    {
      assert c.msg in Messages(row.chunks);
    }
    ContentFrame(before, after, row.chunks);
  }

  lemma PartSurvives(before: Files, after: Files, part: PartRow)
    requires PartOk(before, part) && Survive(before, after, Messages(part.chunks))
    ensures PartOk(after, part) && Content(after, part.chunks) == Content(before, part.chunks)
  {
    forall c | c in part.chunks
      ensures c.msg in after && after[c.msg] == before[c.msg]
    {
      assert c.msg in Messages(part.chunks);
    }
    ContentFrame(before, after, part.chunks);
  }

  /** Replacing the messages of one row by messages no other row has keeps single ownership. */
  lemma OwnedReplace(g: Gateway, h: Gateway, r: RowId)
    requires Owned(g) && Distinct(Row(h, r))
    requires forall q | q != r :: Row(h, q) == Row(g, q)
    requires forall q | q != r :: Messages(Row(h, r)) !! Messages(Row(g, q))
    ensures Owned(h)
  {
    forall p
      ensures Distinct(Row(h, p))
    {
      assert p == r || Row(h, p) == Row(g, p);
    }
    forall p, q | p != q
      ensures Messages(Row(h, p)) !! Messages(Row(h, q))
    {
      assert p == r || Row(h, p) == Row(g, p);
      assert q == r || Row(h, q) == Row(g, q);
    }
  }

  /** Removing messages of one row leaves every other row's alone. */
  lemma OthersSurvive(g: Gateway, after: Files, r: RowId, q: RowId)
    requires Owned(g) && q != r
    requires forall m | m in g.files && m !in Messages(Row(g, r)) :: m in after && after[m] == g.files[m]
    ensures Survive(g.files, after, Messages(Row(g, q)))
  {
  }

  /** What a write does to the channel, whatever its fate. */
  lemma SettleFiles(g: Gateway, fate: Fate, r: RowId)
    requires Inv(g) && PossibleFate(g, fate)
    ensures
      var h := Settle(g, fate, Row(g, r));
      && h.objects == g.objects && h.uploads == g.uploads && IdsBelowNext(h)
      && (forall m | m in g.files && m !in Messages(Row(g, r)) :: m in h.files && h.files[m] == g.files[m])
      && (!fate.Committed? ==> Survive(g.files, h.files, g.files.Keys))
      && (fate.Committed? ==> Survive(fate.upload.files, h.files, fate.upload.files.Keys))
  {
    hide Owned, RowsOk;
    if fate.Committed? {
      forall m | m in Messages(Row(g, r))
        ensures m !in fate.upload.files
      {
        RowsAreOld(g, r, m);
      }
    }
  }

  lemma FreshIsUnowned(g: Gateway, u: NewUpload, q: RowId)
    requires Inv(g) && FreshUpload(g, u)
    ensures Messages(u.chunks) !! Messages(Row(g, q))
  {
    forall m | m in Messages(Row(g, q))
      ensures m !in Messages(u.chunks)
    {
      RowsAreOld(g, q, m);
    }
  }

  /** Tables that did not change over a channel that lost nothing they reference. */
  lemma SameTables(g: Gateway, h: Gateway)
    requires Inv(g) && h.objects == g.objects && h.uploads == g.uploads && IdsBelowNext(h)
    requires forall r :: Survive(g.files, h.files, Messages(Row(g, r)))
    ensures Inv(h)
  {
    forall r
      ensures Row(h, r) == Row(g, r)
    {
    }
    forall k | k in h.objects
      ensures ObjectOk(h.files, h.objects[k])
    {
      assert Row(g, AtObject(k)) == g.objects[k].chunks;
      ObjectSurvives(g.files, h.files, g.objects[k]);
    }
    forall id, n | id in h.uploads && n in h.uploads[id].parts
      ensures PartOk(h.files, h.uploads[id].parts[n])
    {
      assert Row(g, AtPart(id, n)) == g.uploads[id].parts[n].chunks;
      PartSurvives(g.files, h.files, g.uploads[id].parts[n]);
    }
    hide RowsOk;
    assert Owned(h);
  }

  lemma PutRowKeeps(g: Gateway, key: ObjectKey, fate: Fate)
    requires Inv(g) && PossibleFate(g, fate)
    ensures Inv(PutRow(g, key, fate))
  {
    hide Inv, Settle;
    var r, h := AtObject(key), PutRow(g, key, fate);
    SettleFiles(g, fate, r);
    if !fate.Committed? {
      SameTables(g, h);
    } else {
      CommittedPut(g, key, fate);
    }
  }

  lemma CommittedPut(g: Gateway, key: ObjectKey, fate: Fate)
    requires Inv(g) && PossibleFate(g, fate) && fate.Committed?
    ensures Inv(PutRow(g, key, fate))
  {
    hide Settle, Row, Owned, RowsOk, Holds, Distinct, ObjectOk, PartOk, Messages;
    var r, h := AtObject(key), PutRow(g, key, fate);
    SettleFiles(g, fate, r);
    RowsAfterPut(g, key, fate);
    forall q
      ensures Messages(fate.upload.chunks) !! Messages(Row(g, q))
    {
      FreshIsUnowned(g, fate.upload, q);
    }
    OwnedReplace(g, h, r);
    var rest := h.(objects := h.objects - {key});
    OtherObjectsOk(g, rest, r);
    PartsSurviveObject(g, h, r);
    AllRowsOk(rest);
    FreshObject(h.files, fate.upload);
    RowsOkPlus(rest, h, key);
  }

  lemma RowsAfterPut(g: Gateway, key: ObjectKey, fate: Fate)
    requires fate.Committed?
    ensures forall q :: Row(PutRow(g, key, fate), q) == if q == AtObject(key) then fate.upload.chunks else Row(g, q)
  {
  }

  /** Part rows are still whole after an object row's messages were removed. */
  lemma PartsSurviveObject(g: Gateway, h: Gateway, r: RowId)
    requires Owned(g) && RowsOk(g) && r.AtObject? && h.uploads == g.uploads
    requires forall m | m in g.files && m !in Messages(Row(g, r)) :: m in h.files && h.files[m] == g.files[m]
    ensures forall id, n | id in h.uploads && n in h.uploads[id].parts :: PartOk(h.files, h.uploads[id].parts[n])
  {
    hide Row, Owned, RowsOk, PartOk, Messages;
    forall id, n | id in h.uploads && n in h.uploads[id].parts
      ensures PartOk(h.files, h.uploads[id].parts[n])
    {
      PartRowIs(g, id, n);
      OthersSurvive(g, h.files, r, AtPart(id, n));
      RowsOkAt(g, id, n);
      PartSurvives(g.files, h.files, g.uploads[id].parts[n]);
    }
  }

  lemma FreshObject(files: Files, u: NewUpload)
    requires Tiles(u.chunks) && Holds(u.files, u.chunks) && Survive(u.files, files, u.files.Keys)
    ensures ObjectOk(files, ObjectRow(Total(u.chunks), u.chunks))
  {
    hide Tiles, Total;
    FreshHolds(u.files, files, u.chunks);
  }

  // Parts

  lemma {:induction false} DropOffsetsSums(files: Files, chunks: seq<Chunk>)
    requires Tiles(chunks)
    ensures SumSizes(DropOffsets(chunks)) == Total(chunks)
    ensures Content(files, DropOffsets(chunks)) == Content(files, chunks)
  {
    if chunks != [] {
      var n := |chunks| - 1;
      TilesPrefix(chunks, n);
      DropOffsetsSums(files, chunks[..n]);
      assert DropOffsets(chunks)[..n] == DropOffsets(chunks[..n]);
    }
  }

  lemma DropOffsetsMessages(chunks: seq<Chunk>)
    ensures Messages(DropOffsets(chunks)) == Messages(chunks)
  {
    var dropped := DropOffsets(chunks);
    forall m | m in Messages(chunks)
      ensures m in Messages(dropped)
    {
      var i :| 0 <= i < |chunks| && chunks[i].msg == m;
      assert dropped[i] in dropped;
    }
  }

  lemma DropOffsetsHolds(files: Files, chunks: seq<Chunk>)
    requires Holds(files, chunks)
    ensures Holds(files, DropOffsets(chunks))
  {
    var dropped := DropOffsets(chunks);
    forall c | c in dropped
      ensures c.msg in files && |files[c.msg]| == c.size
    {
      var i :| 0 <= i < |dropped| && dropped[i] == c;
      assert chunks[i] in chunks;
    }
  }

  lemma FreshPart(files: Files, u: NewUpload, etag: bytes)
    requires Tiles(u.chunks) && Holds(files, u.chunks) && Distinct(u.chunks) && HexDecode(etag).Some?
    ensures
      var part := PartRow(etag, Total(u.chunks), DropOffsets(u.chunks));
      && PartOk(files, part) && Distinct(part.chunks)
      && Content(files, part.chunks) == Content(files, u.chunks)
      && Messages(part.chunks) == Messages(u.chunks)
  {
    hide HexDecode, Content, SumSizes, Holds, Messages, Total;
    DropOffsetsSums(files, u.chunks);
    DropOffsetsMessages(u.chunks);
    DropOffsetsHolds(files, u.chunks);
  }

  lemma FreshHolds(before: Files, after: Files, chunks: seq<Chunk>)
    requires Holds(before, chunks) && Survive(before, after, Messages(chunks))
    ensures Holds(after, chunks) && Content(after, chunks) == Content(before, chunks)
  {
    forall c | c in chunks
      ensures c.msg in after && after[c.msg] == before[c.msg]
    {
      assert c.msg in Messages(chunks);
    }
    ContentFrame(before, after, chunks);
  }

  lemma PutPartRowKeeps(g: Gateway, id: string, n: int, etag: bytes, fate: Fate)
    requires Inv(g) && PossibleFate(g, fate) && id in g.uploads && HexDecode(etag).Some?
    ensures Inv(PutPartRow(g, id, n, etag, fate))
  {
    hide Inv, Settle;
    var r, h := AtPart(id, n), PutPartRow(g, id, n, etag, fate);
    SettleFiles(g, fate, r);
    if !fate.Committed? {
      SameTables(g, h);
    } else {
      CommittedPart(g, id, n, etag, fate);
    }
  }

  lemma CommittedPart(g: Gateway, id: string, n: int, etag: bytes, fate: Fate)
    requires Inv(g) && PossibleFate(g, fate) && id in g.uploads && HexDecode(etag).Some? && fate.Committed?
    ensures Inv(PutPartRow(g, id, n, etag, fate))
  {
    hide Settle, HexDecode, DropOffsets, Row, Owned, RowsOk, Holds, Distinct;
    var r, h := AtPart(id, n), PutPartRow(g, id, n, etag, fate);
    SettleFiles(g, fate, r);
    FreshHolds(fate.upload.files, h.files, fate.upload.chunks);
    FreshPart(h.files, fate.upload, etag);
    RowsAfterPart(g, id, n, etag, fate);
    forall q
      ensures Messages(fate.upload.chunks) !! Messages(Row(g, q))
    {
      FreshIsUnowned(g, fate.upload, q);
    }
    OwnedReplace(g, h, r);
    OtherObjectsOk(g, h, r);
    OtherPartsOk(g, h, id, n);
    AllRowsOk(h);
  }

  lemma AllRowsOk(h: Gateway)
    requires forall k | k in h.objects :: ObjectOk(h.files, h.objects[k])
    requires forall id, n | id in h.uploads && n in h.uploads[id].parts :: PartOk(h.files, h.uploads[id].parts[n])
    ensures RowsOk(h)
  {
  }

  lemma RowsAfterPart(g: Gateway, id: string, n: int, etag: bytes, fate: Fate)
    requires id in g.uploads && fate.Committed?
    ensures
      forall q :: Row(PutPartRow(g, id, n, etag, fate), q)
                  == if q == AtPart(id, n) then DropOffsets(fate.upload.chunks) else Row(g, q)
  {
    hide DropOffsets;
  }

  /** Parts whose row did not change are still whole after another part's messages were removed. */
  lemma OtherPartsOk(g: Gateway, h: Gateway, id: string, n: int)
    requires Owned(g) && RowsOk(g) && id in g.uploads && id in h.uploads && n in h.uploads[id].parts
    requires h.uploads == g.uploads[id := h.uploads[id]]
    requires h.uploads[id].parts == g.uploads[id].parts[n := h.uploads[id].parts[n]]
    requires PartOk(h.files, h.uploads[id].parts[n])
    requires
      forall m | m in g.files && m !in Messages(Row(g, AtPart(id, n))) :: m in h.files && h.files[m] == g.files[m]
    ensures forall id', n' | id' in h.uploads && n' in h.uploads[id'].parts :: PartOk(h.files, h.uploads[id'].parts[n'])
  {
    forall id', n' | id' in h.uploads && n' in h.uploads[id'].parts
      ensures PartOk(h.files, h.uploads[id'].parts[n'])
    {
      if id' != id || n' != n {
        OthersSurvive(g, h.files, AtPart(id, n), AtPart(id', n'));
        PartSurvives(g.files, h.files, g.uploads[id'].parts[n']);
      }
    }
  }

  /** Objects whose row did not change are still whole after another row's messages were removed. */
  lemma OtherObjectsOk(g: Gateway, h: Gateway, r: RowId)
    requires Owned(g) && RowsOk(g) && h.objects.Keys <= g.objects.Keys
    requires forall k | k in h.objects :: AtObject(k) != r && h.objects[k] == g.objects[k]
    requires forall m | m in g.files && m !in Messages(Row(g, r)) :: m in h.files && h.files[m] == g.files[m]
    ensures forall k | k in h.objects :: ObjectOk(h.files, h.objects[k])
  {
    forall k | k in h.objects
      ensures ObjectOk(h.files, h.objects[k])
    {
      OthersSurvive(g, h.files, r, AtObject(k));
      ObjectSurvives(g.files, h.files, g.objects[k]);
    }
  }

  // Removing rows

  lemma DeleteKeeps(g: Gateway, key: ObjectKey, kept: set<nat>)
    requires Inv(g) && key in g.objects
    ensures Inv(Step(g, Delete(key, kept, true)))
  {
    hide Row, Owned, RowsOk, ObjectOk, PartOk;
    var r, h := AtObject(key), Step(g, Delete(key, kept, true));
    assert forall q :: Row(h, q) == if q == r then [] else Row(g, q) by {
      RowsAfterDelete(g, h, key);
    }
    assert Row(g, r) == g.objects[key].chunks by {
      ObjectRowIs(g, key);
    }
    OwnedReplace(g, h, r);
    OtherObjectsOk(g, h, r);
    PartsSurviveObject(g, h, r);
    AllRowsOk(h);
  }

  lemma ObjectRowIs(g: Gateway, key: ObjectKey)
    requires key in g.objects
    ensures Row(g, AtObject(key)) == g.objects[key].chunks
  {
  }

  lemma PartRowIs(g: Gateway, id: string, n: int)
    requires id in g.uploads && n in g.uploads[id].parts
    ensures Row(g, AtPart(id, n)) == g.uploads[id].parts[n].chunks
  {
  }

  lemma RowsOkAt(g: Gateway, id: string, n: int)
    requires RowsOk(g) && id in g.uploads && n in g.uploads[id].parts
    ensures PartOk(g.files, g.uploads[id].parts[n])
  {
  }

  lemma RowsAfterDelete(g: Gateway, h: Gateway, key: ObjectKey)
    requires h.objects == g.objects - {key} && h.uploads == g.uploads
    ensures forall q :: Row(h, q) == if q == AtObject(key) then [] else Row(g, q)
  {
  }

  /** The rows of an upload are gone and nothing else changed. */
  lemma RowsAfterAbort(g: Gateway, h: Gateway, id: string)
    requires h.objects == g.objects && h.uploads == g.uploads - {id}
    ensures forall q :: Row(h, q) == if q.AtPart? && q.upload == id then [] else Row(g, q)
  {
  }

  lemma PartMessage(g: Gateway, id: string, m: nat) returns (n: int)
    requires id in g.uploads && m in PartMessages(g.uploads[id].parts)
    ensures m in Messages(Row(g, AtPart(id, n)))
  {
    var number, c :| number in g.uploads[id].parts && c in g.uploads[id].parts[number].chunks && c.msg == m;
    n := number;
  }

  /** The messages of an upload's parts are in no row but its own. */
  lemma PartsAreOwn(g: Gateway, id: string, q: RowId)
    requires Owned(g) && id in g.uploads && !(q.AtPart? && q.upload == id)
    ensures PartMessages(g.uploads[id].parts) !! Messages(Row(g, q))
  {
    forall m | m in PartMessages(g.uploads[id].parts)
      ensures m !in Messages(Row(g, q))
    {
      var n := PartMessage(g, id, m);
    }
  }

  /** Dropping rows keeps single ownership. */
  lemma OwnedFewer(g: Gateway, h: Gateway)
    requires Owned(g) && forall q :: Row(h, q) == [] || Row(h, q) == Row(g, q)
    ensures Owned(h)
  {
    forall p, q | p != q
      ensures Messages(Row(h, p)) !! Messages(Row(h, q))
    {
      if Row(h, p) != [] && Row(h, q) != [] {
        assert Row(h, p) == Row(g, p) && Row(h, q) == Row(g, q);
      }
    }
  }

  /** Rows that are still there and whose messages survived are still whole. */
  lemma KeptRowsOk(g: Gateway, h: Gateway)
    requires RowsOk(g)
    requires forall k | k in h.objects :: k in g.objects && h.objects[k] == g.objects[k]
    requires
      forall id, n | id in h.uploads && n in h.uploads[id].parts ::
        id in g.uploads && n in g.uploads[id].parts && h.uploads[id].parts[n] == g.uploads[id].parts[n]
    requires forall k | k in h.objects :: Survive(g.files, h.files, Messages(Row(g, AtObject(k))))
    requires
      forall id, n | id in h.uploads && n in h.uploads[id].parts ::
        Survive(g.files, h.files, Messages(Row(g, AtPart(id, n))))
    ensures RowsOk(h)
  {
    hide Survive, Messages, ObjectOk, PartOk;
    forall k | k in h.objects
      ensures ObjectOk(h.files, h.objects[k])
    {
      ObjectSurvives(g.files, h.files, g.objects[k]);
    }
    forall id, n | id in h.uploads && n in h.uploads[id].parts
      ensures PartOk(h.files, h.uploads[id].parts[n])
    {
      PartSurvives(g.files, h.files, g.uploads[id].parts[n]);
    }
  }

  lemma AbortKeeps(g: Gateway, id: string, kept: set<nat>)
    requires Inv(g) && id in g.uploads
    ensures Inv(Step(g, Abort(id, kept, true)))
  {
    hide Row, Owned, RowsOk, ObjectOk, PartOk, PartMessages;
    var h := Step(g, Abort(id, kept, true));
    RowsAfterAbort(g, h, id);
    OwnedFewer(g, h);
    forall q: RowId | !(q.AtPart? && q.upload == id)
      ensures Survive(g.files, h.files, Messages(Row(g, q)))
    {
      PartsAreOwn(g, id, q);
    }
    KeptRowsOk(g, h);
  }

  // Complete

  lemma {:induction false} RenumberAt(chunks: seq<Chunk>, i: nat)
    requires i < |chunks|
    ensures Renumber(chunks)[i].msg == chunks[i].msg
  {
    if i < |chunks| - 1 {
      RenumberAt(chunks[..|chunks| - 1], i);
    }
  }

  lemma RenumberDistinct(chunks: seq<Chunk>)
    requires Distinct(chunks)
    ensures Distinct(Renumber(chunks))
  {
    var r := Renumber(chunks);
    forall i, j | 0 <= i < j < |r|
      ensures r[i].msg != r[j].msg
    {
      RenumberAt(chunks, i);
      RenumberAt(chunks, j);
    }
  }

  lemma DistinctAppend(a: seq<Chunk>, b: seq<Chunk>)
    requires Distinct(a) && Distinct(b) && Messages(a) !! Messages(b)
    ensures Distinct(a + b)
  {
    forall i, j | 0 <= i < j < |a + b|
      ensures (a + b)[i].msg != (a + b)[j].msg
    {
      if i < |a| <= j {
        assert a[i] in a && b[j - |a|] in b;
        assert a[i].msg in Messages(a) && b[j - |a|].msg in Messages(b);
      }
    }
  }

  /** The messages of the parts a request names. */
  function NamedMessages(parts: Parts, req: seq<CompletePart>): set<nat> {
    set p, c | p in req && p.number in parts && c in parts[p.number].chunks :: c.msg
  }

  lemma {:induction false} GatherMessages(parts: Parts, req: seq<CompletePart>)
    ensures Messages(Gather(parts, req)) == NamedMessages(parts, req)
  {
    if req != [] {
      var front, last := req[..|req| - 1], req[|req| - 1];
      GatherMessages(parts, front);
      var mine := if last.number in parts then parts[last.number].chunks else [];
      MessagesAppend(Gather(parts, front), mine);
      assert req == front + [last];
      assert NamedMessages(parts, req) == NamedMessages(parts, front) + Messages(mine);
    }
  }

  predicate NumbersDiffer(req: seq<CompletePart>) {
    forall i, j | 0 <= i < j < |req| :: req[i].number != req[j].number
  }

  /** Different parts share no message, so what a request without repeats gathers has none twice. */
  lemma {:induction false} GatherDistinct(g: Gateway, id: string, req: seq<CompletePart>)
    requires Owned(g) && id in g.uploads && NumbersDiffer(req)
    ensures Distinct(Gather(g.uploads[id].parts, req))
  {
    hide Distinct;
    if req == [] {
      assert Distinct([]) by { NothingDistinct(); }
    } else {
      var parts := g.uploads[id].parts;
      var n := |req| - 1;
      GatherDistinct(g, id, req[..n]);
      GatherMessages(parts, req[..n]);
      if req[n].number in parts {
        PartRowIs(g, id, req[n].number);
        forall m | m in NamedMessages(parts, req[..n])
          ensures m !in Messages(parts[req[n].number].chunks)
        {
          NamedElsewhere(g, id, req, m);
        }
        DistinctAppend(Gather(parts, req[..n]), parts[req[n].number].chunks);
      } else {
        assert Gather(parts, req) == Gather(parts, req[..n]);
      }
    }
  }

  lemma NothingDistinct()
    ensures Distinct([])
  {
  }

  lemma NamedElsewhere(g: Gateway, id: string, req: seq<CompletePart>, m: nat)
    requires Owned(g) && id in g.uploads && NumbersDiffer(req) && req != []
    requires req[|req| - 1].number in g.uploads[id].parts
    requires m in NamedMessages(g.uploads[id].parts, req[..|req| - 1])
    ensures m !in Messages(g.uploads[id].parts[req[|req| - 1].number].chunks)
  {
    var parts, n := g.uploads[id].parts, |req| - 1;
    var p, c :| p in req[..n] && p.number in parts && c in parts[p.number].chunks && c.msg == m;
    var i :| 0 <= i < n && req[i] == p;
    PartRowIs(g, id, p.number);
    PartRowIs(g, id, req[n].number);
    assert m in Messages(Row(g, AtPart(id, p.number)));
  }

  lemma NamedArePart(parts: Parts, req: seq<CompletePart>)
    ensures NamedMessages(parts, req) <= PartMessages(parts)
  {
  }

  lemma FaultlessDiffer(parts: Parts, req: seq<CompletePart>)
    requires Faultless(parts, req, |req|)
    ensures NumbersDiffer(req)
  {
    forall i, j | 0 <= i < j < |req|
      ensures req[i].number != req[j].number
    {
      PartsAscend(parts, req, i, j);
    }
  }

  lemma RowsAfterComplete(g: Gateway, h: Gateway, id: string, target: ObjectKey, row: ObjectRow)
    requires h.objects == g.objects[target := row] && h.uploads == g.uploads - {id}
    ensures Row(h, AtObject(target)) == row.chunks
    ensures forall q | q != AtObject(target) :: Row(h, q) == if q.AtPart? && q.upload == id then [] else Row(g, q)
  {
  }

  /** A row made of messages of a dropped upload shares none with the rows that stay. */
  lemma OwnedMoved(g: Gateway, h: Gateway, id: string, r: RowId)
    requires Owned(g) && id in g.uploads && r.AtObject? && Distinct(Row(h, r))
    requires Messages(Row(h, r)) <= PartMessages(g.uploads[id].parts)
    requires forall q | q != r :: Row(h, q) == if q.AtPart? && q.upload == id then [] else Row(g, q)
    ensures Owned(h)
  {
    hide Row, PartMessages, Distinct;
    forall q | q != r
      ensures Messages(Row(h, r)) !! Messages(Row(h, q))
    {
      if !(q.AtPart? && q.upload == id) {
        PartsAreOwn(g, id, q);
      }
    }
    assert Distinct([]) by { NothingDistinct(); }
    forall p, q | p != q
      ensures Messages(Row(h, p)) !! Messages(Row(h, q))
    {
      if p != r && q != r && Row(h, p) != [] && Row(h, q) != [] {
        assert Row(h, p) == Row(g, p) && Row(h, q) == Row(g, q);
      }
    }
    forall p
      ensures Distinct(Row(h, p))
    {
      assert p == r || Row(h, p) == [] || Row(h, p) == Row(g, p);
    }
  }

  lemma PartsRowsOk(g: Gateway, id: string)
    requires RowsOk(g) && id in g.uploads
    ensures forall n | n in g.uploads[id].parts :: PartOk(g.files, g.uploads[id].parts[n])
  {
  }

  /** The object an accepted Complete writes, over the channel as it is then. */
  lemma CompletedObject(g: Gateway, id: string, req: seq<CompletePart>)
    requires Inv(g) && Accepts(g, id, req)
    ensures
      var parts := g.uploads[id].parts;
      var chunks := Renumber(Gather(parts, req));
      && ObjectOk(g.files, ObjectRow(SumSizes(Gather(parts, req)), chunks)) && Distinct(chunks)
      && Messages(chunks) == NamedMessages(parts, req)
      && Content(g.files, chunks) == Concat(PartContents(g.files, parts, req))
  {
    hide Inv, Owned, RowsOk, Distinct, Faultless, FaultAt, Holds, Tiles, PartOk, Content;
    var parts := g.uploads[id].parts;
    assert Owned(g) && RowsOk(g) by { InvMeans(g); }
    PartsRowsOk(g, id);
    AcceptedObject(g.files, parts, req);
    FaultlessDiffer(parts, req);
    GatherDistinct(g, id, req);
    RenumberDistinct(Gather(parts, req));
    GatherMessages(parts, req);
  }

  lemma InvMeans(g: Gateway)
    requires Inv(g)
    ensures Owned(g) && RowsOk(g) && IdsBelowNext(g)
  {
  }

  lemma CompleteKeeps(g: Gateway, id: string, req: seq<CompletePart>, kept: set<nat>)
    requires Inv(g) && Accepts(g, id, req)
    ensures Inv(Step(g, Complete(id, req, true, kept)))
  {
    hide Row, Owned, RowsOk, ObjectOk, PartOk, PartMessages, NamedMessages, Gather, Renumber, Distinct, Accepts, Content;
    var h := Step(g, Complete(id, req, true, kept));
    assert id in g.uploads by { AcceptedIsThere(g, id, req); }
    var u := g.uploads[id];
    var r := AtObject(u.target);
    CompletedObject(g, id, req);
    NamedArePart(u.parts, req);
    RowsAfterComplete(g, h, id, u.target, h.objects[u.target]);
    OwnedMoved(g, h, id, r);
    PartsAreOwn(g, id, r);
    assert Survive(g.files, h.files, Messages(h.objects[u.target].chunks));
    ObjectSurvives(g.files, h.files, h.objects[u.target]);
    forall q: RowId | q != r && !(q.AtPart? && q.upload == id)
      ensures Survive(g.files, h.files, Messages(Row(g, q)))
    {
      OthersSurvive(g, h.files, r, q);
    }
    var rest := h.(objects := h.objects - {u.target});
    KeptRowsOk(g, rest);
    RowsOkPlus(rest, h, u.target);
  }

  lemma AcceptedIsThere(g: Gateway, id: string, req: seq<CompletePart>)
    requires Accepts(g, id, req)
    ensures id in g.uploads
  {
  }

  lemma RowsOkPlus(rest: Gateway, h: Gateway, target: ObjectKey)
    requires RowsOk(rest) && target in h.objects && rest == h.(objects := h.objects - {target})
    requires ObjectOk(h.files, h.objects[target])
    ensures RowsOk(h)
  {
    hide ObjectOk, PartOk;
    forall k | k in h.objects
      ensures ObjectOk(h.files, h.objects[k])
    {
      assert k == target || k in rest.objects;
    }
    forall id, n | id in h.uploads && n in h.uploads[id].parts
      ensures PartOk(h.files, h.uploads[id].parts[n])
    {
      assert id in rest.uploads && n in rest.uploads[id].parts;
    }
  }

  lemma CreateKeeps(g: Gateway, id: string, target: ObjectKey)
    requires Inv(g) && id !in g.uploads
    ensures Inv(Step(g, CreateUpload(id, target)))
  {
    var h := Step(g, CreateUpload(id, target));
    forall r
      ensures Row(h, r) == Row(g, r)
    {
    }
  }

  /** Every operation whose row drop commits keeps the invariant, whatever else fails. */
  lemma StepKeeps(g: Gateway, op: Op)
    requires Inv(g) && Possible(g, op) && Drops(op)
    ensures Inv(Step(g, op))
  {
    hide Inv, Accepts, PutRow, PutPartRow;
    match op
    case Put(key, fate) => PutRowKeeps(g, key, fate);
    case Copy(_, key, fate) => PutRowKeeps(g, key, fate);
    case CreateUpload(id, target) => CreateKeeps(g, id, target);
    case UploadPart(id, n, etag, fate) => PutPartRowKeeps(g, id, n, etag, fate);
    case UploadPartCopy(id, n, etag, _, _, _, fate) => PutPartRowKeeps(g, id, n, etag, fate);
    case Complete(id, req, commitOk, kept) =>
      if Accepts(g, id, req) && commitOk {
        CompleteKeeps(g, id, req, kept);
      }
    case Abort(id, kept, _) =>
      if id in g.uploads {
        AbortKeeps(g, id, kept);
      }
    case Delete(key, kept, _) =>
      if key in g.objects {
        DeleteKeeps(g, key, kept);
      }
  }
}

/** The request handlers: what each does to the metadata tables and the channel, step by step. */
module Handlers {
  import opened ByteStrings
  import opened ChunkMaps
  import opened Etags
  import opened Multipart
  import opened Ownership
  import opened Conservation
  import DB = DeleteBatches
  import BE = Backend
  import opened ByteRanges
  import CH = ChunkHeaders
  import AC = AwsChunked
  import opened TextGrammar
  import CG = ChunkedGrammar
  import opened Text

  datatype Reply =
    | Done
    | NoSuchKey | NoSuchUpload | InvalidArgument | InvalidRange | IncompleteBody | MalformedXML
    | PartRejected(fault: PartFault)
    | UploadFailed | InternalError

  /** The body arrives whole, or its chunk framing is malformed, or the connection breaks. */
  datatype BodyEnd = Arrived | Malformed | Broken

  /** What the outside world does during one request. */
  datatype World = World(
    bodyEnd: BodyEnd,         // how the body's reader ends
    sends: seq<BE.Send>,      // what happens to each document sent
    faults: seq<bool>,        // which delete calls fail
    seen: nat,                // how many rows of a superseded chunk map could be read
    commitOk: bool)           // whether the metadata transaction commits

  /** No delete call fails. */
  predicate NoFaults(faults: seq<bool>) {
    forall f | f in faults :: !f
  }

  /** The body arrives, every document is stored whole, and the transaction commits. */
  predicate Smooth(w: World) {
    w.bodyEnd.Arrived? && BE.SendsFit(w.sends) && w.commitOk
  }

  /** Nothing that was to be deleted is left: the whole superseded map could be read, and no delete call failed. */
  predicate CleanUp(w: World, prior: seq<Chunk>) {
    NoFaults(w.faults) && |prior| <= w.seen
  }

  /** The messages of a finished upload, as the operation that stores them sees it. */
  function Fetched(before: Files, after: Files, chunks: seq<Chunk>, next: nat): NewUpload {
    NewUpload(chunks, after - before.Keys, next)
  }

  lemma UploadIsFresh(g: Gateway, after: Files, chunks: seq<Chunk>, body: bytes, next: nat, chunkSize: nat)
    requires IdsBelowNext(g) && BE.UploadedAs(after, chunks, body, chunkSize)
    requires BE.OnlyFreshChanged(g.files, after, g.nextMsg) && BE.FreshFrom(chunks, g.nextMsg)
    requires next == g.nextMsg + |chunks| && after.Keys == g.files.Keys + Messages(chunks)
    ensures
      var u := Fetched(g.files, after, chunks, next);
      FreshUpload(g, u) && g.files + u.files == after && Content(u.files, chunks) == body
  {
    hide Content, Tiles, Total;
    var u := Fetched(g.files, after, chunks, next);
    forall m | m in Messages(chunks)
      ensures g.nextMsg <= m < next
    {
      var i :| 0 <= i < |chunks| && chunks[i].msg == m;
    }
    assert u.files.Keys == Messages(chunks);
    forall c | c in chunks
      ensures c.msg in u.files && u.files[c.msg] == after[c.msg]
    {
      assert c.msg in Messages(chunks);
    }
    ContentFrame(after, u.files, chunks);
    assert g.files + u.files == after;
  }

  lemma JunkIsFresh(g: Gateway, after: Files, next: nat)
    requires BE.OnlyFreshChanged(g.files, after, g.nextMsg) && g.nextMsg <= next && forall m | m in after :: m < next
    ensures Fresh(g, after - g.files.Keys, next) && g.files + (after - g.files.Keys) == after
  {
    assert g.files + (after - g.files.Keys) == after;
  }

  const MAX_PARTS: nat := 10000

  predicate Numbered(parts: Parts) {
    forall n | n in parts :: 1 <= n <= MAX_PARTS
  }

  /** Malformed chunk framing is the client's fault; every other failure to store a body is not. */
  function UnsentReply(byBody: bool, w: World): Reply {
    if byBody && w.bodyEnd.Malformed? then IncompleteBody else Reply.UploadFailed
  }

  /** Of a body that could not be stored: who is blamed, whenever only one of the two sides failed. */
  predicate FailureReply(w: World, reply: Reply) {
    && (reply.IncompleteBody? || reply.UploadFailed?)
    && (!w.bodyEnd.Malformed? ==> reply.UploadFailed?)
    && (w.bodyEnd.Malformed? && BE.SendsFit(w.sends) ==> reply.IncompleteBody?)
  }

  /** How the de-framed body ends, by the error its reader ends in. */
  function EndOf(error: CH.ReadError): BodyEnd {
    match error
    case Eof => Arrived
    case Transport => Broken
    case _ => Malformed
  }

  /** What the decoder says of a body, in terms of how it is framed. */
  lemma FramedExactly(raw: CH.Body)
    ensures
      AC.Decode(raw, 0).error.Eof? ==>
        exists end: nat, chunks ::
          end <= |raw.data| && CG.IsBody(raw.data[..end], chunks) && AC.Decode(raw, 0).output == Concat(chunks)
    ensures
      !AC.Decode(raw, 0).error.Eof? ==>
        forall end: nat, chunks | end <= |raw.data| :: !CG.IsBody(raw.data[..end], chunks)
    ensures
      forall texts, chunks, line | CG.AreChunks(texts, chunks) && CG.BadLineBehind(raw.data, texts, line) ::
        AC.Decode(raw, 0).error.InvalidSize?
  {
    hide AC.Decode, CG.IsBody, CG.AreChunks, CG.BadLineBehind;
    var o := AC.Decode(raw, 0);
    if o.error.Eof? {
      CG.EndsCleanlyExactly(raw, o.at);
      var chunks :| CG.IsBody(raw.data[..o.at], chunks);
      CG.BodyRead(raw, o.at, chunks);
    }
    forall end: nat, chunks | end <= |raw.data| && CG.IsBody(raw.data[..end], chunks)
      ensures o.error.Eof?
    {
      CG.BodyRead(raw, end, chunks);
    }
    forall texts, chunks, line | CG.AreChunks(texts, chunks) && CG.BadLineBehind(raw.data, texts, line)
      ensures o.error.InvalidSize?
    {
      CG.BadHeaderRefused(raw, texts, chunks, line);
    }
  }

  /** A copy's body arrives if what it reads of the source is whole. */
  function SourceRead(w: World, whole: bool): World {
    if whole then w else w.(bodyEnd := Broken)
  }

  class Handler {
    const storage: BE.Storage
    var objects: map<ObjectKey, ObjectRow>
    var uploads: map<string, UploadRow>

    predicate Valid()
      reads this, storage, storage.pool
    {
      storage.Valid() && forall id | id in uploads :: Numbered(uploads[id].parts)
    }

    ghost function Model(): Gateway
      reads this, storage
    {
      Gateway(objects, uploads, storage.files, storage.nextMsg)
    }

    constructor (storage: BE.Storage)
      requires storage.Valid() && storage.files == map[] && storage.nextMsg == 0
      ensures Valid() && this.storage == storage && Model() == EMPTY
    {
      this.storage, objects, uploads := storage, map[], map[];
    }

    /** Best-effort deletion of the messages of `chunks`. */
    method Reap(chunks: seq<Chunk>, faults: seq<bool>) returns (deleted: bool, ghost kept: set<nat>)
      requires Valid()
      modifies storage`files, storage`calls, storage.pool
      ensures Valid() && kept <= Messages(chunks)
      ensures storage.files == old(storage.files) - (Messages(chunks) - kept)
      ensures deleted ==> kept == {}
      ensures NoFaults(faults) ==> deleted
    {
      hide DB.Covers, DB.Removed, DB.IdSet, DB.Ids, BE.RefsOf;
      if |chunks| == 0 {
        assert Messages(chunks) == {};
        return true, {};
      }
      var ok, made := storage.DeleteBatch(BE.RefsOf(chunks), faults);
      DB.CoversRemoves(made, BE.RefsOf(chunks), storage.pool.bots, old(storage.pool.streamIdx));
      BE.IdsOfRefs(chunks);
      kept := Messages(chunks) - DB.Removed(made);
      assert DB.Removed(made) == Messages(chunks) - kept;
      deleted := ok;
    }

    /** Sends the body to the channel. */
    method Send(body: bytes, w: World) returns (chunks: Option<seq<Chunk>>, byBody: bool, ghost up: NewUpload)
      requires Valid()
      modifies storage, storage.pool
      ensures Valid() && storage.files == old(storage.files) + up.files && storage.nextMsg == up.next
      ensures chunks.None? ==> Fresh(old(Model()), up.files, up.next)
      ensures chunks.Some? ==>
                FreshUpload(old(Model()), up) && up.chunks == chunks.value && Content(up.files, up.chunks) == body
      ensures !w.bodyEnd.Arrived? ==> chunks.None?
      ensures chunks.None? ==> if byBody then !w.bodyEnd.Arrived? else !BE.SendsFit(w.sends)
    {
      hide BE.UploadedAs, BE.OnlyFreshChanged, BE.FreshFrom, Content;
      ghost var g := Model();
      chunks, byBody := storage.Upload(body, !w.bodyEnd.Arrived?, w.sends, w.faults);
      if chunks.None? {
        JunkIsFresh(g, storage.files, storage.nextMsg);
        up := Fetched(g.files, storage.files, [], storage.nextMsg);
      } else {
        UploadIsFresh(g, storage.files, chunks.value, body, storage.nextMsg, storage.chunkSize);
        up := Fetched(g.files, storage.files, chunks.value, storage.nextMsg);
      }
    }

    /** Deletes an upload whose row was never written. */
    method Discard(chunks: seq<Chunk>, w: World, ghost g: Gateway, ghost up: NewUpload) returns (ghost fate: Fate)
      requires Valid() && Sent(g, up) && up.chunks == chunks
      modifies storage`files, storage`calls, storage.pool
      ensures Valid() && fate.Refused? && fate.upload == up
      ensures forall prior :: Model() == Settle(g, fate, prior)
      ensures NoFaults(w.faults) ==> fate.kept == {}
    {
      ghost var kept;
      var deleted;
      deleted, kept := Reap(chunks, w.faults);
      fate := Refused(up, kept);
    }

    /** The tables are as in `g` and the upload `up` has been added to its channel. */
    ghost predicate Sent(g: Gateway, up: NewUpload)
      reads this, storage
    {
      && objects == g.objects && uploads == g.uploads
      && storage.files == g.files + up.files && storage.nextMsg == up.next
    }

    /** Writes an object row over the one that is there, then deletes what the old row referenced. */
    method StoreObject(key: ObjectKey, chunks: seq<Chunk>, w: World, ghost g: Gateway, ghost up: NewUpload)
      returns (reply: Reply, ghost fate: Fate)
      requires Valid() && Sent(g, up) && up.chunks == chunks
      modifies this`objects, storage`files, storage`calls, storage.pool
      ensures Valid() && Model() == PutRow(g, key, fate)
      ensures (if w.commitOk then fate.Committed? && reply.Done? else fate.Refused? && reply.InternalError?)
      ensures fate.upload == up && (CleanUp(w, Row(g, AtObject(key))) ==> fate.kept == {})
      ensures !reply.Done? ==> objects == old(objects)
    {
      hide Total, Messages;
      var superseded := Superseded(if key in objects then objects[key].chunks else [], w.seen);
      if !w.commitOk {
        fate := Discard(chunks, w, g, up);
        return InternalError, fate;
      }
      objects := objects[key := ObjectRow(Total(chunks), chunks)];
      ghost var kept;
      var deleted;
      deleted, kept := Reap(superseded, w.faults);
      ghost var prior := Row(g, AtObject(key));
      SupersededMessages(prior, w.seen);
      fate := Committed(up, Messages(prior) - (Messages(superseded) - kept));
      assert Messages(prior) - fate.kept == Messages(superseded) - kept;
      return Done, fate;
    }

    /** The same for a part row. */
    method StorePart(id: string, n: int, etag: bytes, chunks: seq<Chunk>, w: World, ghost g: Gateway, ghost up: NewUpload)
      returns (reply: Reply, ghost fate: Fate)
      requires Valid() && Sent(g, up) && up.chunks == chunks && id in uploads && 1 <= n <= 10000
      modifies this`uploads, storage`files, storage`calls, storage.pool
      ensures Valid() && Model() == PutPartRow(g, id, n, etag, fate)
      ensures (if w.commitOk then fate.Committed? && reply.Done? else fate.Refused? && reply.InternalError?)
      ensures fate.upload == up && (CleanUp(w, Row(g, AtPart(id, n))) ==> fate.kept == {})
      ensures !reply.Done? ==> uploads == old(uploads)
    {
      hide Total, Messages, DropOffsets;
      var u := uploads[id];
      var superseded := Superseded(if n in u.parts then u.parts[n].chunks else [], w.seen);
      if !w.commitOk {
        fate := Discard(chunks, w, g, up);
        return InternalError, fate;
      }
      uploads := uploads[id := u.(parts := u.parts[n := PartRow(etag, Total(chunks), DropOffsets(chunks))])];
      ghost var kept;
      var deleted;
      deleted, kept := Reap(superseded, w.faults);
      ghost var prior := Row(g, AtPart(id, n));
      SupersededMessages(prior, w.seen);
      fate := Committed(up, Messages(prior) - (Messages(superseded) - kept));
      assert Messages(prior) - fate.kept == Messages(superseded) - kept;
      return Done, fate;
    }

    /** PUT of an object: `declared` is the announced decoded length, empty when there is none. */
    method PutObject(key: ObjectKey, body: bytes, declared: bytes, w: World) returns (reply: Reply, ghost op: Op)
      requires Valid()
      modifies this`objects, storage, storage.pool
      ensures Valid() && Possible(old(Model()), op) && Model() == Step(old(Model()), op)
      ensures op.Put? && op.key == key && (reply.Done? <==> op.fate.Committed?)
      ensures reply.Done? ==> NewContent(op.fate) == body && SizeAnswered(declared, |body|, Done)
      ensures !reply.Done? ==> objects == old(objects)
      ensures !w.bodyEnd.Arrived? || !w.commitOk ==> !reply.Done?
      ensures Smooth(w) ==> SizeAnswered(declared, |body|, reply)
      ensures !w.bodyEnd.Arrived? ==> op.fate.UploadFailed?
      ensures op.fate.UploadFailed? ==> FailureReply(w, reply)
      ensures !op.fate.UploadFailed? && !w.commitOk && SizeAnswered(declared, |body|, Done) ==> reply.InternalError?
      ensures CleanUp(w, Row(old(Model()), AtObject(key))) && !op.fate.UploadFailed? ==> Clean(op)
    {
      hide Content, FreshUpload, Fresh, PutRow, SizeAnswered;
      ghost var g := Model();
      SizeChecked(declared, |body|);
      var chunks, byBody, up := Send(body, w);
      if chunks.None? {
        op := Put(key, Fate.UploadFailed(up.files, up.next));
        UnwrittenPut(g, key, op.fate);
        return UnsentReply(byBody, w), op;
      }
      ghost var fate;
      reply := CheckSize(declared, |body|);
      if !reply.Done? {
        fate := Discard(chunks.value, w, g, up);
        op := Put(key, fate);
        UnwrittenPut(g, key, fate);
        return;
      }
      reply, fate := StoreObject(key, chunks.value, w, g, up);
      op := Put(key, fate);
    }

    /** PUT of an `aws-chunked` body: what is stored is the de-framed bytes, and only framing that ends well is stored. */
    method PutChunkedObject(key: ObjectKey, raw: CH.Body, declared: bytes, w: World) returns (reply: Reply, ghost op: Op)
      requires Valid()
      modifies this`objects, storage, storage.pool
      ensures Valid() && Possible(old(Model()), op) && Model() == Step(old(Model()), op)
      ensures op.Put? && op.key == key && (reply.Done? <==> op.fate.Committed?)
      ensures !reply.Done? ==> objects == old(objects)
      ensures reply.Done? ==>
                exists end: nat, chunks ::
                  end <= |raw.data| && CG.IsBody(raw.data[..end], chunks) && NewContent(op.fate) == Concat(chunks)
      ensures AC.Decode(raw, 0).error.Transport? ==> reply.UploadFailed?
      ensures !raw.broken && BE.SendsFit(w.sends) && (forall end: nat, chunks | end <= |raw.data| ::
                !CG.IsBody(raw.data[..end], chunks))
              ==> reply.IncompleteBody?
      ensures forall texts, chunks, line | CG.AreChunks(texts, chunks) && CG.BadLineBehind(raw.data, texts, line) ::
                !reply.Done? && (BE.SendsFit(w.sends) ==> reply.IncompleteBody?)
      ensures BE.SendsFit(w.sends) && w.commitOk ==>
                forall frames, lastExt, trailer | raw.data == AC.Encode(frames, lastExt, trailer)
                                                  && AC.AllSendable(frames, lastExt) ::
                  && SizeAnswered(declared, |AC.Payload(frames)|, reply)
                  && (reply.Done? ==> NewContent(op.fate) == AC.Payload(frames))
    {
      hide AC.Decode, AC.Encode, AC.Payload, AC.AllSendable, Content, Possible, Step, SizeAnswered;
      hide CG.IsBody, CG.AreChunks, CG.BadLineBehind;
      var o := AC.Decode(raw, 0);
      AC.BreaksOnlyIfBroken(raw, 0);
      FramedExactly(raw);
      reply, op := PutObject(key, o.output, declared, w.(bodyEnd := EndOf(o.error)));
      forall frames, lastExt, trailer | raw.data == AC.Encode(frames, lastExt, trailer) && AC.AllSendable(frames, lastExt)
        ensures o.error.Eof? && o.output == AC.Payload(frames)
      {
        AC.EncodeReadBack(frames, lastExt, trailer, raw.broken);
        assert raw == CH.Body(AC.Encode(frames, lastExt, trailer), raw.broken);
      }
    }

    /**
     Server-side copy: the source's bytes are sent again; `delivered` bytes of them when reading fails, as it does when
     one of the source's messages is gone.
     */
    method CopyObject(source: ObjectKey, key: ObjectKey, delivered: nat, w: World)
      returns (reply: Reply, ghost op: Option<Op>)
      requires Valid()
      modifies this`objects, storage, storage.pool
      ensures Valid() && (op.None? <==> source !in old(objects))
      ensures op.None? ==> reply.NoSuchKey? && Model() == old(Model())
      ensures op.Some? ==>
                && Possible(old(Model()), op.value) && Model() == Step(old(Model()), op.value)
                && op.value.Copy? && op.value.source == source && op.value.key == key
                && (reply.Done? <==> op.value.fate.Committed?)
                && (reply.Done? ==> Holds(old(storage.files), old(objects)[source].chunks))
                && (Smooth(w) && Holds(old(storage.files), old(objects)[source].chunks) ==> reply.Done?)
                && (!reply.Done? ==> reply == if op.value.fate.UploadFailed? then Reply.UploadFailed else InternalError)
                && (CleanUp(w, Row(old(Model()), AtObject(key))) && !op.value.fate.UploadFailed? ==> Clean(op.value))
    {
      hide Content, FreshUpload, Fresh, PutRow, Holds;
      ghost var g := Model();
      if source !in objects {
        return NoSuchKey, None;
      }
      var body := Content(storage.files, objects[source].chunks);
      var read := SourceRead(w, Holds(storage.files, objects[source].chunks));
      var chunks, byBody, up := Send(if read.bodyEnd.Arrived? then body else Cut(body, 0, delivered), read);
      if chunks.None? {
        op := Some(Copy(source, key, Fate.UploadFailed(up.files, up.next)));
        UnwrittenPut(g, key, op.value.fate);
        return Reply.UploadFailed, op;
      }
      ghost var fate;
      reply, fate := StoreObject(key, chunks.value, w, g, up);
      op := Some(Copy(source, key, fate));
    }

    // Multipart uploads

    method CreateMultipartUpload(id: string, target: ObjectKey) returns (reply: Reply, ghost op: Option<Op>)
      modifies this`uploads
      requires Valid()
      ensures Valid() && (op.None? <==> id in old(uploads))
      ensures op.None? ==> reply.InternalError? && Model() == old(Model())
      ensures op.Some? ==>
                && reply.Done? && op == Some(CreateUpload(id, target))
                && Possible(old(Model()), op.value) && Model() == Step(old(Model()), op.value)
    {
      if id in uploads {
        return InternalError, None;
      }
      uploads := uploads[id := UploadRow(target, map[])];
      return Done, Some(CreateUpload(id, target));
    }

    /** An upload is only found under the bucket and key it was created for. */
    predicate Resolves(id: string, target: ObjectKey)
      reads this
    {
      id in uploads && uploads[id].target == target
    }

    /** UploadPart: the part's tag is the hexadecimal MD5 digest of its bytes. */
    method UploadPart(id: string, target: ObjectKey, number: Option<int>, body: bytes, digest: bytes, declared: bytes,
                      w: World)
      returns (reply: Reply, ghost op: Option<Op>)
      requires Valid()
      modifies this`uploads, storage, storage.pool
      ensures Valid() && (op.Some? <==> number.Some? && 1 <= number.value <= 10000 && old(Resolves(id, target)))
      ensures op.None? ==> Model() == old(Model())
      ensures op.None? ==> reply == if number.Some? && 1 <= number.value <= 10000 then NoSuchUpload else InvalidArgument
      ensures op.Some? ==>
                && Possible(old(Model()), op.value) && Model() == Step(old(Model()), op.value)
                && op.value.UploadPart? && op.value.id == id && op.value.number == number.value
                && op.value.etag == HexEncode(digest) && (reply.Done? <==> op.value.fate.Committed?)
                && (Smooth(w) ==> SizeAnswered(declared, |body|, reply))
                && (reply.Done? ==> SizeAnswered(declared, |body|, Done))
                && (CleanUp(w, Row(old(Model()), AtPart(id, number.value))) && !op.value.fate.UploadFailed?
                    ==> Clean(op.value))
      ensures !reply.Done? ==> uploads == old(uploads)
      ensures op.Some? && reply.Done? ==> NewContent(op.value.fate) == body
      ensures op.Some? && op.value.fate.UploadFailed? ==> FailureReply(w, reply)
    {
      hide Content, FreshUpload, Fresh, PutPartRow, HexDecode, HexEncode, SizeAnswered;
      SizeChecked(declared, |body|);
      if number.None? || number.value < 1 || number.value > MAX_PARTS {
        return InvalidArgument, None;
      }
      if !Resolves(id, target) {
        return NoSuchUpload, None;
      }
      ghost var g := Model();
      var n, etag := number.value, HexEncode(digest);
      HexRoundTrip(digest);
      var chunks, byBody, up := Send(body, w);
      ghost var fate;
      if chunks.None? {
        fate := Fate.UploadFailed(up.files, up.next);
        UnwrittenPart(g, id, n, etag, fate);
        return UnsentReply(byBody, w), Some(Op.UploadPart(id, n, etag, fate));
      }
      reply := CheckSize(declared, |body|);
      if !reply.Done? {
        fate := Discard(chunks.value, w, g, up);
        UnwrittenPart(g, id, n, etag, fate);
        return reply, Some(Op.UploadPart(id, n, etag, fate));
      }
      reply, fate := StorePart(id, n, etag, chunks.value, w, g, up);
      op := Some(Op.UploadPart(id, n, etag, fate));
    }

    /** UploadPartCopy: a part whose bytes are an object's, or a byte range of them. */
    method UploadPartCopy(id: string, target: ObjectKey, number: int, source: ObjectKey, range: bytes, digest: bytes,
                          delivered: nat, w: World)
      returns (reply: Reply, ghost op: Option<Op>)
      requires Valid() && 1 <= number <= 10000
      modifies this`uploads, storage, storage.pool
      ensures Valid()
      ensures op.Some? <==>
                && old(Resolves(id, target)) && source in old(objects)
                && (range == [] || ParseByteRange(range, old(objects)[source].size).Bytes?)
      ensures op.None? ==> Model() == old(Model())
      ensures reply.NoSuchUpload? <==> !old(Resolves(id, target))
      ensures reply.NoSuchKey? <==> old(Resolves(id, target)) && source !in old(objects)
      ensures op.None? ==> reply.NoSuchUpload? || reply.NoSuchKey? || reply.InvalidRange?
      ensures op.Some? ==>
                && Possible(old(Model()), op.value) && Model() == Step(old(Model()), op.value)
                && op.value.UploadPartCopy? && op.value.id == id && op.value.number == number
                && op.value.source == source && op.value.etag == HexEncode(digest)
                && (reply.Done? <==> op.value.fate.Committed?)
                && (reply.Done? ==> HoldsOver(old(storage.files), old(objects)[source].chunks, op.value.start, op.value.end))
                && (Smooth(w) && HoldsOver(old(storage.files), old(objects)[source].chunks, op.value.start, op.value.end)
                    ==> reply.Done?)
                && (CleanUp(w, Row(old(Model()), AtPart(id, number))) && !op.value.fate.UploadFailed? ==> Clean(op.value))
                && CopiesSlice(op.value.start, op.value.end, range, old(objects)[source].size)
      ensures op.Some? && !reply.Done? ==>
                reply == if op.value.fate.UploadFailed? then Reply.UploadFailed else InternalError
    {
      hide Content, Laid, HoldsOver, FreshUpload, Fresh, PutPartRow, HexDecode, HexEncode, ParseByteRange;
      if !Resolves(id, target) {
        return NoSuchUpload, None;
      }
      if source !in objects {
        return NoSuchKey, None;
      }
      if range != [] && !ParseByteRange(range, objects[source].size).Bytes? {
        return InvalidRange, None;
      }
      ghost var g := Model();
      var etag := HexEncode(digest);
      HexRoundTrip(digest);
      var start, end := CopyStart(range, objects[source].size), CopyEnd(range, objects[source].size);
      CopySlice(range, objects[source].size);
      var body := Cut(Laid(storage.files, objects[source].chunks), start, end);
      var read := SourceRead(w, HoldsOver(storage.files, objects[source].chunks, start, end));
      var chunks, byBody, up := Send(if read.bodyEnd.Arrived? then body else Cut(body, 0, delivered), read);
      ghost var fate;
      if chunks.None? {
        fate := Fate.UploadFailed(up.files, up.next);
        UnwrittenPart(g, id, number, etag, fate);
        return Reply.UploadFailed, Some(Op.UploadPartCopy(id, number, etag, source, start, end, fate));
      }
      reply, fate := StorePart(id, number, etag, chunks.value, w, g, up);
      op := Some(Op.UploadPartCopy(id, number, etag, source, start, end, fate));
    }

    /** Complete: assembles the named parts, writes the object and drops the upload in one transaction. */
    method CompleteMultipartUpload(id: string, target: ObjectKey, req: seq<CompletePart>, w: World)
      returns (reply: Reply, ghost op: Option<Op>)
      requires Valid()
      modifies this, storage`files, storage`calls, storage.pool
      ensures Valid() && (op.None? <==> !old(Resolves(id, target)))
      ensures op.None? ==> reply.NoSuchUpload?
      ensures op.Some? ==>
                && op.value.Complete? && op.value.id == id && op.value.req == req && op.value.commitOk == w.commitOk
                && Model() == Step(old(Model()), op.value)
                && (reply.Done? <==> Accepts(old(Model()), id, req) && w.commitOk)
                && (CleanUp(w, Row(old(Model()), AtObject(target))) ==> Clean(op.value))
      ensures !reply.Done? ==> Model() == old(Model())
      ensures op.Some? ==> (reply.MalformedXML? <==> req == [])
      ensures op.Some? && Accepts(old(Model()), id, req) && !w.commitOk ==> reply.InternalError?
      ensures op.Some? && !Accepts(old(Model()), id, req) ==> reply.MalformedXML? || reply.PartRejected?
      ensures reply.PartRejected? ==>
                exists i :: 0 <= i < |req| && Faultless(old(uploads)[id].parts, req, i)
                            && FaultAt(old(uploads)[id].parts, req, i) == Some(reply.fault)
      ensures op.Some? ==>
                forall i | 0 <= i < |req| && NamesAnother(old(uploads)[id].parts, req[i]) ::
                  && !reply.Done?
                  && (Faultless(old(uploads)[id].parts, req, i) && req[i].number > (if i == 0 then 0 else req[i - 1].number)
                      ==> reply == PartRejected(InvalidPart))
    {
      hide NamesAnother;
      hide Messages, Gather, Renumber, SumSizes, FaultAt, Digests;
      if !Resolves(id, target) {
        return NoSuchUpload, None;
      }
      ghost var g := Model();
      OnlyFault(uploads[id].parts, req);
      var assembly := Assemble(uploads[id].parts, req);
      op := Some(Complete(id, req, w.commitOk, {}));
      match assembly {
        case MalformedXml => return MalformedXML, op;
        case Rejected(fault) => return PartRejected(fault), op;
        case Accepted(chunks, digests, size) =>
          var superseded := Superseded(if target in objects then objects[target].chunks else [], w.seen);
          if !w.commitOk {
            return InternalError, op;
          }
          objects := objects[target := ObjectRow(size, chunks)];
          uploads := uploads - {id};
          ghost var kept;
          var deleted;
          deleted, kept := Reap(superseded, w.faults);
          ghost var prior := Row(g, AtObject(target));
          SupersededMessages(prior, w.seen);
          op := Some(Complete(id, req, true, Messages(prior) - (Messages(superseded) - kept)));
          assert Messages(prior) - op.value.kept == Messages(superseded) - kept;
          return Done, op;
      }
    }

    /** Every chunk of every part of an upload, in part order. */
    method AllChunks(parts: Parts) returns (chunks: seq<Chunk>)
      requires Numbered(parts)
      ensures Messages(chunks) == PartMessages(parts)
    {
      hide Messages, MessagesOf, PartMessages;
      chunks := [];
      NoPartYet(parts);
      for n := 1 to MAX_PARTS + 1
        invariant Messages(chunks) == MessagesOf(parts, n)
      {
        OneMorePart(parts, n);
        if n in parts {
          MessagesAppend(chunks, parts[n].chunks);
          chunks := chunks + parts[n].chunks;
        }
      }
      EveryPart(parts);
    }

    /** Deletes an upload's messages, then its rows; the janitor calls this without naming the object. */
    method AbortUpload(id: string, readOk: bool, dropOk: bool, faults: seq<bool>)
      returns (done: bool, ghost op: Option<Op>)
      requires Valid()
      modifies this`uploads, storage`files, storage`calls, storage.pool
      ensures Valid() && (op.Some? <==> readOk)
      ensures op.None? ==> !done && Model() == old(Model())
      ensures op.Some? ==>
                && op.value.Abort? && op.value.id == id && op.value.dropOk == dropOk && done == dropOk
                && Model() == Step(old(Model()), op.value)
                && (NoFaults(faults) && dropOk ==> Clean(op.value))
    {
      hide Messages, PartMessages;
      if !readOk {
        return false, None;
      }
      var all := [];
      if id in uploads {
        all := AllChunks(uploads[id].parts);
      }
      ghost var kept;
      var deleted;
      deleted, kept := Reap(all, faults);
      op := Some(Abort(id, kept, dropOk));
      assert Messages([]) == {} by { NoMessages(); }
      if !dropOk {
        return false, op;
      }
      uploads := uploads - {id};
      return true, op;
    }

    method AbortMultipartUpload(id: string, target: ObjectKey, readOk: bool, dropOk: bool, faults: seq<bool>)
      returns (reply: Reply, ghost op: Option<Op>)
      requires Valid()
      modifies this`uploads, storage`files, storage`calls, storage.pool
      ensures Valid() && (op.Some? <==> old(Resolves(id, target)) && readOk)
      ensures op.None? ==> Model() == old(Model())
      ensures op.Some? ==>
                && op.value.Abort? && op.value.id == id && op.value.dropOk == dropOk
                && Model() == Step(old(Model()), op.value)
                && (NoFaults(faults) && dropOk ==> Clean(op.value))
      ensures reply.Done? <==> op.Some? && dropOk
      ensures reply.NoSuchUpload? <==> !old(Resolves(id, target))
      ensures !reply.Done? && !reply.NoSuchUpload? ==> reply.InternalError?
    {
      if !Resolves(id, target) {
        return NoSuchUpload, None;
      }
      var done;
      done, op := AbortUpload(id, readOk, dropOk, faults);
      reply := if done then Done else InternalError;
    }

    /** The janitor's sweep: a run of aborts, one per stale upload whose chunks could be read. */
    method SweepStale(stale: seq<string>, readOk: seq<bool>, dropOk: seq<bool>, faults: seq<bool>)
      returns (ghost ops: seq<Op>)
      requires Valid() && |readOk| == |dropOk| == |stale|
      modifies this`uploads, storage`files, storage`calls, storage.pool
      ensures Valid() && PossibleRun(old(Model()), ops) && Model() == After(old(Model()), ops)
      ensures forall op | op in ops :: op.Abort? && op.id in stale
      ensures (forall ok | ok in readOk :: ok) ==> |ops| == |stale| && forall i | 0 <= i < |ops| :: ops[i].id == stale[i]
      ensures (forall ok | ok in dropOk :: ok) ==> AllDrop(ops)
    {
      hide Step;
      ops := [];
      for i := 0 to |stale|
        invariant Valid() && PossibleRun(old(Model()), ops) && Model() == After(old(Model()), ops)
        invariant forall op | op in ops :: op.Abort? && op.id in stale
        invariant (forall ok | ok in readOk :: ok) ==> |ops| == i && forall j | 0 <= j < i :: ops[j].id == stale[j]
        invariant (forall ok | ok in dropOk :: ok) ==> AllDrop(ops)
      {
        var done, op := AbortUpload(stale[i], readOk[i], dropOk[i], faults);
        if op.Some? {
          assert dropOk[i] in dropOk;
          RunSnoc(old(Model()), ops, op.value);
          ops := ops + [op.value];
        } else {
          assert readOk[i] in readOk;
        }
      }
    }

    // Deleting objects

    /** Deletes an object's messages, then its rows; an object that is not there is no error. */
    method DeleteOneObject(key: ObjectKey, readOk: bool, dropOk: bool, faults: seq<bool>)
      returns (done: bool, ghost op: Option<Op>)
      requires Valid()
      modifies this`objects, storage`files, storage`calls, storage.pool
      ensures Valid() && (op.Some? <==> key in old(objects) && readOk)
      ensures op.None? ==> Model() == old(Model()) && (done <==> key !in old(objects))
      ensures op.Some? ==>
                && op.value.Delete? && op.value.key == key && op.value.dropOk == dropOk && done == dropOk
                && Model() == Step(old(Model()), op.value)
                && (NoFaults(faults) && dropOk ==> Clean(op.value))
    {
      hide Messages;
      if key !in objects {
        return true, None;
      }
      if !readOk {
        return false, None;
      }
      ghost var kept;
      var deleted;
      deleted, kept := Reap(objects[key].chunks, faults);
      op := Some(Delete(key, kept, dropOk));
      if !dropOk {
        return false, op;
      }
      objects := objects - {key};
      return true, op;
    }

    /** Bulk delete: the keys that failed and, unless `quiet`, those that were deleted, in the order asked for. */
    method DeleteObjects(keys: seq<ObjectKey>, quiet: bool, readOk: seq<bool>, dropOk: seq<bool>, faults: seq<bool>)
      returns (reply: Reply, deleted: seq<ObjectKey>, errors: seq<ObjectKey>, ghost ops: seq<Op>)
      requires Valid() && |readOk| == |dropOk| == |keys|
      modifies this`objects, storage`files, storage`calls, storage.pool
      ensures Valid() && PossibleRun(old(Model()), ops) && Model() == After(old(Model()), ops)
      ensures forall op | op in ops :: op.Delete? && op.key in keys
      ensures if 0 < |keys| <= 1000 then reply.Done? else reply.MalformedXML? && ops == []
      ensures reply.Done? ==> Tallied(keys, quiet, deleted, errors)
      ensures reply.Done? ==> forall k | k in keys :: k in errors || k !in objects
      ensures (forall ok | ok in readOk + dropOk :: ok) ==> errors == []
    {
      hide Step, Tallied;
      deleted, errors, ops := [], [], [];
      if |keys| == 0 || |keys| > 1000 {
        return MalformedXML, deleted, errors, ops;
      }
      NothingTallied(quiet);
      assert keys[..0] == [];
      for i := 0 to |keys|
        invariant Valid() && PossibleRun(old(Model()), ops) && Model() == After(old(Model()), ops)
        invariant forall op | op in ops :: op.Delete? && op.key in keys
        invariant Tallied(keys[..i], quiet, deleted, errors)
        invariant forall j | 0 <= j < i :: keys[j] in errors || keys[j] !in objects
        invariant (forall ok | ok in readOk + dropOk :: ok) ==> errors == []
      {
        label Before:
        var done, op := DeleteOneObject(keys[i], readOk[i], dropOk[i], faults);
        if op.Some? {
          RunSnoc(old(Model()), ops, op.value);
          DeleteShrinks(old@Before(Model()), op.value);
          ops := ops + [op.value];
        }
        TallyOne(keys, i, quiet, deleted, errors);
        assert readOk[i] in readOk + dropOk && dropOk[i] in readOk + dropOk;
        if !done {
          errors := errors + [keys[i]];
        } else if !quiet {
          deleted := deleted + [keys[i]];
        }
      }
      assert keys[..|keys|] == keys;
      return Done, deleted, errors, ops;
    }
  }

  /** A part named by another digest's tag is a fault, and the first one if those before it have none. */
  lemma OnlyFault(parts: Parts, req: seq<CompletePart>)
    ensures
      forall i | 0 <= i < |req| && NamesAnother(parts, req[i]) ::
        && !Faultless(parts, req, |req|)
        && forall j | 0 <= j < |req| && Faultless(parts, req, j) && FaultAt(parts, req, j).Some? && Faultless(parts, req, i)
             && req[i].number > (if i == 0 then 0 else req[i - 1].number) ::
             FaultAt(parts, req, j) == Some(InvalidPart)
  {
    hide NamesAnother, FaultAt;
    forall i | 0 <= i < |req| && NamesAnother(parts, req[i])
      ensures
        && !Faultless(parts, req, |req|)
        && forall j | 0 <= j < |req| && Faultless(parts, req, j) && FaultAt(parts, req, j).Some? && Faultless(parts, req, i)
             && req[i].number > (if i == 0 then 0 else req[i - 1].number) ::
             FaultAt(parts, req, j) == Some(InvalidPart)
    {
      AnotherIsInvalid(parts, req, i);
      forall j | 0 <= j < |req| && Faultless(parts, req, j) && FaultAt(parts, req, j).Some? && Faultless(parts, req, i)
        ensures j == i
      {
        OneFirstFault(parts, req, i, j);
      }
    }
  }

  lemma OneFirstFault(parts: Parts, req: seq<CompletePart>, i: nat, j: nat)
    requires i < |req| && Faultless(parts, req, i) && FaultAt(parts, req, i).Some?
    requires j < |req| && Faultless(parts, req, j) && FaultAt(parts, req, j).Some?
    ensures i == j
  {
    hide FaultAt;
  }

  /** The slice copied is the range asked for, and everything without one. */
  ghost predicate CopiesSlice(start: nat, end: nat, range: bytes, size: nat) {
    && start <= end <= size
    && forall body: bytes | |body| == size ::
         body[start..end] == if range == [] then body else Requested(body, ParseByteRange(range, size))
  }

  lemma CopySlice(range: bytes, size: nat)
    requires range == [] || ParseByteRange(range, size).Bytes?
    ensures CopiesSlice(CopyStart(range, size), CopyEnd(range, size), range, size)
  {
    hide ParseByteRange;
    RangeInside(range, size);
  }

  function CopyStart(range: bytes, size: nat): nat {
    var r := ParseByteRange(range, size);
    if range != [] && r.Bytes? then r.start else 0
  }

  function CopyEnd(range: bytes, size: nat): nat {
    var r := ParseByteRange(range, size);
    if range != [] && r.Bytes? then r.end + 1 else size
  }

  /** Every key asked for is reported once, as deleted or as failed; a quiet reply has the failed ones only. */
  predicate Tallied(keys: seq<ObjectKey>, quiet: bool, deleted: seq<ObjectKey>, errors: seq<ObjectKey>) {
    if quiet then deleted == [] && multiset(errors) <= multiset(keys)
    else multiset(deleted) + multiset(errors) == multiset(keys) && (errors == [] ==> deleted == keys)
  }

  lemma NothingTallied(quiet: bool)
    ensures Tallied([], quiet, [], [])
  {
  }

  lemma TallyOne(keys: seq<ObjectKey>, i: nat, quiet: bool, deleted: seq<ObjectKey>, errors: seq<ObjectKey>)
    requires i < |keys| && Tallied(keys[..i], quiet, deleted, errors)
    ensures Tallied(keys[..i + 1], quiet, deleted, errors + [keys[i]])
    ensures Tallied(keys[..i + 1], quiet, if quiet then deleted else deleted + [keys[i]], errors)
  {
    assert keys[..i + 1] == keys[..i] + [keys[i]];
  }

  lemma DeleteShrinks(g: Gateway, op: Op)
    requires op.Delete?
    ensures Step(g, op).objects == if op.dropOk then g.objects - {op.key} else g.objects
  {
  }

  /** The messages of the parts numbered below `n`. */
  function MessagesOf(parts: Parts, n: int): set<nat> {
    set k, c | k in parts && k < n && c in parts[k].chunks :: c.msg
  }

  lemma OneMorePart(parts: Parts, n: int)
    ensures MessagesOf(parts, n + 1) == MessagesOf(parts, n) + (if n in parts then Messages(parts[n].chunks) else {})
  {
  }

  lemma NoPartYet(parts: Parts)
    requires Numbered(parts)
    ensures MessagesOf(parts, 1) == Messages([])
  {
  }

  lemma EveryPart(parts: Parts)
    requires Numbered(parts)
    ensures MessagesOf(parts, MAX_PARTS + 1) == PartMessages(parts)
  {
  }

  lemma {:induction false} RunSnoc(g: Gateway, ops: seq<Op>, op: Op)
    requires PossibleRun(g, ops) && Possible(After(g, ops), op)
    ensures PossibleRun(g, ops + [op]) && After(g, ops + [op]) == Step(After(g, ops), op)
    decreases |ops|
  {
    hide Step, Possible;
    if ops == [] {
      assert ops + [op] == [op] && [op][1..] == [];
    } else {
      assert (ops + [op])[1..] == ops[1..] + [op];
      RunSnoc(Step(g, ops[0]), ops[1..], op);
    }
  }

  /** A write that is not committed leaves the tables alone. */
  lemma UnwrittenPut(g: Gateway, key: ObjectKey, fate: Fate)
    requires !fate.Committed?
    ensures PutRow(g, key, fate) == Settle(g, fate, [])
  {
  }

  lemma UnwrittenPart(g: Gateway, id: string, n: int, etag: bytes, fate: Fate)
    requires !fate.Committed? && id in g.uploads
    ensures PutPartRow(g, id, n, etag, fate) == Settle(g, fate, [])
  {
  }

  /** The rows of a superseded chunk map that could be read before an error. */
  function Superseded(chunks: seq<Chunk>, seen: nat): seq<Chunk> {
    chunks[..Min(seen, |chunks|)]
  }

  lemma SupersededMessages(chunks: seq<Chunk>, seen: nat)
    ensures Messages(Superseded(chunks, seen)) <= Messages(chunks)
    ensures |chunks| <= seen ==> Superseded(chunks, seen) == chunks
  {
  }

  /** The answer to a write of `got` bytes when nothing outside fails. */
  ghost predicate SizeAnswered(declared: bytes, got: nat, reply: Reply) {
    && (declared == [] ==> reply.Done?)
    && (forall n: nat | IsInteger(declared, 10, n) :: reply == if n == got then Done else IncompleteBody)
    && (declared != [] && (forall n: nat :: !IsInteger(declared, 10, n)) ==> reply.InvalidArgument?)
  }

  lemma SizeChecked(declared: bytes, got: nat)
    ensures SizeAnswered(declared, got, CheckSize(declared, got))
    ensures SizeAnswered(declared, got, Done) ==> CheckSize(declared, got).Done?
  {
    hide IsInteger, ParseInt;
    forall n: int
      ensures ParseInt(declared, 10) == Some(n) <==> IsInteger(declared, 10, n)
    {
      ParsesExactly(declared, 10, n);
    }
    NothingIsNoInteger(declared);
  }

  lemma NothingIsNoInteger(text: bytes)
    ensures text == [] ==> forall n: int :: !IsInteger(text, 10, n)
  {
  }

  /** The decimal text of a number announces it. */
  lemma AnnouncedLength(n: nat, got: nat, reply: Reply)
    requires n <= 0x7FFF_FFFF_FFFF_FFFF && SizeAnswered(PrintNat(n, 10), got, reply)
    ensures (reply.Done? <==> n == got) && (n != got ==> reply.IncompleteBody?)
  {
    hide IsInteger, ParseInt;
    ParseIntPrint(n, 10);
    ParsesExactly(PrintNat(n, 10), 10, n);
  }

  /** Whether the announced decoded length, if any, is what arrived. */
  function CheckSize(declared: bytes, got: nat): Reply {
    if declared == [] then Done
    else
      var want := ParseInt(declared, 10);
      if want.None? || want.value < 0 then InvalidArgument
      else if want.value != got then IncompleteBody
      else Done
  }
}

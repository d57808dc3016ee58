/**
 Who owns which Telegram message. Every gateway operation moves messages between fresh,
 referenced by an object row, referenced by a part row, and deleted.
 */
module Ownership {
  import opened ByteStrings
  import opened ChunkMaps
  import opened Etags
  import opened Multipart

  datatype ObjectKey = ObjectKey(bucket: string, key: string)

  datatype ObjectRow = ObjectRow(size: nat, chunks: seq<Chunk>)

  datatype UploadRow = UploadRow(target: ObjectKey, parts: Parts)

  /** The metadata tables and the channel. */
  datatype Gateway = Gateway(objects: map<ObjectKey, ObjectRow>, uploads: map<string, UploadRow>, files: Files, nextMsg: nat)

  datatype RowId = AtObject(key: ObjectKey) | AtPart(upload: string, number: int)

  /** The chunks a row references; a row that does not exist references none. */
  function Row(g: Gateway, r: RowId): seq<Chunk> {
    match r
    case AtObject(key) => if key in g.objects then g.objects[key].chunks else []
    case AtPart(id, n) => if id in g.uploads && n in g.uploads[id].parts then g.uploads[id].parts[n].chunks else []
  }

  predicate Distinct(chunks: seq<Chunk>) {
    forall i, j | 0 <= i < j < |chunks| :: chunks[i].msg != chunks[j].msg
  }

  /** Every message is referenced by at most one row, and at most once there. */
  ghost predicate Owned(g: Gateway) {
    && (forall r :: Distinct(Row(g, r)))
    && (forall r, q | r != q :: Messages(Row(g, r)) !! Messages(Row(g, q)))
  }

  /** The chunks tile [0, size) and every message is live with its recorded size. */
  predicate ObjectOk(files: Files, row: ObjectRow) {
    Tiles(row.chunks) && Total(row.chunks) == row.size && Holds(files, row.chunks)
  }

  predicate RowsOk(g: Gateway) {
    && (forall k | k in g.objects :: ObjectOk(g.files, g.objects[k]))
    && (forall id, n | id in g.uploads && n in g.uploads[id].parts :: PartOk(g.files, g.uploads[id].parts[n]))
  }

  predicate IdsBelowNext(g: Gateway) {
    forall m | m in g.files :: m < g.nextMsg
  }

  ghost predicate Inv(g: Gateway) {
    Owned(g) && RowsOk(g) && IdsBelowNext(g)
  }

  ghost predicate IsReferenced(g: Gateway, m: nat) {
    exists r :: m in Messages(Row(g, r))
  }

  // Operations

  /** The messages a finished upload left, all of them new. */
  datatype NewUpload = NewUpload(chunks: seq<Chunk>, files: Files, next: nat)

  predicate Fresh(g: Gateway, files: Files, next: nat) {
    g.nextMsg <= next && forall m | m in files :: g.nextMsg <= m < next
  }

  predicate FreshUpload(g: Gateway, u: NewUpload) {
    && Fresh(g, u.files, u.next)
    && Tiles(u.chunks) && Holds(u.files, u.chunks) && Distinct(u.chunks)
    && Messages(u.chunks) == u.files.Keys
  }

  /**
   How a write goes: the upload fails and may leave messages behind; or it succeeds and is
   then refused (wrong declared size, failed transaction) and cleaned up; or it is committed and
   the superseded version reaped. `kept` are the messages that were to be deleted and were not.
   */
  datatype Fate =
    | UploadFailed(junk: Files, next: nat)
    | Refused(upload: NewUpload, kept: set<nat>)
    | Committed(upload: NewUpload, kept: set<nat>)

  datatype Op =
    | Put(key: ObjectKey, fate: Fate)
    | Copy(source: ObjectKey, key: ObjectKey, fate: Fate)
    | CreateUpload(id: string, target: ObjectKey)
    | UploadPart(id: string, number: int, etag: bytes, fate: Fate)
    | UploadPartCopy(id: string, number: int, etag: bytes, source: ObjectKey, start: nat, end: nat, fate: Fate)
    | Complete(id: string, req: seq<CompletePart>, commitOk: bool, kept: set<nat>)
    | Abort(id: string, kept: set<nat>, dropOk: bool)
    | Delete(key: ObjectKey, kept: set<nat>, dropOk: bool)

  predicate PossibleFate(g: Gateway, fate: Fate) {
    match fate
    case UploadFailed(junk, next) => Fresh(g, junk, next)
    case Refused(u, _) => FreshUpload(g, u)
    case Committed(u, _) => FreshUpload(g, u)
  }

  function NewContent(fate: Fate): bytes {
    match fate
    case UploadFailed(_, _) => []
    case Refused(u, _) => Content(u.files, u.chunks)
    case Committed(u, _) => Content(u.files, u.chunks)
  }

  function ObjectContent(g: Gateway, key: ObjectKey): bytes {
    Content(g.files, Row(g, AtObject(key)))
  }

  predicate Accepts(g: Gateway, id: string, req: seq<CompletePart>) {
    id in g.uploads && req != [] && Faultless(g.uploads[id].parts, req, |req|)
  }

  /** What can happen next: new messages are new, copies carry their source's bytes, stored tags are hexadecimal. */
  predicate Possible(g: Gateway, op: Op) {
    match op
    case Put(_, fate) => PossibleFate(g, fate)
    case Copy(source, _, fate) =>
      source in g.objects && PossibleFate(g, fate)
      && (!fate.UploadFailed? ==> NewContent(fate) == ObjectContent(g, source))
    case CreateUpload(id, _) => id !in g.uploads
    case UploadPart(id, n, etag, fate) =>
      id in g.uploads && 1 <= n <= 10000 && PossibleFate(g, fate) && HexDecode(etag).Some?
    case UploadPartCopy(id, n, etag, source, start, end, fate) =>
      && id in g.uploads && 1 <= n <= 10000 && PossibleFate(g, fate) && HexDecode(etag).Some?
      && source in g.objects
      && (!fate.UploadFailed? ==> NewContent(fate) == Cut(Laid(g.files, g.objects[source].chunks), start, end))
    case Complete(_, _, _, _) => true
    case Abort(_, _, _) => true
    case Delete(_, _, _) => true
  }

  /** The channel after a write that would supersede `prior`. */
  function Settle(g: Gateway, fate: Fate, prior: seq<Chunk>): Gateway {
    match fate
    case UploadFailed(junk, next) => g.(files := g.files + junk, nextMsg := next)
    case Refused(u, kept) => g.(files := g.files + u.files - (Messages(u.chunks) - kept), nextMsg := u.next)
    case Committed(u, kept) => g.(files := g.files + u.files - (Messages(prior) - kept), nextMsg := u.next)
  }

  function PutRow(g: Gateway, key: ObjectKey, fate: Fate): Gateway {
    var settled := Settle(g, fate, Row(g, AtObject(key)));
    if fate.Committed? then
      settled.(objects := g.objects[key := ObjectRow(Total(fate.upload.chunks), fate.upload.chunks)])
    else settled
  }

  /** Part rows keep no offsets. */
  function DropOffsets(chunks: seq<Chunk>): seq<Chunk> {
    seq(|chunks|, i requires 0 <= i < |chunks| => chunks[i].(offset := 0))
  }

  function PutPartRow(g: Gateway, id: string, n: int, etag: bytes, fate: Fate): Gateway
    requires id in g.uploads
  {
    var settled := Settle(g, fate, Row(g, AtPart(id, n)));
    if fate.Committed? then
      var u := g.uploads[id];
      var part := PartRow(etag, Total(fate.upload.chunks), DropOffsets(fate.upload.chunks));
      settled.(uploads := g.uploads[id := u.(parts := u.parts[n := part])])
    else settled
  }

  function PartMessages(parts: Parts): set<nat> {
    set n, c | n in parts && c in parts[n].chunks :: c.msg
  }

  function Step(g: Gateway, op: Op): Gateway
    requires Possible(g, op)
  {
    match op
    case Put(key, fate) => PutRow(g, key, fate)
    case Copy(_, key, fate) => PutRow(g, key, fate)
    case CreateUpload(id, target) => g.(uploads := g.uploads[id := UploadRow(target, map[])])
    case UploadPart(id, n, etag, fate) => PutPartRow(g, id, n, etag, fate)
    case UploadPartCopy(id, n, etag, _, _, _, fate) => PutPartRow(g, id, n, etag, fate)
    case Complete(id, req, commitOk, kept) =>
      if Accepts(g, id, req) && commitOk then
        var u := g.uploads[id];
        var chunks := Gather(u.parts, req);
        g.(objects := g.objects[u.target := ObjectRow(SumSizes(chunks), Renumber(chunks))],
           uploads := g.uploads - {id},
           files := g.files - (Messages(Row(g, AtObject(u.target))) - kept))
      else g
    case Abort(id, kept, dropOk) =>
      if id in g.uploads then
        g.(files := g.files - (PartMessages(g.uploads[id].parts) - kept),
           uploads := if dropOk then g.uploads - {id} else g.uploads)
      else g
    case Delete(key, kept, dropOk) =>
      if key in g.objects then
        g.(files := g.files - (Messages(g.objects[key].chunks) - kept),
           objects := if dropOk then g.objects - {key} else g.objects)
      else g
  }

  /** The row-drop transaction of a Delete or an Abort commits. */
  predicate Drops(op: Op) {
    (op.Abort? || op.Delete?) ==> op.dropOk
  }
}

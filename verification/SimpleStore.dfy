/** What the gateway looks like to a client: keys and part numbers hold byte strings, and nothing else exists. */
module SimpleStore {
  import opened ByteStrings
  import opened Etags
  import opened Multipart
  import opened Ownership

  datatype Part = Part(etag: bytes, content: bytes)

  datatype Upload = Upload(target: ObjectKey, parts: map<int, Part>)

  datatype Store = Store(objects: map<ObjectKey, bytes>, uploads: map<string, Upload>)

  datatype Request =
    | PutBytes(key: ObjectKey, body: bytes)
    | CopyBytes(source: ObjectKey, key: ObjectKey)
    | Start(id: string, target: ObjectKey)
    | PutPart(id: string, number: int, etag: bytes, body: bytes)
    | CopyPart(id: string, number: int, etag: bytes, source: ObjectKey, start: nat, end: nat)
    | Finish(id: string, req: seq<CompletePart>)
    | Cancel(id: string)
    | Remove(key: ObjectKey)
    | Nothing

  /** Named in strictly ascending order, by the tag of the stored digest, and 5 MiB or more except for the last. */
  ghost predicate Acceptable(parts: map<int, Part>, req: seq<CompletePart>) {
    && req != []
    && (forall i | 0 <= i < |req| :: 0 < req[i].number)
    && (forall i, j | 0 <= i < j < |req| :: req[i].number < req[j].number)
    && (forall i | 0 <= i < |req| ::
          req[i].number in parts && SameDigest(req[i].etag, parts[req[i].number].etag))
    && (forall i | 0 <= i < |req| - 1 :: 5 * 1024 * 1024 <= |parts[req[i].number].content|)
  }

  function Joined(parts: map<int, Part>, req: seq<CompletePart>): bytes {
    Concat(seq(|req|, i requires 0 <= i < |req| =>
                 if req[i].number in parts then parts[req[i].number].content else []))
  }

  ghost function Serve(s: Store, r: Request): Store {
    match r
    case PutBytes(key, body) => s.(objects := s.objects[key := body])
    case CopyBytes(source, key) =>
      if source in s.objects then s.(objects := s.objects[key := s.objects[source]]) else s
    case Start(id, target) => s.(uploads := s.uploads[id := Upload(target, map[])])
    case PutPart(id, n, etag, body) => if id in s.uploads then WithPart(s, id, n, Part(etag, body)) else s
    case CopyPart(id, n, etag, source, start, end) =>
      if id in s.uploads && source in s.objects then WithPart(s, id, n, Part(etag, Cut(s.objects[source], start, end)))
      else s
    case Finish(id, req) =>
      if id in s.uploads && Acceptable(s.uploads[id].parts, req) then
        Store(s.objects[s.uploads[id].target := Joined(s.uploads[id].parts, req)], s.uploads - {id})
      else s
    case Cancel(id) => s.(uploads := s.uploads - {id})
    case Remove(key) => s.(objects := s.objects - {key})
    case Nothing => s
  }

  function WithPart(s: Store, id: string, n: int, part: Part): Store
    requires id in s.uploads
  {
    s.(uploads := s.uploads[id := Upload(s.uploads[id].target, s.uploads[id].parts[n := part])])
  }

  /** The request an operation amounts to: a write that does not commit is no request at all. */
  function RequestOf(op: Op): Request {
    match op
    case Put(key, fate) => if fate.Committed? then PutBytes(key, NewContent(fate)) else Nothing
    case Copy(source, key, fate) => if fate.Committed? then CopyBytes(source, key) else Nothing
    case CreateUpload(id, target) => Start(id, target)
    case UploadPart(id, n, etag, fate) => if fate.Committed? then PutPart(id, n, etag, NewContent(fate)) else Nothing
    case UploadPartCopy(id, n, etag, source, start, end, fate) =>
      if fate.Committed? then CopyPart(id, n, etag, source, start, end) else Nothing
    case Complete(id, req, commitOk, _) => if commitOk then Finish(id, req) else Nothing
    case Abort(id, _, dropOk) => if dropOk then Cancel(id) else Nothing
    case Delete(key, _, dropOk) => if dropOk then Remove(key) else Nothing
  }

  ghost function ServeAll(s: Store, ops: seq<Op>): Store
    decreases |ops|
  {
    if ops == [] then s else ServeAll(Serve(s, RequestOf(ops[0])), ops[1..])
  }
}

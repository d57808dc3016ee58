/** Assembling the parts of a multipart upload into one object. */
module Multipart {
  import opened ByteStrings
  import opened ChunkMaps
  import opened Etags

  const MIN_PART_SIZE: nat := 5 * 1024 * 1024

  /** A stored part; its chunk rows carry no offset. */
  datatype PartRow = PartRow(etag: bytes, size: nat, chunks: seq<Chunk>)

  datatype CompletePart = CompletePart(number: int, etag: bytes)

  datatype PartFault = InvalidPartOrder | InvalidPart | EntityTooSmall | CorruptEtag

  datatype Assembly = MalformedXml | Rejected(fault: PartFault) | Accepted(chunks: seq<Chunk>, digests: bytes, size: nat)

  type Parts = map<int, PartRow>

  function SumSizes(chunks: seq<Chunk>): nat {
    if chunks == [] then 0 else SumSizes(chunks[..|chunks| - 1]) + chunks[|chunks| - 1].size
  }

  /** The same messages in the same order, numbered and placed as one object. */
  function Renumber(chunks: seq<Chunk>): (r: seq<Chunk>)
    ensures |r| == |chunks|
  {
    if chunks == [] then []
    else
      var front, last := chunks[..|chunks| - 1], chunks[|chunks| - 1];
      Renumber(front) + [last.(seqNo := |front|, offset := SumSizes(front))]
  }

  /** What is wrong with the i-th part a Complete request names, checked in the order the handler does. */
  function FaultAt(parts: Parts, req: seq<CompletePart>, i: nat): Option<PartFault>
    requires i < |req|
  {
    var part := req[i];
    if part.number <= (if i == 0 then 0 else req[i - 1].number) then Some(InvalidPartOrder)
    else if part.number !in parts || !Matches(part.etag, parts[part.number].etag) then Some(InvalidPart)
    else if i != |req| - 1 && parts[part.number].size < MIN_PART_SIZE then Some(EntityTooSmall)
    else if HexDecode(parts[part.number].etag).None? then Some(CorruptEtag)
    else None
  }

  predicate Faultless(parts: Parts, req: seq<CompletePart>, n: nat)
    requires n <= |req|
  {
    forall i | 0 <= i < n :: FaultAt(parts, req, i).None?
  }

  predicate Named(parts: Parts, req: seq<CompletePart>) {
    forall p | p in req :: p.number in parts
  }

  /** The chunks of the named parts, part after part. */
  function Gather(parts: Parts, req: seq<CompletePart>): seq<Chunk> {
    if req == [] then []
    else
      var last := req[|req| - 1];
      Gather(parts, req[..|req| - 1]) + (if last.number in parts then parts[last.number].chunks else [])
  }

  function DigestOf(part: PartRow): bytes {
    var raw := HexDecode(part.etag);
    if raw.Some? then raw.value else []
  }

  /** The decoded digests of the named parts, part after part. */
  function Digests(parts: Parts, req: seq<CompletePart>): bytes {
    if req == [] then []
    else
      var last := req[|req| - 1];
      Digests(parts, req[..|req| - 1]) + (if last.number in parts then DigestOf(parts[last.number]) else [])
  }

  lemma {:induction false} SumSizesAppend(a: seq<Chunk>, b: seq<Chunk>)
    ensures SumSizes(a + b) == SumSizes(a) + SumSizes(b)
  {
    if b == [] {
      assert a + b == a;
    } else {
      assert (a + b)[..|a + b| - 1] == a + b[..|b| - 1];
      SumSizesAppend(a, b[..|b| - 1]);
    }
  }

  lemma RenumberSnoc(chunks: seq<Chunk>, c: Chunk)
    ensures Renumber(chunks + [c]) == Renumber(chunks) + [c.(seqNo := |chunks|, offset := SumSizes(chunks))]
  {
    assert (chunks + [c])[..|chunks|] == chunks;
  }

  /** Appends one part's chunks to the object being assembled. */
  method AppendPart(done: seq<Chunk>, ghost raw: seq<Chunk>, size: nat, partChunks: seq<Chunk>)
    returns (chunks: seq<Chunk>, totalSize: nat)
    requires done == Renumber(raw) && size == SumSizes(raw)
    ensures chunks == Renumber(raw + partChunks) && totalSize == SumSizes(raw + partChunks)
  {
    chunks, totalSize := done, size;
    var seqNo := |done|;
    assert raw + partChunks[..0] == raw;
    for i := 0 to |partChunks|
      invariant seqNo == |raw| + i && chunks == Renumber(raw + partChunks[..i]) && totalSize == SumSizes(raw + partChunks[..i])
    {
      var c := partChunks[i];
      assert raw + partChunks[..i + 1] == raw + partChunks[..i] + [c];
      RenumberSnoc(raw + partChunks[..i], c);
      SumSizesAppend(raw + partChunks[..i], [c]);
      chunks := chunks + [c.(seqNo := seqNo, offset := totalSize)];
      seqNo := seqNo + 1;
      totalSize := totalSize + c.size;
    }
    assert partChunks[..|partChunks|] == partChunks;
  }

  /** Complete's loop over the requested parts: the first fault rejects, otherwise everything is gathered. */
  method Assemble(parts: Parts, req: seq<CompletePart>) returns (a: Assembly)
    ensures a.MalformedXml? <==> req == []
    ensures a.Accepted? <==> req != [] && Faultless(parts, req, |req|)
    ensures a.Rejected? ==>
              exists i :: 0 <= i < |req| && Faultless(parts, req, i) && FaultAt(parts, req, i) == Some(a.fault)
    ensures a.Accepted? ==>
              && a.chunks == Renumber(Gather(parts, req))
              && a.digests == Digests(parts, req)
              && a.size == SumSizes(Gather(parts, req))
  {
    hide Renumber, Matches, HexDecode, SumSizes;
    if req == [] {
      return MalformedXml;
    }
    NothingGathered();
    var chunks: seq<Chunk> := [];
    var digests: bytes := [];
    var totalSize, prevPart := 0, 0;
    for i := 0 to |req|
      invariant Faultless(parts, req, i)
      invariant prevPart == if i == 0 then 0 else req[i - 1].number
      invariant chunks == Renumber(Gather(parts, req[..i])) && totalSize == SumSizes(Gather(parts, req[..i]))
      invariant digests == Digests(parts, req[..i])
    {
      assert req[..i + 1][..i] == req[..i];
      var cp := req[i];
      assert Faultless(parts, req, |req|) ==> FaultAt(parts, req, i).None?;
      if cp.number <= prevPart {
        return Rejected(InvalidPartOrder);
      }
      prevPart := cp.number;
      if cp.number !in parts || !Matches(cp.etag, parts[cp.number].etag) {
        return Rejected(InvalidPart);
      }
      var sp := parts[cp.number];
      if i != |req| - 1 && sp.size < MIN_PART_SIZE {
        return Rejected(EntityTooSmall);
      }
      var raw := HexDecode(sp.etag);
      if raw.None? {
        return Rejected(CorruptEtag);
      }
      digests := digests + raw.value;
      chunks, totalSize := AppendPart(chunks, Gather(parts, req[..i]), totalSize, sp.chunks);
    }
    assert req[..|req|] == req;
    return Accepted(chunks, digests, totalSize);
  }

  lemma NothingGathered()
    ensures Renumber([]) == [] && SumSizes([]) == 0
  {
  }

  // What an accepted request means

  /** Named parts ascend strictly, so none is used twice. */
  lemma {:induction false} PartsAscend(parts: Parts, req: seq<CompletePart>, i: nat, j: nat)
    requires Faultless(parts, req, |req|) && i < j < |req|
    ensures 0 < req[i].number < req[j].number
    decreases j
  {
    assert FaultAt(parts, req, j).None?;
    if i < j - 1 {
      PartsAscend(parts, req, i, j - 1);
    } else {
      FirstIsPositive(parts, req, i);
    }
  }

  lemma {:induction false} FirstIsPositive(parts: Parts, req: seq<CompletePart>, i: nat)
    requires Faultless(parts, req, |req|) && i < |req|
    ensures 0 < req[i].number
  {
    assert FaultAt(parts, req, i).None?;
    if i > 0 {
      FirstIsPositive(parts, req, i - 1);
    }
  }

  /** Every named part is stored with a matching tag, and all but the last are at least 5 MiB. */
  lemma PartsQualify(parts: Parts, req: seq<CompletePart>, i: nat)
    requires Faultless(parts, req, |req|) && i < |req|
    ensures req[i].number in parts && Matches(req[i].etag, parts[req[i].number].etag)
    ensures i < |req| - 1 ==> MIN_PART_SIZE <= parts[req[i].number].size
    ensures HexDecode(parts[req[i].number].etag).Some?
  {
    assert FaultAt(parts, req, i).None?;
  }

  /** The request names a stored part by the tag of another digest. */
  ghost predicate NamesAnother(parts: Parts, p: CompletePart) {
    p.number in parts && exists d, e :: SpellsDigest(parts[p.number].etag, e) && TagOf(p.etag, d) && d != e
  }

  /** Such a part is refused, as an invalid one unless it is out of order. */
  lemma AnotherIsInvalid(parts: Parts, req: seq<CompletePart>, i: nat)
    requires i < |req| && NamesAnother(parts, req[i])
    ensures FaultAt(parts, req, i).Some?
    ensures req[i].number > (if i == 0 then 0 else req[i - 1].number) ==> FaultAt(parts, req, i) == Some(InvalidPart)
  {
    hide Matches, SpellsDigest, TagOf;
    var d, e :| SpellsDigest(parts[req[i].number].etag, e) && TagOf(req[i].etag, d) && d != e;
    MatchesExactly(req[i].etag, parts[req[i].number].etag, e);
    if TagOf(req[i].etag, e) {
      TagOfOne(req[i].etag, d, e);
    }
  }

  /** What each answer means, for a part whose stored tag spells digest `e`; a part not stored has none. */
  lemma FaultMeans(parts: Parts, req: seq<CompletePart>, i: nat, e: bytes)
    requires i < |req| && (req[i].number in parts ==> SpellsDigest(parts[req[i].number].etag, e))
    ensures
      var n := req[i].number;
      var ascends := n > (if i == 0 then 0 else req[i - 1].number);
      var named := n in parts && TagOf(req[i].etag, e);
      && (FaultAt(parts, req, i) == Some(InvalidPartOrder) <==> !ascends)
      && (FaultAt(parts, req, i) == Some(InvalidPart) <==> ascends && !named)
      && (FaultAt(parts, req, i) == Some(EntityTooSmall) <==>
          ascends && named && i < |req| - 1 && parts[n].size < 5 * 1024 * 1024)
      && FaultAt(parts, req, i) != Some(CorruptEtag)
  {
    hide Matches, SpellsDigest, TagOf, HexDecode;
    if req[i].number in parts {
      MatchesExactly(req[i].etag, parts[req[i].number].etag, e);
      DecodesExactly(parts[req[i].number].etag, e);
    }
  }

  /** A stored tag that spells no digest is reported as corrupt, unless the part is at fault already. */
  lemma CorruptMeans(parts: Parts, req: seq<CompletePart>, i: nat)
    requires i < |req| && req[i].number in parts && forall e :: !SpellsDigest(parts[req[i].number].etag, e)
    ensures
      var n := req[i].number;
      FaultAt(parts, req, i) == Some(CorruptEtag)
      <==> n > (if i == 0 then 0 else req[i - 1].number) && Matches(req[i].etag, parts[n].etag)
           && (i == |req| - 1 || 5 * 1024 * 1024 <= parts[n].size)
  {
    hide Matches, SpellsDigest, HexDecode;
    var stored := parts[req[i].number].etag;
    if HexDecode(stored).Some? {
      DecodesExactly(stored, HexDecode(stored).value);
      assert false;
    }
  }

  /** A stored part: numbered, nonempty messages adding up to its size. */
  predicate PartOk(files: Files, part: PartRow) {
    && (forall i | 0 <= i < |part.chunks| :: part.chunks[i].seqNo == i && 0 < part.chunks[i].size)
    && SumSizes(part.chunks) == part.size
    && Holds(files, part.chunks)
    && HexDecode(part.etag).Some?
  }

  lemma {:induction false} RenumberTiles(chunks: seq<Chunk>)
    requires forall c | c in chunks :: 0 < c.size
    ensures Tiles(Renumber(chunks)) && Total(Renumber(chunks)) == SumSizes(chunks)
  {
    if chunks != [] {
      var front, last := chunks[..|chunks| - 1], chunks[|chunks| - 1];
      RenumberTiles(front);
      assert chunks == front + [last];
      RenumberSnoc(front, last);
      assert SumSizes(chunks) == SumSizes(front) + last.size;
      hide Tiles, Total, Renumber, SumSizes;
      TilesSnoc(Renumber(front), last.(seqNo := |front|, offset := SumSizes(front)));
    }
  }

  lemma {:induction false} RenumberContent(files: Files, chunks: seq<Chunk>)
    requires Holds(files, chunks)
    ensures Content(files, Renumber(chunks)) == Content(files, chunks)
    ensures Holds(files, Renumber(chunks)) && Messages(Renumber(chunks)) == Messages(chunks)
  {
    if chunks != [] {
      var front, last := chunks[..|chunks| - 1], chunks[|chunks| - 1];
      RenumberContent(files, front);
      assert chunks == front + [last];
      RenumberSnoc(front, last);
      var moved := last.(seqNo := |front|, offset := SumSizes(front));
      ContentSnoc(files, Renumber(front), moved);
      ContentSnoc(files, front, last);
      MessagesSnoc(Renumber(front), moved);
      MessagesSnoc(front, last);
    }
  }

  lemma {:induction false} ContentAppend(files: Files, a: seq<Chunk>, b: seq<Chunk>)
    ensures Content(files, a + b) == Content(files, a) + Content(files, b)
  {
    if b == [] {
      assert a + b == a;
    } else {
      assert (a + b)[..|a + b| - 1] == a + b[..|b| - 1];
      ContentAppend(files, a, b[..|b| - 1]);
    }
  }

  /** The contents of the named parts, in the order they are named. */
  function PartContents(files: Files, parts: Parts, req: seq<CompletePart>): seq<bytes> {
    seq(|req|, i requires 0 <= i < |req| =>
          if req[i].number in parts then Content(files, parts[req[i].number].chunks) else [])
  }

  lemma PartContentsSnoc(files: Files, parts: Parts, req: seq<CompletePart>)
    requires req != [] && req[|req| - 1].number in parts
    ensures
      PartContents(files, parts, req)
      == PartContents(files, parts, req[..|req| - 1]) + [Content(files, parts[req[|req| - 1].number].chunks)]
  {
    hide Content;
  }

  lemma {:induction false} GatherContent(files: Files, parts: Parts, req: seq<CompletePart>)
    requires Named(parts, req)
    ensures Content(files, Gather(parts, req)) == Concat(PartContents(files, parts, req))
  {
    if req != [] {
      var front, last := req[..|req| - 1], req[|req| - 1];
      assert last in req && forall p | p in front :: p in req;
      GatherContent(files, parts, front);
      var mine := parts[last.number].chunks;
      ContentAppend(files, Gather(parts, front), mine);
      PartContentsSnoc(files, parts, req);
      hide Content, PartContents, Concat;
      ConcatSnoc(PartContents(files, parts, front), Content(files, mine));
    }
  }

  lemma {:induction false} GatherHolds(files: Files, parts: Parts, req: seq<CompletePart>)
    requires Named(parts, req) && forall p | p in req :: PartOk(files, parts[p.number])
    ensures Holds(files, Gather(parts, req)) && forall c | c in Gather(parts, req) :: 0 < c.size
  {
    if req != [] {
      var front, last := req[..|req| - 1], req[|req| - 1];
      assert last in req && forall p | p in front :: p in req;
      GatherHolds(files, parts, front);
    }
  }

  lemma {:induction false} DigestsUpTo(parts: Parts, req: seq<CompletePart>, digests: seq<bytes>, n: nat)
    requires |digests| == |req| && Named(parts, req) && n <= |req|
    requires forall i | 0 <= i < |req| :: DigestOf(parts[req[i].number]) == digests[i]
    ensures Digests(parts, req[..n]) == Concat(digests[..n])
  {
    hide DigestOf;
    if n > 0 {
      DigestsUpTo(parts, req, digests, n - 1);
      assert req[..n][..n - 1] == req[..n - 1] && req[..n][n - 1] == req[n - 1];
      assert digests[..n] == digests[..n - 1] + [digests[n - 1]];
      ConcatSnoc(digests[..n - 1], digests[n - 1]);
    }
  }

  /** The digests hashed into an accepted object's tag are the parts' own, in the same order. */
  lemma DigestsInOrder(parts: Parts, req: seq<CompletePart>, digests: seq<bytes>)
    requires |digests| == |req| && Named(parts, req)
    requires forall i | 0 <= i < |req| :: parts[req[i].number].etag == HexEncode(digests[i])
    ensures Digests(parts, req) == Concat(digests)
  {
    forall i | 0 <= i < |req|
      ensures DigestOf(parts[req[i].number]) == digests[i]
    {
      HexRoundTrip(digests[i]);
    }
    DigestsUpTo(parts, req, digests, |req|);
    assert req[..|req|] == req && digests[..|digests|] == digests;
  }

  /** An accepted request yields one chunk map from 0 to the total size holding the named parts in order. */
  lemma AcceptedObject(files: Files, parts: Parts, req: seq<CompletePart>)
    requires req != [] && Faultless(parts, req, |req|) && forall n | n in parts :: PartOk(files, parts[n])
    ensures
      var chunks := Renumber(Gather(parts, req));
      && Tiles(chunks) && Holds(files, chunks) && Total(chunks) == SumSizes(Gather(parts, req))
      && Content(files, chunks) == Concat(PartContents(files, parts, req))
      && Messages(chunks) == Messages(Gather(parts, req))
  {
    forall p | p in req
      ensures p.number in parts
    {
      var i :| 0 <= i < |req| && req[i] == p;
      PartsQualify(parts, req, i);
    }
    GatherHolds(files, parts, req);
    RenumberTiles(Gather(parts, req));
    RenumberContent(files, Gather(parts, req));
    GatherContent(files, parts, req);
  }
}

/** Chunk maps: how an object is laid out over Telegram messages. */
module ChunkMaps {
  import opened ByteStrings

  /** One message holding a contiguous slice of an object. */
  datatype Chunk = Chunk(seqNo: nat, msg: nat, size: nat, offset: nat, botIndex: nat)

  /** The channel: message id to document bytes. */
  type Files = map<nat, bytes>

  function Total(chunks: seq<Chunk>): nat {
    if chunks == [] then 0 else chunks[|chunks| - 1].offset + chunks[|chunks| - 1].size
  }

  /** Numbered 0, 1, 2, ..., never empty, and each starting where the one before ends. */
  predicate Tiles(chunks: seq<Chunk>) {
    forall i | 0 <= i < |chunks| ::
      && chunks[i].seqNo == i
      && 0 < chunks[i].size
      && chunks[i].offset == Total(chunks[..i])
  }

  /** Every message is there and holds exactly its recorded size. */
  predicate Holds(files: Files, chunks: seq<Chunk>) {
    forall c | c in chunks :: c.msg in files && |files[c.msg]| == c.size
  }

  function Content(files: Files, chunks: seq<Chunk>): bytes {
    if chunks == [] then []
    else
      var last := chunks[|chunks| - 1];
      Content(files, chunks[..|chunks| - 1]) + (if last.msg in files then files[last.msg] else [])
  }

  /** A read of [a, b) touches the chunk. */
  predicate Needed(c: Chunk, a: nat, b: nat) {
    c.offset < b && a < c.offset + c.size
  }

  /** What a read of [a, b) touches is there and whole. */
  predicate HoldsOver(files: Files, chunks: seq<Chunk>, a: nat, b: nat) {
    forall c | c in chunks && Needed(c, a, b) :: c.msg in files && |files[c.msg]| == c.size
  }

  /** The object's bytes at their recorded places, with zeros where a message is gone. */
  function Laid(files: Files, chunks: seq<Chunk>): bytes {
    if chunks == [] then []
    else
      var last := chunks[|chunks| - 1];
      Laid(files, chunks[..|chunks| - 1])
      + (if last.msg in files && |files[last.msg]| == last.size then files[last.msg] else seq(last.size, _ => 0))
  }

  lemma {:induction false} LaidIsContent(files: Files, chunks: seq<Chunk>)
    requires Holds(files, chunks)
    ensures Laid(files, chunks) == Content(files, chunks)
  {
    if chunks != [] {
      LaidIsContent(files, chunks[..|chunks| - 1]);
    }
  }

  function Messages(chunks: seq<Chunk>): set<nat> {
    set c | c in chunks :: c.msg
  }

  lemma MessagesSnoc(chunks: seq<Chunk>, c: Chunk)
    ensures Messages(chunks + [c]) == Messages(chunks) + {c.msg}
  {
    forall m | m in Messages(chunks)
      ensures m in Messages(chunks + [c])
    {
      var d :| d in chunks && d.msg == m;
      assert d in chunks + [c];
    }
    assert c in chunks + [c];
  }

  lemma MessagesAppend(a: seq<Chunk>, b: seq<Chunk>)
    ensures Messages(a + b) == Messages(a) + Messages(b)
  {
    forall m | m in Messages(a) + Messages(b)
      ensures m in Messages(a + b)
    {
      var c :| (c in a || c in b) && c.msg == m;
      assert c in a + b;
    }
  }

  lemma TilesPrefix(chunks: seq<Chunk>, n: nat)
    requires Tiles(chunks) && n <= |chunks|
    ensures Tiles(chunks[..n])
  {
    forall i | 0 <= i < n
      ensures chunks[..n][..i] == chunks[..i]
    {
    }
  }

  lemma TilesSnoc(chunks: seq<Chunk>, c: Chunk)
    requires Tiles(chunks) && c.seqNo == |chunks| && 0 < c.size && c.offset == Total(chunks)
    ensures Tiles(chunks + [c]) && Total(chunks + [c]) == Total(chunks) + c.size
  {
    var more := chunks + [c];
    forall i | 0 <= i < |more|
      ensures more[i].seqNo == i && 0 < more[i].size && more[i].offset == Total(more[..i])
    {
      assert more[..i] == chunks[..i];
      assert chunks[..|chunks|] == chunks;
    }
  }

  lemma ContentSnoc(files: Files, chunks: seq<Chunk>, c: Chunk)
    requires c.msg in files
    ensures Content(files, chunks + [c]) == Content(files, chunks) + files[c.msg]
  {
    assert (chunks + [c])[..|chunks|] == chunks;
  }

  /** Chunks before `j` end no later than chunk `j` starts. */
  lemma {:induction false} TilesOrdered(chunks: seq<Chunk>, i: nat, j: nat)
    requires Tiles(chunks) && i < j < |chunks|
    ensures chunks[i].offset + chunks[i].size <= chunks[j].offset
    decreases j
  {
    assert chunks[j].offset == chunks[j - 1].offset + chunks[j - 1].size by {
      assert chunks[..j][j - 1] == chunks[j - 1];
    }
    if i < j - 1 {
      TilesOrdered(chunks, i, j - 1);
    }
  }

  lemma {:induction false} ContentSize(files: Files, chunks: seq<Chunk>)
    requires Tiles(chunks) && Holds(files, chunks)
    ensures |Content(files, chunks)| == Total(chunks)
  {
    if chunks != [] {
      var n := |chunks| - 1;
      TilesPrefix(chunks, n);
      ContentSize(files, chunks[..n]);
    }
  }

  lemma SliceOfFront(front: bytes, last: bytes, a: nat, b: nat)
    requires a <= b <= |front|
    ensures (front + last)[a..b] == front[a..b]
  {
  }

  lemma SliceOfBack(front: bytes, last: bytes)
    ensures (front + last)[|front|..|front| + |last|] == last
  {
  }

  lemma LastAt(files: Files, chunks: seq<Chunk>)
    requires Tiles(chunks) && Holds(files, chunks) && chunks != []
    ensures
      var front, last := Content(files, chunks[..|chunks| - 1]), chunks[|chunks| - 1];
      && last.msg in files && Content(files, chunks) == front + files[last.msg]
      && |front| == last.offset && |files[last.msg]| == last.size
  {
    TilesPrefix(chunks, |chunks| - 1);
    ContentSize(files, chunks[..|chunks| - 1]);
  }

  /** Each chunk's recorded place in the object is exactly its message's bytes. */
  lemma {:induction false} ContentAt(files: Files, chunks: seq<Chunk>, i: nat)
    requires Tiles(chunks) && Holds(files, chunks) && i < |chunks|
    ensures chunks[i].msg in files && chunks[i].offset + chunks[i].size <= |Content(files, chunks)|
    ensures Content(files, chunks)[chunks[i].offset..chunks[i].offset + chunks[i].size] == files[chunks[i].msg]
    decreases |chunks|
  {
    hide Content, Tiles, Holds;
    var n := |chunks| - 1;
    LastAt(files, chunks);
    var front, last, all := Content(files, chunks[..n]), files[chunks[n].msg], Content(files, chunks);
    var a, b := chunks[i].offset, chunks[i].offset + chunks[i].size;
    if i < n {
      assert chunks[..n][i] == chunks[i];
      TilesPrefix(chunks, n);
      HoldsPrefix(files, chunks, n);
      ContentAt(files, chunks[..n], i);
      SliceOfFront(front, last, a, b);
      assert all[a..b] == front[a..b];
    } else {
      SliceOfBack(front, last);
      assert all[a..b] == last;
    }
  }

  lemma HoldsPrefix(files: Files, chunks: seq<Chunk>, n: nat)
    requires Holds(files, chunks) && n <= |chunks|
    ensures Holds(files, chunks[..n]) && forall i | 0 <= i < |chunks| :: chunks[i].msg in files
  {
  }

  /** Messages that are not referenced do not matter. */
  lemma {:induction false} ContentFrame(files: Files, files': Files, chunks: seq<Chunk>)
    requires forall c | c in chunks && c.msg in files :: c.msg in files' && files'[c.msg] == files[c.msg]
    requires forall c | c in chunks :: c.msg in files
    ensures Content(files', chunks) == Content(files, chunks)
    ensures Holds(files, chunks) ==> Holds(files', chunks)
  {
    if chunks != [] {
      ContentFrame(files, files', chunks[..|chunks| - 1]);
    }
  }
}

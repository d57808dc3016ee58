/** What an `aws-chunked` body looks like, told apart from how it is read, and that the reader accepts exactly that. */
module ChunkedGrammar {
  import opened ByteStrings
  import opened Text
  import opened TextGrammar
  import opened ChunkHeaders
  import opened AwsChunked

  // The grammar

  const LINE_END: bytes := ['\r' as int, '\n' as int]

  /** A header line, as many bytes as it says, and a line end. */
  ghost predicate IsChunk(text: bytes, data: bytes) {
    data != [] && exists line :: IsLine(line, |data|) && text == line + LINE_FEED + data + LINE_END
  }

  ghost predicate AreChunks(texts: seq<bytes>, chunks: seq<bytes>) {
    |texts| == |chunks| && forall i | 0 <= i < |texts| :: IsChunk(texts[i], chunks[i])
  }

  /** Chunks and a header line of size zero. */
  ghost predicate IsBody(text: bytes, chunks: seq<bytes>) {
    exists texts, line :: AreChunks(texts, chunks) && IsLine(line, 0) && text == Concat(texts) + line + LINE_FEED
  }

  // Chunks

  lemma LineEndRead(b: Body, pos: nat)
    requires pos <= |b.data|
    ensures CrlfAt(b, pos) == Ok((), pos + 2) <==> At(b, pos, LINE_END)
    ensures pos + 2 <= |b.data| && !At(b, pos, LINE_END) ==> CrlfAt(b, pos) == Fail(MalformedTerminator)
  {
    if pos + 2 <= |b.data| {
      assert b.data[pos..pos + 2] == [b.data[pos], b.data[pos + 1]];
    }
  }

  lemma ChunkRead(b: Body, pos: nat, text: bytes, data: bytes)
    requires At(b, pos, text) && IsChunk(text, data)
    ensures Decode(b, pos) == Prepend(data, Decode(b, pos + |text|))
  {
    hide HeaderAt, CrlfAt, Decode, DecodeData, IsLine, Prepend;
    var line :| IsLine(line, |data|) && text == line + LINE_FEED + data + LINE_END;
    AtSplit(b, pos, line + LINE_FEED + data, LINE_END);
    AtSplit(b, pos, line + LINE_FEED, data);
    HeaderLine(b, pos, line, |data|);
    DecodeStep(b, pos);
    DataDone(b, pos + |line| + 1, |data|);
    LineEndRead(b, pos + |line| + 1 + |data|);
  }

  lemma {:induction false} ChunksRead(b: Body, pos: nat, texts: seq<bytes>, chunks: seq<bytes>)
    requires AreChunks(texts, chunks) && At(b, pos, Concat(texts))
    ensures Decode(b, pos) == Prepend(Concat(chunks), Decode(b, pos + |Concat(texts)|))
    decreases |texts|
  {
    hide Decode, IsChunk;
    if texts == [] {
      assert Concat(chunks) == [];
      NothingPrepended(Decode(b, pos));
    } else {
      AtSplit(b, pos, texts[0], Concat(texts[1..]));
      ChunkRead(b, pos, texts[0], chunks[0]);
      ChunksRead(b, pos + |texts[0]|, texts[1..], chunks[1..]);
      hide At;
      PrependPrepend(chunks[0], Concat(chunks[1..]), Decode(b, pos + |Concat(texts)|));
    }
  }

  lemma NothingPrepended(o: Outcome)
    ensures Prepend([], o) == o
  {
    assert [] + o.output == o.output;
  }

  // Bodies

  /** A well-framed body gives its chunks' bytes and ends cleanly behind the zero line, whatever follows. */
  lemma BodyRead(b: Body, end: nat, chunks: seq<bytes>)
    requires end <= |b.data| && IsBody(b.data[..end], chunks)
    ensures Decode(b, 0) == Outcome(Concat(chunks), Eof, end)
  {
    hide Decode, IsLine, AreChunks, HeaderAt;
    var texts, line :| AreChunks(texts, chunks) && IsLine(line, 0) && b.data[..end] == Concat(texts) + line + LINE_FEED;
    var pos := |Concat(texts)|;
    assert b.data[0..end] == Concat(texts) + (line + LINE_FEED);
    AtSplit(b, 0, Concat(texts), line + LINE_FEED);
    ChunksRead(b, 0, texts, chunks);
    HeaderLine(b, pos, line, 0);
    DecodeStep(b, pos);
    assert Concat(chunks) + [] == Concat(chunks);
  }

  lemma ChunkFound(b: Body, pos: nat) returns (text: bytes, data: bytes)
    requires pos <= |b.data| && Decode(b, pos).error.Eof? && HeaderAt(b, pos).Ok? && HeaderAt(b, pos).value != 0
    ensures IsChunk(text, data) && At(b, pos, text)
    ensures Decode(b, pos) == Prepend(data, Decode(b, pos + |text|))
  {
    hide HeaderAt, CrlfAt, IsLine, Decode, DecodeData;
    DecodeStep(b, pos);
    var h := HeaderAt(b, pos);
    var line := LineFound(b, pos);
    DataShort(b, h.next, h.value);
    DataDone(b, h.next, h.value);
    LineEndRead(b, h.next + h.value);
    data := b.data[h.next..h.next + h.value];
    text := line + LINE_FEED + data + LINE_END;
    ChunkText(b, pos, line, data);
  }

  lemma DataShort(b: Body, pos: nat, remaining: nat)
    requires pos <= |b.data| && DecodeData(b, pos, remaining).error.Eof?
    ensures pos + remaining <= |b.data|
  {
  }

  lemma {:induction false} BodyFound(b: Body, pos: nat) returns (texts: seq<bytes>, chunks: seq<bytes>, line: bytes)
    requires pos <= |b.data| && Decode(b, pos).error.Eof?
    ensures AreChunks(texts, chunks) && IsLine(line, 0)
    ensures pos <= Decode(b, pos).at <= |b.data|
    ensures b.data[pos..Decode(b, pos).at] == Concat(texts) + line + LINE_FEED
    decreases |b.data| - pos
  {
    hide HeaderAt, IsLine, Decode, DecodeData, IsChunk;
    DecodeStep(b, pos);
    if HeaderAt(b, pos).value == 0 {
      line := LineFound(b, pos);
      texts, chunks := [], [];
      assert Concat(texts) + line + LINE_FEED == line + LINE_FEED;
    } else {
      var text, data := ChunkFound(b, pos);
      ChunkNotEmpty(text, data);
      var rest, more, last := BodyFound(b, pos + |text|);
      line := last;
      texts, chunks := [text] + rest, [data] + more;
      ConcatAppend([text], rest);
      ConcatOne(text);
      hide Concat, AreChunks;
      var end := Decode(b, pos).at;
      assert b.data[pos..end] == b.data[pos..pos + |text|] + b.data[pos + |text|..end];
      assert Concat(texts) + line + LINE_FEED == text + (Concat(rest) + line + LINE_FEED);
      assert AreChunks(texts, chunks) by { OneMore(text, data, rest, more); }
    }
  }

  lemma ChunkNotEmpty(text: bytes, data: bytes)
    requires IsChunk(text, data)
    ensures text != []
  {
  }

  lemma OneMore(text: bytes, data: bytes, texts: seq<bytes>, chunks: seq<bytes>)
    requires IsChunk(text, data) && AreChunks(texts, chunks)
    ensures AreChunks([text] + texts, [data] + chunks)
  {
    hide IsChunk;
  }

  lemma ChunkText(b: Body, pos: nat, line: bytes, data: bytes)
    requires At(b, pos, line + LINE_FEED) && At(b, pos + |line| + 1, data) && At(b, pos + |line| + 1 + |data|, LINE_END)
    ensures
      var text := line + LINE_FEED + data + LINE_END;
      At(b, pos, text)
  {
    AtSplit(b, pos, line + LINE_FEED + data, LINE_END);
    AtSplit(b, pos, line + LINE_FEED, data);
  }

  lemma ConcatOne(text: bytes)
    ensures Concat([text]) == text
  {
    assert text + Concat([]) == text;
  }

  /** A reader reports the end of the body exactly when what it consumed is chunks and a zero header line. */
  lemma EndsCleanlyExactly(b: Body, end: nat)
    ensures
      (Decode(b, 0).error.Eof? && Decode(b, 0).at == end)
      <==> end <= |b.data| && exists chunks :: IsBody(b.data[..end], chunks)
  {
    hide Decode, AreChunks, IsLine;
    if Decode(b, 0).error.Eof? && Decode(b, 0).at == end {
      var texts, chunks, line := BodyFound(b, 0);
      assert b.data[..end] == b.data[0..end];
      assert IsBody(b.data[..end], chunks);
    }
    if end <= |b.data| && exists chunks :: IsBody(b.data[..end], chunks) {
      var chunks :| IsBody(b.data[..end], chunks);
      BodyRead(b, end, chunks);
    }
  }

  // Bodies that end badly

  /** Behind `texts` comes a line that is no header. */
  ghost predicate BadLineBehind(data: bytes, texts: seq<bytes>, line: bytes) {
    Concat(texts) + (line + LINE_FEED) <= data && Fits(line) && forall size: nat :: !IsHeader(line, size)
  }

  /** A line behind the chunks that is no header is refused. */
  lemma BadHeaderRefused(b: Body, texts: seq<bytes>, chunks: seq<bytes>, line: bytes)
    requires AreChunks(texts, chunks) && BadLineBehind(b.data, texts, line)
    ensures Decode(b, 0) == Outcome(Concat(chunks), InvalidSize, |Concat(texts)|)
  {
    hide Decode, AreChunks, HeaderAt, IsHeader;
    AtSplit(b, 0, Concat(texts), line + LINE_FEED);
    ChunksRead(b, 0, texts, chunks);
    NoHeaderLine(b, |Concat(texts)|, line);
    DecodeStep(b, |Concat(texts)|);
    assert Concat(chunks) + [] == Concat(chunks);
  }

  /** As is one that does not fit, or that the body ends in. */
  lemma OpenHeaderRefused(b: Body, texts: seq<bytes>, chunks: seq<bytes>, rest: bytes)
    requires AreChunks(texts, chunks) && b.data == Concat(texts) + rest
    requires forall i | 0 <= i < |rest| && i < 4096 :: rest[i] != '\n' as int
    ensures
      Decode(b, 0)
      == Outcome(Concat(chunks),
                 if 4096 <= |rest| then HeaderTooLong else if b.broken then Transport else TruncatedHeader,
                 |Concat(texts)|)
  {
    hide Decode, AreChunks, IndexByte;
    var pos := |Concat(texts)|;
    assert b.data[0..pos] == Concat(texts) && b.data[pos..] == rest;
    ChunksRead(b, 0, texts, chunks);
    var window := Cut(b.data, pos, pos + BUFFER_SIZE);
    forall i | 0 <= i < |window|
      ensures window[i] != LF
    {
      assert window[i] == rest[i];
    }
    DecodeStep(b, pos);
    assert Concat(chunks) + [] == Concat(chunks);
  }

  /** A chunk shorter than its header says delivers what there is and is refused. */
  lemma ShortChunkRefused(b: Body, texts: seq<bytes>, chunks: seq<bytes>, line: bytes, size: nat, data: bytes)
    requires AreChunks(texts, chunks) && IsLine(line, size) && |data| < size
    requires b.data == Concat(texts) + (line + LINE_FEED) + data
    ensures
      Decode(b, 0) == Outcome(Concat(chunks) + data, if b.broken then Transport else TruncatedBody, |b.data|)
  {
    hide Decode, AreChunks, HeaderAt, IsLine;
    var pos, at := |Concat(texts)|, |Concat(texts)| + |line| + 1;
    assert b.data[0..pos] == Concat(texts) && b.data[pos..at] == line + LINE_FEED && b.data[at..] == data;
    ChunksRead(b, 0, texts, chunks);
    HeaderLine(b, pos, line, size);
    DecodeStep(b, pos);
  }

  /** A chunk without its line end delivers its bytes and is refused. */
  lemma OpenChunkRefused(b: Body, texts: seq<bytes>, chunks: seq<bytes>, line: bytes, data: bytes, rest: bytes)
    requires AreChunks(texts, chunks) && data != [] && IsLine(line, |data|)
    requires b.data == Concat(texts) + (line + LINE_FEED) + data + rest && !(LINE_END <= rest)
    ensures
      Decode(b, 0)
      == Outcome(Concat(chunks) + data,
                 if 2 <= |rest| then MalformedTerminator else if b.broken then Transport else MissingTerminator,
                 |b.data| - |rest|)
  {
    hide Decode, DecodeData, AreChunks, HeaderAt, IsLine;
    var pos, at := |Concat(texts)|, |Concat(texts)| + |line| + 1;
    var end := at + |data|;
    assert b.data[0..pos] == Concat(texts) && b.data[pos..at] == line + LINE_FEED;
    assert b.data[at..end] == data && b.data[end..] == rest;
    ChunksRead(b, 0, texts, chunks);
    HeaderLine(b, pos, line, |data|);
    DecodeStep(b, pos);
    DataDone(b, at, |data|);
    Unterminated(b, end);
    hide LINE_END, LINE_FEED;
  }

  lemma Unterminated(b: Body, end: nat)
    requires end <= |b.data| && !(LINE_END <= b.data[end..])
    ensures CrlfAt(b, end)
            == Fail(if end + 2 <= |b.data| then MalformedTerminator
                    else if b.broken then Transport
                    else MissingTerminator)
  {
    LineEndRead(b, end);
    if end + 2 <= |b.data| {
      assert b.data[end..end + 2] == b.data[end..][..2];
    }
  }
}

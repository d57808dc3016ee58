/** De-framing an `aws-chunked` request body, read by read, against decoding the whole body at once. */
module AwsChunked {
  import opened ByteStrings
  import opened Text
  import opened ChunkHeaders

  // The pieces of the framing

  function CrlfAt(b: Body, pos: nat): (r: Result<()>)
    requires pos <= |b.data|
    ensures if r.Ok? then r.next == pos + 2 <= |b.data| else r.error != Eof
  {
    if |b.data| < pos + 2 then Fail(b.End(MissingTerminator))
    else if b.data[pos] != CR || b.data[pos + 1] != LF then Fail(MalformedTerminator)
    else Ok((), pos + 2)
  }

  // Decoding the whole body

  /** All bytes a reader gets, the error it ends in, and where the framing was left. */
  datatype Outcome = Outcome(output: bytes, error: ReadError, at: nat)

  function Prepend(data: bytes, o: Outcome): Outcome {
    Outcome(data + o.output, o.error, o.at)
  }

  /**
   Which of two errors is reported at the end of the body depends on whether its end comes with its last bytes: a chunk
   that is complete but for its terminator is then taken for a short one.
   */
  predicate Alike(reported: ReadError, decoded: ReadError) {
    reported == decoded || (reported.TruncatedBody? && decoded.MissingTerminator?)
  }

  /** From a chunk header on. */
  function Decode(b: Body, pos: nat): Outcome
    requires pos <= |b.data|
    decreases |b.data| - pos, 1
  {
    var h := HeaderAt(b, pos);
    if h.Fail? then Outcome([], h.error, pos)
    else if h.value == 0 then Outcome([], Eof, h.next)
    else DecodeData(b, h.next, h.value)
  }

  /** From inside a chunk with `remaining` bytes to go. */
  function DecodeData(b: Body, pos: nat, remaining: nat): Outcome
    requires pos <= |b.data|
    decreases |b.data| - pos, 0
  {
    if |b.data| < pos + remaining then Outcome(b.data[pos..], b.End(TruncatedBody), |b.data|)
    else
      var end := pos + remaining;
      var crlf := CrlfAt(b, end);
      if crlf.Fail? then Outcome(b.data[pos..end], crlf.error, end)
      else Prepend(b.data[pos..end], Decode(b, crlf.next))
  }

  lemma DecodeStep(b: Body, pos: nat)
    requires pos <= |b.data|
    ensures
      var h := HeaderAt(b, pos);
      Decode(b, pos) == if h.Fail? then Outcome([], h.error, pos)
                        else if h.value == 0 then Outcome([], Eof, h.next)
                        else DecodeData(b, h.next, h.value)
  {
  }

  lemma DataMore(b: Body, pos: nat, remaining: nat, n: nat)
    requires n < remaining && pos + n <= |b.data|
    ensures DecodeData(b, pos, remaining) == Prepend(b.data[pos..pos + n], DecodeData(b, pos + n, remaining - n))
  {
    hide Decode, CrlfAt;
    var end := pos + remaining;
    if end <= |b.data| {
      assert b.data[pos..end] == b.data[pos..pos + n] + b.data[pos + n..end];
    } else {
      assert b.data[pos..] == b.data[pos..pos + n] + b.data[pos + n..];
    }
  }

  lemma DataEnds(b: Body, remaining: nat)
    requires 0 < remaining
    ensures DecodeData(b, |b.data|, remaining) == Outcome([], b.End(TruncatedBody), |b.data|)
  {
  }

  lemma NoTerminator(b: Body)
    ensures CrlfAt(b, |b.data|) == Fail(b.End(MissingTerminator))
  {
  }

  /** What is reported when the end of the body comes with its last bytes. */
  lemma EndsTogether(b: Body, pos: nat, remaining: nat)
    requires pos <= |b.data| <= pos + remaining && 0 < remaining
    ensures
      var o := DecodeData(b, pos, remaining);
      o.output == b.data[pos..] && Alike(b.End(TruncatedBody), o.error)
  {
    hide Decode, CrlfAt;
    NoTerminator(b);
  }

  lemma DataDone(b: Body, pos: nat, remaining: nat)
    requires pos + remaining <= |b.data|
    ensures
      var data, crlf := b.data[pos..pos + remaining], CrlfAt(b, pos + remaining);
      DecodeData(b, pos, remaining)
      == if crlf.Fail? then Outcome(data, crlf.error, pos + remaining) else Prepend(data, Decode(b, crlf.next))
  {
  }

  // The incremental reader

  class Reader {
    const body: Body
    var pos: nat
    var remaining: nat
    var done: bool

    predicate Valid()
      reads this
    {
      pos <= |body.data|
    }

    /** What the reads still to come add up to. */
    ghost function Rest(): Outcome
      requires Valid()
      reads this
    {
      if done then Outcome([], Eof, pos)
      else if remaining == 0 then Decode(body, pos)
      else DecodeData(body, pos, remaining)
    }

    constructor (body: Body)
      ensures Valid() && this.body == body && Rest() == Decode(body, 0)
    {
      this.body, pos, remaining, done := body, 0, 0, false;
    }

    method ReadLine() returns (line: Option<bytes>, error: ReadError)
      requires Valid()
      modifies this`pos
      ensures Valid()
      ensures
        var r := LineAt(body, old(pos));
        if r.Ok? then line == Some(r.value) && pos == r.next else line.None? && error == r.error
    {
      error := Eof;
      var window := Cut(body.data, pos, pos + BUFFER_SIZE);
      var i := IndexByte(window, LF);
      if i.None? {
        pos := pos + |window|;
        if |window| == BUFFER_SIZE {
          return None, HeaderTooLong;
        }
        return None, if body.broken then Transport else TruncatedHeader;
      }
      pos := pos + i.value + 1;
      line := Some(TrimLineEnd(window[..i.value]));
    }

    method ReadChunkSize() returns (size: Option<nat>, error: ReadError)
      requires Valid()
      modifies this`pos
      ensures Valid()
      ensures
        var r := HeaderAt(body, old(pos));
        if r.Ok? then size == Some(r.value) && pos == r.next else size.None? && error == r.error
      ensures
        forall line, n: nat | IsLine(line, n) && At(body, old(pos), line + LINE_FEED) ::
          size == Some(n) && pos == old(pos) + |line| + 1
      ensures
        forall line | Fits(line) && At(body, old(pos), line + LINE_FEED) && (forall n: nat :: !IsHeader(line, n)) ::
          size.None? && error == InvalidSize
      ensures NoLineAt(body, old(pos)) ==>
                && size.None?
                && error == if old(pos) + 4096 <= |body.data| then HeaderTooLong
                            else if body.broken then Transport
                            else TruncatedHeader
    {
      HeaderMeans(body, pos);
      hide IsLine, IsHeader, Fits, At, NoLineAt;
      var line;
      line, error := ReadLine();
      if line.None? {
        return None, error;
      }
      var text := line.value;
      var semicolon := IndexByte(text, SEMICOLON);
      if semicolon.Some? {
        text := text[..semicolon.value];
      }
      var parsed := ParseInt(TrimSpace(text), 16);
      if parsed.None? || parsed.value < 0 {
        return None, InvalidSize;
      }
      size := Some(parsed.value);
    }

    method ConsumeCrlf() returns (ok: bool, error: ReadError)
      requires Valid()
      modifies this`pos
      ensures Valid()
      ensures
        var r := CrlfAt(body, old(pos));
        if r.Ok? then ok && pos == r.next else !ok && error == r.error
    {
      ok, error := false, Eof;
      if |body.data| < pos + 2 {
        pos := |body.data|;
        error := if body.broken then Transport else MissingTerminator;
        return;
      }
      var first, second := body.data[pos], body.data[pos + 1];
      pos := pos + 2;
      if first != CR || second != LF {
        error := MalformedTerminator;
        return;
      }
      ok := true;
    }

    /** Between chunks: enters the next one, or answers the end or the fault that is there instead. */
    method NextChunk() returns (error: Option<ReadError>)
      requires Valid() && !done && remaining == 0
      modifies this
      ensures Valid() && (done <==> error == Some(Eof))
      ensures error.None? ==> 0 < remaining && Rest() == old(Rest())
      ensures error.Some? ==> old(Rest()).output == [] && error.value == old(Rest()).error
    {
      hide Decode, DecodeData, HeaderAt;
      DecodeStep(body, pos);
      var size, failed := ReadChunkSize();
      if size.None? {
        return Some(failed);
      }
      if size.value == 0 {
        done := true;
        return Some(Eof);
      }
      remaining := size.value;
      return None;
    }

    lemma DoneMeans()
      requires Valid() && done
      ensures Rest() == Outcome([], Eof, pos)
    {
    }

    /** Inside a chunk: what is left of it, as far as the buffer and the layer below go, and its terminator behind it. */
    method ReadData(want: nat, short: nat, together: bool) returns (data: bytes, error: Option<ReadError>)
      requires Valid() && !done && 0 < remaining
      modifies this
      ensures Valid() && !done && |data| <= Min(want, short)
      ensures error.None? ==> old(Rest()) == Prepend(data, Rest())
      ensures error.Some? ==> data == old(Rest()).output && Alike(error.value, old(Rest()).error) && error.value != Eof
      ensures error.Some? && !together ==> error.value == old(Rest()).error
      ensures error.None? && 0 < want && 0 < short ==> data != []
    {
      hide Decode, DecodeData, HeaderAt, CrlfAt;
      var n := Min(Min(Min(want, remaining), short), |body.data| - pos);
      data := body.data[pos..pos + n];
      var atEnd := (pos == |body.data| && 0 < want) || (together && pos + n == |body.data|);
      if pos + n == |body.data| {
        EndsTogether(body, pos, remaining);
        assert body.data[pos..pos + n] == body.data[pos..];
      }
      if pos == |body.data| {
        DataEnds(body, remaining);
      } else if n < remaining {
        DataMore(body, pos, remaining, n);
      } else {
        DataDone(body, pos, remaining);
      }
      pos := pos + n;
      remaining := remaining - n;
      if atEnd {
        return data, Some(if body.broken then Transport else TruncatedBody);
      }
      if remaining == 0 {
        var ok, failed := ConsumeCrlf();
        if !ok {
          return data, Some(failed);
        }
      }
      error := None;
    }

    /**
     One read into a buffer of `want` bytes, of which the layer below fills at most `short`; `together` says that it
     hands back the end of the body along with the last bytes, not on the next read.
     Reads that return no error consume the outcome from the front; the first error comes with all that is left.
     */
    method Read(want: nat, short: nat, together: bool) returns (data: bytes, error: Option<ReadError>)
      requires Valid()
      modifies this
      ensures Valid() && |data| <= Min(want, short)
      ensures error.None? ==> old(Rest()) == Prepend(data, Rest())
      ensures error.Some? ==> data == old(Rest()).output && Alike(error.value, old(Rest()).error)
      ensures error.Some? && !together ==> error.value == old(Rest()).error
      ensures error == Some(Eof) <==> done
      ensures old(done) ==> done && data == [] && error == Some(Eof)
      ensures error.None? && 0 < want && 0 < short ==> data != []
    {
      hide Rest;
      if done {
        DoneMeans();
        return [], Some(Eof);
      }
      if remaining == 0 {
        error := NextChunk();
        if error.Some? {
          return [], error;
        }
      }
      data, error := ReadData(want, short, together);
    }
  }

  /** Counts what is read through it: the size the object is recorded with. */
  class CountingReader {
    const inner: Reader
    var n: nat

    constructor (inner: Reader)
      ensures this.inner == inner && n == 0
    {
      this.inner, n := inner, 0;
    }

    method Read(want: nat, short: nat, together: bool) returns (data: bytes, error: Option<ReadError>)
      requires inner.Valid()
      modifies this, inner
      ensures inner.Valid() && n == old(n) + |data|
      ensures error.None? ==> old(inner.Rest()) == Prepend(data, inner.Rest())
      ensures error.Some? ==> data == old(inner.Rest()).output && Alike(error.value, old(inner.Rest()).error)
      ensures error.Some? && !together ==> error.value == old(inner.Rest()).error
      ensures error.None? && 0 < want && 0 < short ==> data != []
    {
      data, error := inner.Read(want, short, together);
      n := n + |data|;
    }
  }

  /** The buffer a caller offers, how much of it the connection fills, and whether its end comes with its last bytes. */
  datatype Offer = Offer(want: nat, short: nat, together: bool)

  /**
   Reading until the first error. Whatever the buffer sizes and short reads are, what comes out is what decoding the
   whole body gives: a prefix of it while no error has come, all of it with the same error afterwards, or an alike one
   if the end of the body comes with its last bytes.
   */
  method ReadAll(r: CountingReader, offers: seq<Offer>) returns (output: bytes, error: Option<ReadError>)
    requires r.inner.Valid()
    modifies r, r.inner
    ensures r.inner.Valid() && r.n == old(r.n) + |output|
    ensures error.None? ==> old(r.inner.Rest()) == Prepend(output, r.inner.Rest())
    ensures error.Some? ==> output == old(r.inner.Rest()).output && Alike(error.value, old(r.inner.Rest()).error)
    ensures error.Some? && (forall o | o in offers :: !o.together) ==> error.value == old(r.inner.Rest()).error
    ensures (forall o | o in offers :: 0 < o.want && 0 < o.short) && |offers| > |old(r.inner.Rest()).output| ==> error.Some?
  {
    hide Reader.Rest;
    output, error := [], None;
    for i := 0 to |offers|
      invariant r.inner.Valid() && r.n == old(r.n) + |output| && error.None?
      invariant old(r.inner.Rest()) == Prepend(output, r.inner.Rest())
      invariant (forall o | o in offers :: 0 < o.want && 0 < o.short) ==> i <= |output|
    {
      assert offers[i] in offers;
      var data;
      data, error := r.Read(offers[i].want, offers[i].short, offers[i].together);
      if error.None? {
        PrependPrepend(output, data, r.inner.Rest());
      }
      output := output + data;
      if error.Some? {
        return;
      }
    }
  }

  lemma PrependPrepend(a: bytes, b: bytes, o: Outcome)
    ensures Prepend(a, Prepend(b, o)) == Prepend(a + b, o)
  {
    assert a + (b + o.output) == a + b + o.output;
  }

  // Framing and de-framing undo each other

  /** One chunk as a client sends it; `ext` is the whole extension, its semicolon included. */
  datatype Frame = Frame(ext: bytes, data: bytes)

  predicate IsExtension(ext: bytes) {
    ext == [] || (ext[0] == SEMICOLON && LF !in ext)
  }

  const CRLF: bytes := [CR, LF]

  function Header(size: nat, ext: bytes): bytes {
    PrintNat(size, 16) + ext + CRLF
  }

  function EncodeFrame(f: Frame): bytes {
    Header(|f.data|, f.ext) + f.data + CRLF
  }

  function EncodeFrames(frames: seq<Frame>): bytes {
    if frames == [] then [] else EncodeFrame(frames[0]) + EncodeFrames(frames[1..])
  }

  function Encode(frames: seq<Frame>, lastExt: bytes, trailer: bytes): bytes {
    EncodeFrames(frames) + Header(0, lastExt) + trailer
  }

  function Payload(frames: seq<Frame>): bytes {
    if frames == [] then [] else frames[0].data + Payload(frames[1..])
  }

  /** Nonempty, below 2^63 bytes, and with a header that fits the read buffer. */
  predicate Sendable(f: Frame) {
    0 < |f.data| <= MAX_INT64 && HeaderFits(|f.data|, f.ext)
  }

  predicate HeaderFits(size: nat, ext: bytes) {
    IsExtension(ext) && |Header(size, ext)| <= BUFFER_SIZE
  }

  predicate AllSendable(frames: seq<Frame>, lastExt: bytes) {
    HeaderFits(0, lastExt) && forall f | f in frames :: Sendable(f)
  }

  lemma AtSplit(b: Body, pos: nat, s: bytes, t: bytes)
    ensures At(b, pos, s + t) <==> At(b, pos, s) && At(b, pos + |s|, t)
  {
    if pos + |s| + |t| <= |b.data| {
      assert b.data[pos..pos + |s + t|] == b.data[pos..pos + |s|] + b.data[pos + |s|..pos + |s| + |t|];
      if At(b, pos, s + t) {
        assert (s + t)[..|s|] == s && (s + t)[|s|..] == t;
      }
    }
  }

  lemma HexIsPlain(size: nat)
    ensures PrintNat(size, 16) != [] && AllPlain(PrintNat(size, 16))
    ensures LF !in PrintNat(size, 16) && SEMICOLON !in PrintNat(size, 16)
  {
    PrintIsDigits(size, 16);
  }

  /** The size is read back whatever extension follows it. */
  lemma SizeReadBack(size: nat, ext: bytes)
    requires IsExtension(ext) && size <= MAX_INT64
    ensures SizeOf(TrimLineEnd(PrintNat(size, 16) + ext + [CR])) == Some(size)
  {
    hide PrintNat, TrimSpace, ParseInt, IndexByte;
    var hex := PrintNat(size, 16);
    HexIsPlain(size);
    ParseIntPrint(size, 16);
    if ext == [] {
      assert hex + ext + [CR] == hex + [CR];
      TrimBehind(hex, [CR]);
      assert TrimLineEnd([CR]) == [];
      assert hex + [] == hex;
    } else {
      var head := hex + [SEMICOLON];
      assert hex + ext + [CR] == head + (ext[1..] + [CR]);
      TrimBehind(head, ext[1..] + [CR]);
      var line := head + TrimLineEnd(ext[1..] + [CR]);
      IndexByteIs(line, SEMICOLON, |hex|);
      assert line[..|hex|] == hex;
    }
  }

  lemma HeaderReadBack(b: Body, pos: nat, size: nat, ext: bytes)
    requires At(b, pos, Header(size, ext)) && HeaderFits(size, ext) && size <= MAX_INT64
    ensures HeaderAt(b, pos) == Ok(size, pos + |Header(size, ext)|)
  {
    hide PrintNat, SizeOf, TrimLineEnd;
    var h := Header(size, ext);
    var n := |h| - 1;
    var window := Cut(b.data, pos, pos + BUFFER_SIZE);
    HexIsPlain(size);
    assert window[..|h|] == h;
    assert h[..n] == PrintNat(size, 16) + ext + [CR] && h[n] == LF;
    assert forall k | 0 <= k < n :: window[k] == h[..n][k] && h[..n][k] != LF;
    assert window[n] == window[..|h|][n];
    IndexByteIs(window, LF, n);
    assert window[..n] == h[..n];
    SizeReadBack(size, ext);
  }

  lemma FrameReadBack(b: Body, pos: nat, f: Frame)
    requires At(b, pos, EncodeFrame(f)) && Sendable(f)
    ensures Decode(b, pos) == Prepend(f.data, Decode(b, pos + |EncodeFrame(f)|))
  {
    hide HeaderAt, Header, Decode, DecodeData;
    var h := Header(|f.data|, f.ext);
    AtSplit(b, pos, h + f.data, CRLF);
    AtSplit(b, pos, h, f.data);
    HeaderReadBack(b, pos, |f.data|, f.ext);
    DecodeStep(b, pos);
    var at := pos + |h|;
    DataDone(b, at, |f.data|);
    assert b.data[at + |f.data|] == b.data[at + |f.data|..at + |f.data| + 2][0];
    assert b.data[at + |f.data| + 1] == b.data[at + |f.data|..at + |f.data| + 2][1];
  }

  lemma {:induction false} FramesReadBack(b: Body, pos: nat, frames: seq<Frame>, lastExt: bytes)
    requires At(b, pos, EncodeFrames(frames) + Header(0, lastExt)) && AllSendable(frames, lastExt)
    ensures
      Decode(b, pos) == Outcome(Payload(frames), Eof, pos + |EncodeFrames(frames)| + |Header(0, lastExt)|)
    decreases |frames|
  {
    hide Header, HeaderAt, Decode, DecodeData, EncodeFrame, Sendable;
    if frames == [] {
      assert EncodeFrames(frames) + Header(0, lastExt) == Header(0, lastExt);
      HeaderReadBack(b, pos, 0, lastExt);
      DecodeStep(b, pos);
    } else {
      var f, rest := frames[0], frames[1..];
      assert EncodeFrames(frames) + Header(0, lastExt) == EncodeFrame(f) + (EncodeFrames(rest) + Header(0, lastExt));
      AtSplit(b, pos, EncodeFrame(f), EncodeFrames(rest) + Header(0, lastExt));
      FrameReadBack(b, pos, f);
      FramesReadBack(b, pos + |EncodeFrame(f)|, rest, lastExt);
    }
  }

  /** De-framing gives back the chunks' bytes and ends cleanly, leaving the trailer unread, even on a broken connection. */
  lemma EncodeReadBack(frames: seq<Frame>, lastExt: bytes, trailer: bytes, broken: bool)
    requires AllSendable(frames, lastExt)
    ensures
      var b := Body(Encode(frames, lastExt, trailer), broken);
      Decode(b, 0) == Outcome(Payload(frames), Eof, |b.data| - |trailer|)
  {
    hide Header, Decode;
    var b := Body(Encode(frames, lastExt, trailer), broken);
    assert b.data[0..|EncodeFrames(frames) + Header(0, lastExt)|] == EncodeFrames(frames) + Header(0, lastExt);
    FramesReadBack(b, 0, frames, lastExt);
  }

  /** A connection that does not break is never reported as broken. */
  lemma {:induction false} BreaksOnlyIfBroken(b: Body, pos: nat)
    requires pos <= |b.data|
    ensures Decode(b, pos).error.Transport? ==> b.broken
    decreases |b.data| - pos
  {
    hide IndexByte, SizeOf, TrimLineEnd;
    DecodeStep(b, pos);
    var h := HeaderAt(b, pos);
    if h.Ok? && 0 < h.value && h.next + h.value + 2 <= |b.data| {
      BreaksOnlyIfBroken(b, h.next + h.value + 2);
    }
  }
}

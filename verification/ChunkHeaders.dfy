/** The header lines of `aws-chunked` framing: how they are read, what they look like, and that the two agree. */
module ChunkHeaders {
  import opened ByteStrings
  import opened Text
  import opened TextGrammar

  const BUFFER_SIZE: nat := 4096

  datatype ReadError =
    | Eof
    | TruncatedBody | HeaderTooLong | TruncatedHeader | InvalidSize | MissingTerminator | MalformedTerminator
    | Transport

  /** A request body: its bytes, and whether the connection then breaks instead of ending. */
  datatype Body = Body(data: bytes, broken: bool) {

    /** What a reader is told where there are no more bytes. */
    function End(malformed: ReadError): ReadError {
      if broken then Transport else malformed
    }
  }

  datatype Result<T> = Ok(value: T, next: nat) | Fail(error: ReadError)

  // Header lines as they are read

  /** The line that starts at `pos`, without its line end; it has to fit the read buffer. */
  function LineAt(b: Body, pos: nat): (r: Result<bytes>)
    requires pos <= |b.data|
    ensures if r.Ok? then pos < r.next <= |b.data| else r.error != Eof
  {
    var window := Cut(b.data, pos, pos + BUFFER_SIZE);
    var i := IndexByte(window, LF);
    if i.Some? then Ok(TrimLineEnd(window[..i.value]), pos + i.value + 1)
    else if |window| == BUFFER_SIZE then Fail(HeaderTooLong)
    else Fail(b.End(TruncatedHeader))
  }

  function TrimLineEnd(s: bytes): bytes {
    if s != [] && (s[|s| - 1] == CR || s[|s| - 1] == LF) then TrimLineEnd(s[..|s| - 1]) else s
  }

  /** The size a chunk header declares; extensions are ignored. */
  function SizeOf(line: bytes): Option<nat> {
    var semicolon := IndexByte(line, SEMICOLON);
    var size := ParseInt(TrimSpace(if semicolon.Some? then line[..semicolon.value] else line), 16);
    if size.None? || size.value < 0 then None else Some(size.value)
  }

  function HeaderAt(b: Body, pos: nat): (r: Result<nat>)
    requires pos <= |b.data|
    ensures if r.Ok? then pos < r.next <= |b.data| else r.error != Eof
  {
    var line := LineAt(b, pos);
    if line.Fail? then Fail(line.error)
    else
      var size := SizeOf(line.value);
      if size.None? then Fail(InvalidSize) else Ok(size.value, line.next)
  }

  predicate At(b: Body, pos: nat, s: bytes) {
    pos + |s| <= |b.data| && b.data[pos..pos + |s|] == s
  }

  // Header lines as they are written

  /** White space, a hexadecimal number that is not negative, white space, and nothing or a semicolon and anything. */
  ghost predicate IsHeader(line: bytes, size: int) {
    0 <= size && exists lead, number, trail, ext :: HeaderParts(line, size, lead, number, trail, ext)
  }

  ghost predicate HeaderParts(line: bytes, size: int, lead: bytes, number: bytes, trail: bytes, ext: bytes) {
    && line == lead + number + trail + ext
    && Blank(lead) && IsInteger(number, 16, size) && Blank(trail)
    && (ext == [] || ext[0] == ';' as int)
  }

  /** A line that fits 4096 bytes together with its line feed. */
  predicate Fits(line: bytes) {
    |line| < 4096 && '\n' as int !in line
  }

  ghost predicate IsLine(line: bytes, size: int) {
    Fits(line) && IsHeader(line, size)
  }

  const LINE_FEED: bytes := ['\n' as int]

  // The two agree

  lemma {:induction false} TrimBehind(a: bytes, e: bytes)
    requires a != [] && a[|a| - 1] != CR && a[|a| - 1] != LF
    ensures TrimLineEnd(a + e) == a + TrimLineEnd(e)
  {
    if e == [] {
      assert a + e == a;
    } else {
      assert (a + e)[..|a + e| - 1] == a + e[..|e| - 1];
      TrimBehind(a, e[..|e| - 1]);
    }
  }

  lemma {:induction false} LineEndsOf(s: bytes) returns (ends: bytes)
    requires LF !in s
    ensures s == TrimLineEnd(s) + ends && forall i | 0 <= i < |ends| :: ends[i] == CR
  {
    if s != [] && s[|s| - 1] == CR {
      ends := LineEndsOf(s[..|s| - 1]);
      ends := ends + [CR];
      assert s == s[..|s| - 1] + [CR];
    } else {
      ends := [];
      assert s != [] ==> s[|s| - 1] in s;
    }
  }

  lemma CrIsSpace()
    ensures IsSpace([CR])
  {
    SpacesAreUnicode([CR]);
  }

  lemma {:induction false} LineEndsBlank(ends: bytes)
    requires forall i | 0 <= i < |ends| :: ends[i] == CR
    ensures Blank(ends)
  {
    hide Blank;
    if ends == [] {
      NothingBlank();
    } else {
      LineEndsBlank(ends[..|ends| - 1]);
      CrIsSpace();
      SpaceBlank([CR]);
      BlankAppend(ends[..|ends| - 1], [CR]);
      assert ends == ends[..|ends| - 1] + [CR];
    }
  }

  /** A blank that ends in a carriage return is one without it. */
  lemma BlankFront(s: bytes)
    requires Blank(s) && s != [] && s[|s| - 1] < 128
    ensures Blank(s[..|s| - 1])
  {
    var chars :| AllSpaces(chars) && s == Concat(chars);
    var n := |chars| - 1;
    assert chars == chars[..n] + [chars[n]];
    ConcatSnoc(chars[..n], chars[n]);
    SpaceBytes(chars[n]);
    assert s[|s| - 1] == chars[n][|chars[n]| - 1];
    assert s[..|s| - 1] == Concat(chars[..n]);
    assert AllSpaces(chars[..n]);
  }

  lemma {:induction false} TrimmedBlank(s: bytes)
    requires Blank(s)
    ensures Blank(TrimLineEnd(s))
  {
    hide Blank;
    if s != [] && (s[|s| - 1] == CR || s[|s| - 1] == LF) {
      BlankFront(s);
      TrimmedBlank(s[..|s| - 1]);
    }
  }

  /** The number stands where the reader looks for it. */
  lemma HeaderRead(line: bytes, size: nat, lead: bytes, number: bytes, trail: bytes, ext: bytes)
    requires HeaderParts(line, size, lead, number, trail, ext)
    ensures SizeOf(TrimLineEnd(line)) == Some(size)
  {
    hide Blank, IsInteger, Bare, TrimSpace, ParseInt, TrimLineEnd;
    IntegerIsBare(number, 16, size);
    ParsesExactly(number, 16, size);
    var front := lead + number;
    assert front[|front| - 1] == number[|number| - 1];
    assert IsDigitLike(number[|number| - 1], |number| - 1);
    if ext == [] {
      TrimBehind(front, trail);
      TrimmedBlank(trail);
      assert line == front + trail;
      var t := front + TrimLineEnd(trail);
      NoSemicolon(lead, number, TrimLineEnd(trail), size);
      assert t == lead + number + TrimLineEnd(trail);
      TrimFinds(lead, number, TrimLineEnd(trail));
    } else {
      var head := front + trail + [SEMICOLON];
      assert line == head + ext[1..];
      TrimBehind(head, ext[1..]);
      NoSemicolon(lead, number, trail, size);
      var t := head + TrimLineEnd(ext[1..]);
      IndexByteIs(t, SEMICOLON, |front + trail|);
      assert t[..|front + trail|] == lead + number + trail;
      TrimFinds(lead, number, trail);
    }
  }

  lemma NoSemicolon(lead: bytes, number: bytes, trail: bytes, size: nat)
    requires Blank(lead) && IsInteger(number, 16, size) && Blank(trail)
    ensures SEMICOLON !in lead + number + trail
  {
    BlankLacks(lead, SEMICOLON);
    BlankLacks(trail, SEMICOLON);
    IntegerIsBare(number, 16, size);
    hide Blank, IsInteger;
    forall i | 0 <= i < |number|
      ensures number[i] != SEMICOLON
    {
      assert IsDigitLike(number[i], i);
    }
  }

  lemma HeaderFound(line: bytes, size: nat)
    requires LF !in line && SizeOf(TrimLineEnd(line)) == Some(size)
    ensures IsHeader(line, size)
  {
    hide Blank, IsInteger, TrimSpace, ParseInt, TrimLineEnd;
    var t := TrimLineEnd(line);
    var ends := LineEndsOf(line);
    LineEndsBlank(ends);
    var semicolon := IndexByte(t, SEMICOLON);
    var head := if semicolon.Some? then t[..semicolon.value] else t;
    var lead, trail := TrimDecomposes(head);
    ParsesExactly(TrimSpace(head), 16, size);
    if semicolon.Some? {
      var ext := t[semicolon.value..] + ends;
      assert line == lead + TrimSpace(head) + trail + ext;
      assert HeaderParts(line, size, lead, TrimSpace(head), trail, ext);
    } else {
      BlankAppend(trail, ends);
      assert line == lead + TrimSpace(head) + (trail + ends) + [];
      assert HeaderParts(line, size, lead, TrimSpace(head), trail + ends, []);
    }
  }

  /** The reader takes a line for a header of a size exactly when it is one. */
  lemma HeaderExactly(line: bytes, size: nat)
    requires LF !in line
    ensures SizeOf(TrimLineEnd(line)) == Some(size) <==> IsHeader(line, size)
  {
    hide SizeOf, TrimLineEnd, HeaderParts;
    if SizeOf(TrimLineEnd(line)) == Some(size) {
      HeaderFound(line, size);
    }
    if IsHeader(line, size) {
      var lead, number, trail, ext :| HeaderParts(line, size, lead, number, trail, ext);
      HeaderRead(line, size, lead, number, trail, ext);
    }
  }

  lemma LineRead(b: Body, pos: nat, line: bytes)
    requires Fits(line) && At(b, pos, line + LINE_FEED)
    ensures LineAt(b, pos) == Ok(TrimLineEnd(line), pos + |line| + 1)
  {
    hide TrimLineEnd, IndexByte, Cut;
    var window := Cut(b.data, pos, pos + BUFFER_SIZE);
    WindowStarts(b, pos, line + LINE_FEED);
    FirstLine(window, line);
    hide At, Fits, LINE_FEED;
  }

  lemma WindowStarts(b: Body, pos: nat, s: bytes)
    requires At(b, pos, s) && |s| <= BUFFER_SIZE
    ensures s <= Cut(b.data, pos, pos + BUFFER_SIZE)
  {
    assert Cut(b.data, pos, pos + BUFFER_SIZE)[..|s|] == b.data[pos..pos + |s|];
  }

  lemma FirstLine(window: bytes, line: bytes)
    requires |line| < |window| && window[..|line| + 1] == line + LINE_FEED && LF !in line
    ensures IndexByte(window, LF) == Some(|line|) && window[..|line|] == line
  {
    hide IndexByte;
    var n := |line|;
    assert window[..n] == window[..n + 1][..n] == line;
    assert window[n] == window[..n + 1][n];
    forall k | 0 <= k < n
      ensures window[k] != LF
    {
      assert window[k] == window[..n][k] && line[k] in line;
    }
    IndexByteIs(window, LF, n);
  }

  lemma HeaderLine(b: Body, pos: nat, line: bytes, size: nat)
    requires IsLine(line, size) && At(b, pos, line + LINE_FEED)
    ensures HeaderAt(b, pos) == Ok(size, pos + |line| + 1)
  {
    hide SizeOf, LineAt, IsHeader, TrimLineEnd;
    LineRead(b, pos, line);
    HeaderExactly(line, size);
  }

  lemma NoHeaderLine(b: Body, pos: nat, line: bytes)
    requires Fits(line) && At(b, pos, line + LINE_FEED) && forall size: nat :: !IsHeader(line, size)
    ensures HeaderAt(b, pos) == Fail(InvalidSize)
  {
    hide SizeOf, LineAt, IsHeader, TrimLineEnd;
    LineRead(b, pos, line);
    var size := SizeOf(TrimLineEnd(line));
    if size.Some? {
      HeaderExactly(line, size.value);
    }
  }

  lemma LineFound(b: Body, pos: nat) returns (line: bytes)
    requires pos <= |b.data| && HeaderAt(b, pos).Ok?
    ensures IsLine(line, HeaderAt(b, pos).value) && At(b, pos, line + LINE_FEED)
    ensures HeaderAt(b, pos).next == pos + |line| + 1
  {
    hide SizeOf, IsHeader, TrimLineEnd;
    var window := Cut(b.data, pos, pos + BUFFER_SIZE);
    var i := IndexByte(window, LF).value;
    line := window[..i];
    assert b.data[pos..pos + i + 1] == line + LINE_FEED;
    HeaderExactly(line, HeaderAt(b, pos).value);
  }

  /** What reading a header gives, for every line that can stand there and for none. */
  lemma HeaderMeans(b: Body, pos: nat)
    requires pos <= |b.data|
    ensures
      forall line, size: nat | IsLine(line, size) && At(b, pos, line + LINE_FEED) ::
        HeaderAt(b, pos) == Ok(size, pos + |line| + 1)
    ensures
      forall line | Fits(line) && At(b, pos, line + LINE_FEED) && (forall size: nat :: !IsHeader(line, size)) ::
        HeaderAt(b, pos) == Fail(InvalidSize)
    ensures NoLineAt(b, pos) ==>
              HeaderAt(b, pos)
              == Fail(if pos + 4096 <= |b.data| then HeaderTooLong else if b.broken then Transport else TruncatedHeader)
  {
    hide HeaderAt, IsLine, IsHeader, At;
    forall line, size: nat | IsLine(line, size) && At(b, pos, line + LINE_FEED)
      ensures HeaderAt(b, pos) == Ok(size, pos + |line| + 1)
    {
      HeaderLine(b, pos, line, size);
    }
    forall line | Fits(line) && At(b, pos, line + LINE_FEED) && (forall size: nat :: !IsHeader(line, size))
      ensures HeaderAt(b, pos) == Fail(InvalidSize)
    {
      NoHeaderLine(b, pos, line);
    }
    if NoLineAt(b, pos) {
      NoHeader(b, pos);
    }
  }

  /** No line ends within 4096 bytes. */
  predicate NoLineAt(b: Body, pos: nat) {
    forall i | pos <= i < |b.data| && i < pos + 4096 :: b.data[i] != '\n' as int
  }

  lemma NoHeader(b: Body, pos: nat)
    requires pos <= |b.data| && NoLineAt(b, pos)
    ensures HeaderAt(b, pos)
              == Fail(if pos + 4096 <= |b.data| then HeaderTooLong else if b.broken then Transport else TruncatedHeader)
  {
    hide IndexByte;
    var window := Cut(b.data, pos, pos + BUFFER_SIZE);
    forall i | 0 <= i < |window|
      ensures window[i] != LF
    {
      assert window[i] == b.data[pos + i];
    }
  }
}

/** Reading a byte range of one file in aligned windows. */
module FileWindows {
  import opened ByteStrings

  const DOWNLOAD_CHUNK: nat := 0x10_0000

  /** One file read: an aligned window, cut off at the end of the file. */
  function GetFile(file: bytes, offset: nat, limit: nat): bytes {
    Cut(file, offset, offset + limit)
  }

  lemma WindowSize(file: bytes, offset: nat, limit: nat)
    ensures |GetFile(file, offset, limit)| == Max(0, Min(limit, |file| - offset))
  {
  }

  /** One more window is appended to the windows read so far. */
  lemma CutExtend(file: bytes, a: nat, m: nat, n: nat)
    requires a <= m <= |file|
    ensures
      var got := GetFile(file, m, n);
      Cut(file, a, m) + got == Cut(file, a, m + |got|) && |Cut(file, a, m + |got|)| == |Cut(file, a, m)| + |got|
  {
    WindowSize(file, m, n);
    CutSplit(file, a, m, m + |GetFile(file, m, n)|);
  }

  lemma CutNothing(file: bytes, a: nat)
    ensures Cut(file, a, a) == []
  {
  }

  /** What is left of the windows read after trimming head and tail. */
  lemma TrimWindows(file: bytes, from: nat, cur: nat, offset: nat, end: Option<nat>)
    requires from <= offset && from <= cur <= Max(from, |file|) && (end.Some? ==> offset <= end.value)
    requires |file| <= cur || (end.Some? && end.value <= cur)
    ensures
      var buf, wanted := Cut(file, from, cur), Cut(file, offset, if end.Some? then end.value else Max(offset, |file|));
      if offset - from >= |buf| then wanted == []
      else
        var data := buf[offset - from..];
        wanted == if end.Some? && |data| > end.value - offset then data[..end.value - offset] else data
  {
    if from <= |file| && offset < cur {
      var data := file[from..cur][offset - from..];
      SliceOfSlice(file, from, cur, offset - from, cur - from);
      assert data == file[offset..cur];
      if end.Some? && |data| > end.value - offset {
        SliceOfSlice(file, offset, cur, 0, end.value - offset);
        assert data[..end.value - offset] == file[offset..end.value];
      }
    }
  }

  /**
   Reads aligned windows from below `offset` until `end` (or to the end of the file), then
   trims the head and the tail.
   */
  method FetchRange(file: bytes, offset: nat, end: Option<nat>) returns (data: bytes, ghost windows: seq<nat>)
    requires end.Some? ==> offset <= end.value
    ensures data == Cut(file, offset, if end.Some? then end.value else Max(offset, |file|))
    ensures forall i | 0 <= i < |windows| :: windows[i] == (offset / 0x10_0000 + i) * 0x10_0000
  {
    hide Cut, GetFile;
    var alignedStart := offset - offset % DOWNLOAD_CHUNK;
    CutNothing(file, alignedStart);
    var buf: bytes := [];
    var cur := alignedStart;
    var eof := false;
    windows := [];
    while !eof && (end.None? || cur < end.value)
      invariant alignedStart <= cur && cur == alignedStart + |buf|
      invariant buf == Cut(file, alignedStart, cur)
      invariant cur <= Max(alignedStart, |file|)
      invariant eof ==> |file| <= cur
      invariant !eof ==> cur == (offset / 0x10_0000 + |windows|) * 0x10_0000
      invariant forall i | 0 <= i < |windows| :: windows[i] == (offset / 0x10_0000 + i) * 0x10_0000
      decreases !eof, |file| - cur
    {
      windows := windows + [cur];
      var got := GetFile(file, cur, DOWNLOAD_CHUNK);
      WindowSize(file, cur, DOWNLOAD_CHUNK);
      if |got| == 0 {
        eof := true;
      } else {
        CutExtend(file, alignedStart, cur, DOWNLOAD_CHUNK);
        buf := buf + got;
        cur := cur + |got|;
        eof := |got| < DOWNLOAD_CHUNK;
      }
    }
    TrimWindows(file, alignedStart, cur, offset, end);
    var leftCut := offset - alignedStart;
    if leftCut >= |buf| {
      return [], windows;
    }
    data := buf[leftCut..];
    if end.Some? && |data| > end.value - offset {
      data := data[..end.value - offset];
    }
  }
}

/** The aligned chunks of a request cover it exactly, and the trims join up. */
module PrefetchGeometry {
  import opened ByteStrings
  import opened PrefetchModel

  lemma MultipleDivides(k: nat, d: nat)
    requires 0 < d
    ensures k * d / d == k
  {
    DivUnique(k * d, d, k, 0);
  }

  lemma MulMonotone(a: nat, b: nat, d: nat)
    requires a <= b
    ensures a * d <= b * d
    ensures (a + 1) * d == a * d + d
  {
  }

  lemma AlignedMultiples(cfg: Config) returns (lo: nat, hi: nat)
    requires cfg.Valid() && cfg.start < cfg.end
    ensures cfg.AlignedStart() == lo * cfg.chunkSize <= cfg.start < (lo + 1) * cfg.chunkSize
    ensures cfg.AlignedEnd() == hi * cfg.chunkSize >= cfg.end > (hi - 1) * cfg.chunkSize
    ensures lo < hi
  {
    var c := cfg.chunkSize;
    lo := cfg.start / c;
    assert cfg.start == lo * c + cfg.start % c;
    var q := cfg.end / c;
    assert cfg.end == q * c + cfg.end % c;
    hi := if cfg.end % c != 0 then q + 1 else q;
    if hi <= lo {
      MulMonotone(hi, lo, c);
      assert false;
    }
  }

  /** The chunk count is exactly the number of aligned windows meeting the range. */
  lemma ChunksCover(cfg: Config)
    requires cfg.Valid() && cfg.start < cfg.end
    ensures 0 < cfg.NChunks()
    ensures cfg.Offset(0) <= cfg.start < cfg.Offset(1)
    ensures cfg.Offset(cfg.NChunks() - 1) < cfg.end <= cfg.Offset(cfg.NChunks())
  {
    hide Config.Offset, Config.NChunks;
    var lo, hi := AlignedMultiples(cfg);
    var c := cfg.chunkSize;
    MulSub(hi, lo, c);
    MulSub(hi - 1, lo, c);
    MultipleDivides(hi - lo, c);
    ChunkCount(cfg, lo, hi);
    OffsetAt(cfg, lo, 0);
    OffsetAt(cfg, lo, 1);
    OffsetAt(cfg, lo, hi - lo);
    OffsetAt(cfg, lo, hi - lo - 1);
  }

  lemma ChunkCount(cfg: Config, lo: nat, hi: nat)
    requires cfg.Valid() && cfg.start < cfg.end && lo <= hi
    requires cfg.AlignedStart() == lo * cfg.chunkSize && cfg.AlignedEnd() == hi * cfg.chunkSize
    ensures cfg.NChunks() == hi - lo
  {
    MulSub(hi, lo, cfg.chunkSize);
    MultipleDivides(hi - lo, cfg.chunkSize);
  }

  lemma OffsetAt(cfg: Config, lo: nat, i: nat)
    requires cfg.Valid() && cfg.AlignedStart() == lo * cfg.chunkSize
    ensures cfg.Offset(i) == (lo + i) * cfg.chunkSize
  {
    assert (lo + i) * cfg.chunkSize == lo * cfg.chunkSize + i * cfg.chunkSize;
  }

  lemma OffsetMonotone(cfg: Config, i: nat, j: nat)
    requires cfg.Valid() && i <= j
    ensures cfg.Offset(i) <= cfg.Offset(j)
    ensures cfg.Offset(i + 1) == cfg.Offset(i) + cfg.chunkSize
  {
    assert i * cfg.chunkSize <= j * cfg.chunkSize;
    assert (i + 1) * cfg.chunkSize == i * cfg.chunkSize + cfg.chunkSize;
  }

  lemma BoundEnds(cfg: Config)
    requires cfg.Valid()
    ensures cfg.Bound(0) == cfg.start && cfg.Bound(cfg.NChunks()) == cfg.end
  {
    if cfg.start < cfg.end {
      ChunksCover(cfg);
    }
  }

  lemma BoundMonotone(cfg: Config, i: nat, j: nat)
    requires cfg.Valid() && i <= j
    ensures cfg.start <= cfg.Bound(i) <= cfg.Bound(j) <= cfg.end
  {
    OffsetMonotone(cfg, i, j);
  }

  lemma TrimAt(s: bytes, off: nat, size: nat, start: nat, end: nat)
    requires 0 < size && start <= end
    ensures
      var full := Cut(s, off, off + size);
      var lo, hi := Max(off, start), Min(off + |full|, end);
      (if hi <= lo then [] else full[lo - off..hi - off])
      == Cut(s, Min(end, Max(start, off)), Min(end, Max(start, off + size)))
  {
    var top := Min(off + size, |s|);
    var a, b := Min(end, Max(start, off)), Min(end, Max(start, off + size));
    if off < |s| {
      assert Cut(s, off, off + size) == s[off..top];
      var lo, hi := Max(off, start), Min(top, end);
      if lo < hi {
        SliceOfSlice(s, off, top, lo - off, hi - off);
        assert a == lo && Min(b, |s|) == hi;
      } else {
        assert |Cut(s, a, b)| == 0;
      }
    }
  }

  /** Trimming a full chunk leaves exactly its part of the requested range. */
  lemma TrimFull(cfg: Config, i: nat)
    requires cfg.Valid()
    ensures cfg.Trim(i, cfg.Full(i)) == Cut(cfg.content, cfg.Bound(i), cfg.Bound(i + 1))
  {
    hide Config.Offset, Cut;
    OffsetMonotone(cfg, i, i);
    var off := cfg.Offset(i);
    assert cfg.Full(i) == Cut(cfg.content, off, off + cfg.chunkSize);
    assert cfg.Bound(i + 1) == Min(cfg.end, Max(cfg.start, off + cfg.chunkSize));
    TrimAt(cfg.content, off, cfg.chunkSize, cfg.start, cfg.end);
  }

  /** The slice up to chunk `i` followed by chunk `i`'s trim is the slice up to chunk `i + 1`. */
  lemma SliceGrows(cfg: Config, i: nat)
    requires cfg.Valid()
    ensures Cut(cfg.content, cfg.start, cfg.Bound(i)) + cfg.Trim(i, cfg.Full(i))
            == Cut(cfg.content, cfg.start, cfg.Bound(i + 1))
  {
    TrimFull(cfg, i);
    BoundMonotone(cfg, i, i + 1);
    CutSplit(cfg.content, cfg.start, cfg.Bound(i), cfg.Bound(i + 1));
  }
}

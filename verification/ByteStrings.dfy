/** Byte strings: clamped slicing, concatenation and byte order. */
module ByteStrings {

  type byte = x: int | 0 <= x < 256

  type bytes = seq<byte>

  datatype Option<+T> = None | Some(value: T)

  function Min(a: int, b: int): int {
    if a <= b then a else b
  }

  function Max(a: int, b: int): int {
    if a <= b then b else a
  }

  /** The bytes of `s` at positions `a` up to but not including `b`, both clamped to `s`. */
  function Cut(s: bytes, a: nat, b: nat): bytes {
    s[Min(a, |s|)..Max(Min(a, |s|), Min(b, |s|))]
  }

  lemma CutSplit(s: bytes, a: nat, m: nat, b: nat)
    requires a <= m <= b
    ensures Cut(s, a, m) + Cut(s, m, b) == Cut(s, a, b)
  {
  }

  lemma SliceOfSlice<T>(s: seq<T>, lo: nat, hi: nat, a: nat, b: nat)
    requires a <= b && lo + b <= hi <= |s|
    ensures s[lo..hi][a..b] == s[lo + a..lo + b]
  {
    var x, y := s[lo..hi][a..b], s[lo + a..lo + b];
    assert |x| == |y| && forall i | 0 <= i < |x| :: x[i] == y[i];
  }

  function Concat(parts: seq<bytes>): bytes {
    if parts == [] then [] else parts[0] + Concat(parts[1..])
  }

  lemma ConcatAppend(a: seq<bytes>, b: seq<bytes>)
    ensures Concat(a + b) == Concat(a) + Concat(b)
  {
    if a == [] {
      assert a + b == b;
    } else {
      assert (a + b)[0] == a[0] && (a + b)[1..] == a[1..] + b;
      ConcatAppend(a[1..], b);
    }
  }

  lemma ConcatSnoc(a: seq<bytes>, x: bytes)
    ensures Concat(a + [x]) == Concat(a) + x
  {
    ConcatAppend(a, [x]);
    assert Concat([x]) == x + Concat([]);
  }

  lemma MulGap(a: nat, b: nat, n: nat)
    requires a < b
    ensures a * n + n <= b * n
  {
    var d := b - a - 1;
    assert b * n == a * n + n + d * n;
  }

  lemma MulSub(a: nat, b: nat, n: nat)
    requires b <= a
    ensures (a - b) * n == a * n - b * n
  {
  }

  lemma DivUnique(x: nat, n: nat, q: nat, r: nat)
    requires r < n && x == q * n + r
    ensures x / n == q && x % n == r
  {
    var q', r' := x / n, x % n;
    assert x == q' * n + r';
    if q' < q {
      MulGap(q', q, n);
    } else if q < q' {
      MulGap(q, q', n);
    }
  }
}

/** Byte order on keys, and the half-open range of keys that start with a prefix. */
module ByteOrder {
  import opened ByteStrings
  import opened Text

  predicate Less(a: bytes, b: bytes) {
    b != [] && (a == [] || a[0] < b[0] || (a[0] == b[0] && Less(a[1..], b[1..])))
  }

  /** The first place where `b` goes on behind the part both share: `a` has ended there or holds a smaller byte. */
  predicate SmallerAt(a: bytes, b: bytes, k: nat) {
    && k <= |a| && k < |b| && a[..k] == b[..k]
    && (k == |a| || a[k] < b[k])
  }

  /** Byte order by positions: a proper prefix comes first, otherwise the first byte that differs decides. */
  lemma {:induction false} LessExactly(a: bytes, b: bytes)
    ensures Less(a, b) <==> exists k: nat :: SmallerAt(a, b, k)
  {
    if b != [] && (a == [] || a[0] < b[0]) {
      assert SmallerAt(a, b, 0);
    } else if b != [] && a[0] == b[0] {
      LessExactly(a[1..], b[1..]);
      if Less(a, b) {
        var k: nat :| SmallerAt(a[1..], b[1..], k);
        assert a[..k + 1] == [a[0]] + a[1..][..k] && b[..k + 1] == [b[0]] + b[1..][..k];
        assert SmallerAt(a, b, k + 1);
      }
      if k: nat :| SmallerAt(a, b, k) {
        assert k > 0;
        assert a[1..][..k - 1] == a[..k][1..] && b[1..][..k - 1] == b[..k][1..];
        assert SmallerAt(a[1..], b[1..], k - 1);
      }
    } else if k: nat :| SmallerAt(a, b, k) {
      FirstShared(a, b, k);
    }
  }

  lemma FirstShared(a: bytes, b: bytes, k: nat)
    requires SmallerAt(a, b, k)
    ensures b != [] && (k > 0 ==> a != [] && a[0] == b[0])
  {
    assert k > 0 ==> a[..k][0] == b[..k][0];
  }

  predicate AtMost(a: bytes, b: bytes) {
    a == b || Less(a, b)
  }

  predicate Ascending(keys: seq<bytes>) {
    forall i, j | 0 <= i < j < |keys| :: Less(keys[i], keys[j])
  }

  lemma {:induction false} LessIrreflexive(a: bytes)
    ensures !Less(a, a)
  {
    if a != [] {
      LessIrreflexive(a[1..]);
    }
  }

  lemma {:induction false} LessTransitive(a: bytes, b: bytes, c: bytes)
    requires Less(a, b) && Less(b, c)
    ensures Less(a, c)
  {
    if a != [] && a[0] == b[0] && b[0] == c[0] {
      LessTransitive(a[1..], b[1..], c[1..]);
    }
  }

  lemma {:induction false} LessTotal(a: bytes, b: bytes)
    ensures a == b || Less(a, b) || Less(b, a)
  {
    if a != [] && b != [] && a[0] == b[0] {
      LessTotal(a[1..], b[1..]);
      assert a == [a[0]] + a[1..] && b == [b[0]] + b[1..];
    }
  }

  lemma LessAsymmetric(a: bytes, b: bytes)
    requires Less(a, b)
    ensures !Less(b, a) && a != b
  {
    LessIrreflexive(a);
    if Less(b, a) {
      LessTransitive(a, b, a);
    }
  }

  /** Behind a common prefix only the rest counts. */
  lemma {:induction false} LessBehind(p: bytes, a: bytes, b: bytes)
    ensures Less(p + a, p + b) <==> Less(a, b)
  {
    if p == [] {
      assert p + a == a && p + b == b;
    } else {
      assert (p + a)[1..] == p[1..] + a && (p + b)[1..] == p[1..] + b;
      LessBehind(p[1..], a, b);
    }
  }

  /** A key that does not start with `p` compares the same with everything that does. */
  lemma {:induction false} LessOutside(k: bytes, p: bytes, a: bytes, b: bytes)
    requires !StartsWith(k, p)
    ensures Less(k, p + a) <==> Less(k, p + b)
    ensures Less(p + a, k) <==> Less(p + b, k)
    ensures k != p + a
  {
    if k != [] {
      assert (p + a)[1..] == p[1..] + a && (p + b)[1..] == p[1..] + b;
      if k[0] == p[0] {
        assert StartsWith(k[1..], p[1..]) ==> StartsWith(k, p) by {
          assert k == [k[0]] + k[1..] && p == [p[0]] + p[1..];
        }
        LessOutside(k[1..], p[1..], a, b);
      }
    }
  }

  /** Keys in the range of one prefix are contiguous. */
  lemma BetweenStarts(p: bytes, a: bytes, k: bytes, b: bytes)
    requires StartsWith(a, p) && StartsWith(b, p) && AtMost(a, k) && AtMost(k, b)
    ensures StartsWith(k, p)
  {
    if !StartsWith(k, p) {
      assert a == p + a[|p|..] && b == p + b[|p|..];
      LessOutside(k, p, a[|p|..], b[|p|..]);
      LessAsymmetric(a, k);
    }
  }

  // The upper end of a prefix range

  /** The last byte below 0xFF is raised and what follows it dropped; empty when there is none. */
  function UpperBound(prefix: bytes): bytes {
    if prefix == [] then []
    else
      var n := |prefix| - 1;
      if prefix[n] != 0xFF then prefix[..n] + [prefix[n] + 1] else UpperBound(prefix[..n])
  }

  method PrefixUpperBound(prefix: bytes) returns (hi: bytes)
    ensures hi == UpperBound(prefix)
    ensures hi == [] <==> forall i | 0 <= i < |prefix| :: prefix[i] == 0xFF
  {
    var i := |prefix| - 1;
    assert prefix[..i + 1] == prefix;
    while i >= 0
      invariant -1 <= i < |prefix|
      invariant UpperBound(prefix) == UpperBound(prefix[..i + 1])
      invariant forall j | i < j < |prefix| :: prefix[j] == 0xFF
    {
      assert prefix[..i + 1][..i] == prefix[..i];
      if prefix[i] != 0xFF {
        return prefix[..i] + [prefix[i] + 1];
      }
      i := i - 1;
    }
    return [];
  }

  predicate InRange(k: bytes, prefix: bytes, hi: bytes) {
    !Less(k, prefix) && (hi == [] || Less(k, hi))
  }

  /** Keys that start with `p + [x]`, among those that start with `p`. */
  lemma StartsFurther(k: bytes, p: bytes, x: byte)
    ensures StartsWith(k, p + [x]) <==> StartsWith(k, p) && |k| > |p| && k[|p|] == x
  {
    if StartsWith(k, p + [x]) {
      assert k[..|p|] == (p + [x])[..|p|] == p;
      assert k[|p|] == (p + [x])[|p|];
    }
    if StartsWith(k, p) && |k| > |p| && k[|p|] == x {
      assert k[..|p| + 1] == p + [x];
    }
  }

  /** The range scan selects exactly the keys that start with the prefix. */
  lemma {:induction false} RangeIsPrefix(k: bytes, prefix: bytes)
    ensures InRange(k, prefix, UpperBound(prefix)) <==> StartsWith(k, prefix)
    decreases |prefix|
  {
    if prefix != [] {
      var n := |prefix| - 1;
      var p, x := prefix[..n], prefix[n];
      assert prefix == p + [x];
      RangeIsPrefix(k, p);
      StartsFurther(k, p, x);
      if StartsWith(k, p) {
        assert k == p + k[n..];
        LessBehind(p, k[n..], [x]);
        if x != 0xFF {
          LessBehind(p, k[n..], [x + 1]);
        }
      } else {
        assert p + [] == p;
        LessOutside(k, p, [x], []);
        if x != 0xFF {
          LessOutside(k, p, [x], [x + 1]);
        }
      }
    }
  }

  /** The bound is the least one: whatever exceeds every key with the prefix is at or above it. */
  lemma UpperBoundLeast(prefix: bytes, bound: bytes)
    requires forall k | StartsWith(k, prefix) :: Less(k, bound)
    ensures UpperBound(prefix) != [] && AtMost(UpperBound(prefix), bound)
  {
    assert StartsWith(prefix, prefix);
    LessAsymmetric(prefix, bound);
    RangeIsPrefix(bound, prefix);
    LessIrreflexive(bound);
    LessTotal(UpperBound(prefix), bound);
  }
}

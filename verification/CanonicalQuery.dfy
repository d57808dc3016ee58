/** The canonical query string of request signing: independent of map order, and injective. */
module CanonicalQuery {
  import opened ByteStrings
  import opened Text
  import opened ByteOrder
  import opened UriEncoding

  type Values = map<bytes, seq<bytes>>

  datatype Pair = Pair(k: bytes, v: bytes)

  /** `order` is one of the orders in which the map may be iterated. */
  predicate Enumerates(values: Values, order: seq<bytes>) {
    && (forall i, j | 0 <= i < j < |order| :: order[i] != order[j])
    && (forall k | k in order :: k in values)
    && (forall k | k in values :: k in order)
  }

  // The pairs

  function Flat<T, U>(f: T -> seq<U>, s: seq<T>): seq<U> {
    if s == [] then [] else Flat(f, s[..|s| - 1]) + f(s[|s| - 1])
  }

  function PairsOf(name: bytes, vals: seq<bytes>): seq<Pair> {
    if vals == [] then [] else PairsOf(name, vals[..|vals| - 1]) + [Pair(name, vals[|vals| - 1])]
  }

  function NamedPairs(values: Values, skip: bytes, name: bytes): seq<Pair> {
    if name != skip && name in values then PairsOf(name, values[name]) else []
  }

  /** The parameters that are not skipped, as they are. */
  function Pairs(values: Values, skip: bytes, order: seq<bytes>): seq<Pair> {
    Flat(PairsBy(values, skip), order)
  }

  function PairsBy(values: Values, skip: bytes): bytes -> seq<Pair> {
    name => NamedPairs(values, skip, name)
  }

  function EncodePair(p: Pair): Pair {
    Pair(Encode(p.k, true), Encode(p.v, true))
  }

  function EncodeOne(p: Pair): seq<Pair> {
    [EncodePair(p)]
  }

  function DecodeOne(p: Pair): seq<Pair> {
    [Pair(Decode(p.k), Decode(p.v))]
  }

  function EncodeAll(pairs: seq<Pair>): seq<Pair> {
    Flat(EncodeOne, pairs)
  }

  function DecodeAll(pairs: seq<Pair>): seq<Pair> {
    Flat(DecodeOne, pairs)
  }

  lemma {:induction false} FlatAppend<T, U>(f: T -> seq<U>, a: seq<T>, b: seq<T>)
    ensures Flat(f, a + b) == Flat(f, a) + Flat(f, b)
  {
    if b == [] {
      assert a + b == a;
    } else {
      assert (a + b)[..|a + b| - 1] == a + b[..|b| - 1];
      FlatAppend(f, a, b[..|b| - 1]);
    }
  }

  lemma FlatOne<T, U>(f: T -> seq<U>, x: T)
    ensures Flat(f, [x]) == f(x)
  {
    assert [x][..0] == [];
  }

  lemma FlatLast<T, U>(f: T -> seq<U>, a: seq<T>)
    requires a != []
    ensures multiset(Flat(f, a)) == multiset(Flat(f, a[..|a| - 1])) + multiset(f(a[|a| - 1]))
  {
  }

  lemma FlatThree<T, U>(f: T -> seq<U>, a: seq<T>, x: T, b: seq<T>)
    ensures multiset(Flat(f, a + [x] + b)) == multiset(Flat(f, a + b)) + multiset(f(x))
  {
    hide Flat;
    FlatAppend(f, a + [x], b);
    FlatAppend(f, a, [x]);
    FlatAppend(f, a, b);
    FlatOne(f, x);
  }

  lemma FlatAround<T, U>(f: T -> seq<U>, b: seq<T>, i: nat)
    requires i < |b|
    ensures multiset(Flat(f, b)) == multiset(Flat(f, b[..i] + b[i + 1..])) + multiset(f(b[i]))
  {
    hide Flat;
    assert b == b[..i] + [b[i]] + b[i + 1..];
    FlatThree(f, b[..i], b[i], b[i + 1..]);
  }

  lemma OneMore<T>(a: seq<T>)
    requires a != []
    ensures multiset(a) == multiset(a[..|a| - 1]) + multiset{a[|a| - 1]}
  {
    assert a == a[..|a| - 1] + [a[|a| - 1]];
  }

  lemma OneAround<T>(b: seq<T>, i: nat)
    requires i < |b|
    ensures b == b[..i] + [b[i]] + b[i + 1..]
    ensures multiset(b) == multiset(b[..i] + b[i + 1..]) + multiset{b[i]}
  {
    assert b == b[..i] + [b[i]] + b[i + 1..];
  }

  lemma SameLess<T>(a: multiset<T>, b: multiset<T>, x: T)
    requires a + multiset{x} == b + multiset{x}
    ensures a == b
  {
    assert a == a + multiset{x} - multiset{x};
    assert b == b + multiset{x} - multiset{x};
  }

  /** A permutation goes to a permutation. */
  lemma {:induction false} FlatPermute<T, U>(f: T -> seq<U>, a: seq<T>, b: seq<T>)
    requires multiset(a) == multiset(b)
    ensures multiset(Flat(f, a)) == multiset(Flat(f, b))
    decreases |a|
  {
    assert |a| == |multiset(a)| == |multiset(b)| == |b|;
    if a != [] {
      var n := |a| - 1;
      var x := a[n];
      assert x in multiset(b);
      var i :| 0 <= i < |b| && b[i] == x;
      var rest := b[..i] + b[i + 1..];
      OneMore(a);
      OneAround(b, i);
      SameLess(multiset(a[..n]), multiset(rest), x);
      FlatLast(f, a);
      FlatAround(f, b, i);
      hide Flat;
      FlatPermute(f, a[..n], rest);
    }
  }

  // Sorting

  predicate PairLess(p: Pair, q: Pair) {
    if p.k != q.k then Less(p.k, q.k) else Less(p.v, q.v)
  }

  predicate Sorted(s: seq<Pair>) {
    forall i, j | 0 <= i < j < |s| :: !PairLess(s[j], s[i])
  }

  // Joining

  function PairText(p: Pair): bytes {
    p.k + [EQUALS] + p.v
  }

  function Join(s: seq<Pair>): bytes {
    if s == [] then []
    else if |s| == 1 then PairText(s[0])
    else PairText(s[0]) + [AMPERSAND] + Join(s[1..])
  }

  lemma {:induction false} JoinSnoc(s: seq<Pair>, p: Pair)
    ensures Join(s + [p]) == (if s == [] then [] else Join(s) + [AMPERSAND]) + PairText(p)
  {
    hide PairText;
    if s == [] {
      assert s + [p] == [p];
    } else {
      assert (s + [p])[1..] == s[1..] + [p] && (s + [p])[0] == s[0];
      JoinSnoc(s[1..], p);
      if |s| == 1 {
        assert Join(s + [p]) == PairText(s[0]) + [AMPERSAND] + PairText(p);
      } else {
        assert PairText(s[0]) + [AMPERSAND] + (Join(s[1..]) + [AMPERSAND] + PairText(p))
            == PairText(s[0]) + [AMPERSAND] + Join(s[1..]) + [AMPERSAND] + PairText(p);
      }
    }
  }

  /** Inserts into a sorted list, behind what is not greater. */
  method Insert(s: seq<Pair>, p: Pair) returns (r: seq<Pair>)
    requires Sorted(s)
    ensures Sorted(r) && multiset(r) == multiset(s) + multiset{p}
  {
    hide PairLess;
    var i := |s|;
    while i > 0 && PairLess(p, s[i - 1])
      invariant 0 <= i <= |s|
      invariant forall j | i <= j < |s| :: PairLess(p, s[j])
    {
      i := i - 1;
    }
    r := s[..i] + [p] + s[i..];
    assert s == s[..i] + s[i..];
    InsertedSorted(s, i, p);
  }

  lemma InsertedSorted(s: seq<Pair>, i: nat, p: Pair)
    requires Sorted(s) && i <= |s|
    requires forall j | i <= j < |s| :: PairLess(p, s[j])
    requires i > 0 ==> !PairLess(p, s[i - 1])
    ensures Sorted(s[..i] + [p] + s[i..])
  {
    hide PairLess;
    var r := s[..i] + [p] + s[i..];
    forall a, b | 0 <= a < b < |r|
      ensures !PairLess(r[b], r[a])
    {
      if b == i {
        if a < i - 1 {
          PairNotLessTransitive(p, s[i - 1], s[a]);
        }
      } else if a == i {
        PairLessAsymmetric(p, s[b - 1]);
      }
    }
  }

  lemma PairLessAsymmetric(p: Pair, q: Pair)
    requires PairLess(p, q)
    ensures !PairLess(q, p)
  {
    if p.k != q.k {
      LessAsymmetric(p.k, q.k);
    } else {
      LessAsymmetric(p.v, q.v);
    }
  }

  lemma PairLessTotal(p: Pair, q: Pair)
    ensures p == q || PairLess(p, q) || PairLess(q, p)
  {
    LessTotal(p.k, q.k);
    LessTotal(p.v, q.v);
  }

  lemma PairLessTransitive(p: Pair, q: Pair, r: Pair)
    requires PairLess(p, q) && PairLess(q, r)
    ensures PairLess(p, r)
  {
    if p.k != q.k && q.k != r.k {
      LessTransitive(p.k, q.k, r.k);
      LessIrreflexive(p.k);
      if p.k == r.k {
        LessAsymmetric(p.k, q.k);
      }
    } else if p.k == q.k && q.k == r.k {
      LessTransitive(p.v, q.v, r.v);
    }
  }

  /** Not below is transitive, the order being total. */
  lemma PairNotLessTransitive(p: Pair, q: Pair, r: Pair)
    requires !PairLess(p, q) && !PairLess(q, r)
    ensures !PairLess(p, r)
  {
    hide PairLess;
    if PairLess(p, r) {
      PairLessTotal(q, r);
      if q != r {
        PairLessTransitive(p, r, q);
      }
    }
  }

  // The printer

  /** Names and values encoded, sorted, and joined; `order` is how the map happens to be iterated. */
  method Print(values: Values, skip: bytes, order: seq<bytes>) returns (text: bytes)
    requires Enumerates(values, order)
    ensures IsCanonical(text, Pairs(values, skip, order)) && Prints(text, values, skip)
  {
    hide Prints;
    hide EncodePair, PairText, PairsOf, Sorted, Pairs, EncodeAll, Join;
    NoPairs(values, skip);
    var pairs: seq<Pair> := [];
    for i := 0 to |order|
      invariant pairs == EncodeAll(Pairs(values, skip, order[..i]))
    {
      assert order[..i + 1] == order[..i] + [order[i]];
      PairsSnoc(values, skip, order[..i], order[i]);
      var key := order[i];
      if key != skip {
        var more := EncodeVals(key, values[key]);
        EncodeAppendAll(Pairs(values, skip, order[..i]), PairsOf(key, values[key]));
        pairs := pairs + more;
      } else {
        assert Pairs(values, skip, order[..i]) + [] == Pairs(values, skip, order[..i]);
      }
    }
    assert order[..|order|] == order;
    var sorted := Sort(pairs);
    text := JoinAll(sorted);
    CanonicalPrints(text, values, skip, order);
  }

  lemma NoPairs(values: Values, skip: bytes)
    ensures EncodeAll(Pairs(values, skip, [])) == []
  {
  }

  lemma EncodeAllOne(p: Pair)
    ensures EncodeAll([p]) == [Pair(Encode(p.k, true), Encode(p.v, true))]
  {
    FlatOne(EncodeOne, p);
  }

  lemma NothingToEncode()
    ensures EncodeAll([]) == []
  {
  }

  method EncodeVals(key: bytes, vals: seq<bytes>) returns (pairs: seq<Pair>)
    ensures pairs == EncodeAll(PairsOf(key, vals))
  {
    hide EncodesAs, IsUnreserved, EncodeAll, Encode;
    NothingToEncode();
    var ek := AwsUriEncode(key, true);
    pairs := [];
    for i := 0 to |vals|
      invariant pairs == EncodeAll(PairsOf(key, vals[..i]))
    {
      assert vals[..i + 1][..i] == vals[..i];
      var ev := AwsUriEncode(vals[i], true);
      EncodeAppendAll(PairsOf(key, vals[..i]), [Pair(key, vals[i])]);
      EncodeAllOne(Pair(key, vals[i]));
      pairs := pairs + [Pair(ek, ev)];
    }
    assert vals[..|vals|] == vals;
  }

  method Sort(pairs: seq<Pair>) returns (s: seq<Pair>)
    ensures Sorted(s) && multiset(s) == multiset(pairs)
  {
    hide Sorted;
    s := [];
    assert Sorted([]) by { NothingSorted(); }
    for i := 0 to |pairs|
      invariant Sorted(s) && multiset(s) == multiset(pairs[..i])
    {
      assert pairs[..i + 1] == pairs[..i] + [pairs[i]];
      s := Insert(s, pairs[i]);
    }
    assert pairs[..|pairs|] == pairs;
  }

  lemma NothingSorted()
    ensures Sorted([])
  {
  }

  method JoinAll(s: seq<Pair>) returns (text: bytes)
    ensures text == Join(s)
  {
    text := [];
    for i := 0 to |s|
      invariant text == Join(s[..i])
    {
      assert s[..i + 1] == s[..i] + [s[i]];
      JoinSnoc(s[..i], s[i]);
      if i > 0 {
        text := text + [AMPERSAND];
      }
      text := text + s[i].k;
      text := text + [EQUALS];
      text := text + s[i].v;
    }
    assert s[..|s|] == s;
  }

  lemma EncodeAppendAll(a: seq<Pair>, b: seq<Pair>)
    ensures EncodeAll(a + b) == EncodeAll(a) + EncodeAll(b)
  {
    FlatAppend(EncodeOne, a, b);
  }

  lemma PairsSnoc(values: Values, skip: bytes, order: seq<bytes>, name: bytes)
    ensures Pairs(values, skip, order + [name]) == Pairs(values, skip, order) + NamedPairs(values, skip, name)
  {
    var f := PairsBy(values, skip);
    FlatAppend(f, order, [name]);
    FlatOne(f, name);
  }

  // Independence of the order

  lemma SameKeys(values: Values, order1: seq<bytes>, order2: seq<bytes>)
    requires Enumerates(values, order1) && Enumerates(values, order2)
    ensures multiset(order1) == multiset(order2)
  {
    forall k: bytes
      ensures multiset(order1)[k] == multiset(order2)[k]
    {
      AtMostOnce(order1, k);
      AtMostOnce(order2, k);
      assert k in order1 <==> k in multiset(order1);
      assert k in order2 <==> k in multiset(order2);
    }
  }

  lemma {:induction false} AtMostOnce(s: seq<bytes>, k: bytes)
    requires forall i, j | 0 <= i < j < |s| :: s[i] != s[j]
    ensures multiset(s)[k] <= 1
  {
    if s != [] {
      var n := |s| - 1;
      AtMostOnce(s[..n], k);
      assert s == s[..n] + [s[n]];
      if s[n] == k {
        assert k !in s[..n];
        assert k !in multiset(s[..n]);
      }
    }
  }

  /** However the map is iterated, the same parameters are collected. */
  lemma AnyOrder(values: Values, skip: bytes, order1: seq<bytes>, order2: seq<bytes>)
    requires Enumerates(values, order1) && Enumerates(values, order2)
    ensures multiset(Pairs(values, skip, order1)) == multiset(Pairs(values, skip, order2))
  {
    SameKeys(values, order1, order2);
    FlatPermute(PairsBy(values, skip), order1, order2);
  }

  // Injectivity

  predicate NoSeparators(s: bytes) {
    AMPERSAND !in s && EQUALS !in s
  }

  predicate AllEncoded(s: seq<Pair>) {
    forall p | p in s :: NoSeparators(p.k) && NoSeparators(p.v)
  }

  lemma TextIndexes(p: Pair, tail: bytes)
    requires NoSeparators(p.k) && NoSeparators(p.v) && (tail == [] || tail[0] == AMPERSAND)
    ensures
      var j := PairText(p) + tail;
      && IndexByte(j, EQUALS) == Some(|p.k|)
      && IndexByte(j, AMPERSAND) == (if tail == [] then None else Some(|PairText(p)|))
  {
    var text := PairText(p);
    var j := text + tail;
    forall i | 0 <= i < |p.k|
      ensures j[i] != EQUALS && j[i] != AMPERSAND
    {
      assert j[i] == p.k[i];
    }
    forall i | |p.k| <= i < |text|
      ensures j[i] != AMPERSAND
    {
      assert i == |p.k| || j[i] == p.v[i - |p.k| - 1];
    }
    assert j[|p.k|] == EQUALS;
    IndexByteIs(j, EQUALS, |p.k|);
    if tail != [] {
      assert j[|text|] == tail[0];
      IndexByteIs(j, AMPERSAND, |text|);
    } else {
      assert j == text;
    }
  }

  function Tail(s: seq<Pair>): bytes
    requires s != []
  {
    if |s| == 1 then [] else [AMPERSAND] + Join(s[1..])
  }

  /** Where the first name, the first value and the rest of a joined query are. */
  lemma JoinHead(s: seq<Pair>)
    requires s != [] && AllEncoded(s)
    ensures
      && Join(s) == PairText(s[0]) + Tail(s)
      && IndexByte(Join(s), EQUALS) == Some(|s[0].k|)
      && IndexByte(Join(s), AMPERSAND) == (if |s| == 1 then None else Some(|PairText(s[0])|))
  {
    assert s[0] in s;
    hide IndexByte;
    TextIndexes(s[0], Tail(s));
    if |s| == 1 {
      assert PairText(s[0]) + [] == PairText(s[0]);
    } else {
      assert PairText(s[0]) + [AMPERSAND] + Join(s[1..]) == PairText(s[0]) + Tail(s);
    }
  }

  lemma TextParts(p: Pair, q: Pair)
    requires |p.k| == |q.k| && PairText(p) == PairText(q)
    ensures p == q
  {
    assert PairText(p)[..|p.k|] == p.k && PairText(p)[|p.k| + 1..] == p.v;
    assert PairText(q)[..|q.k|] == q.k && PairText(q)[|q.k| + 1..] == q.v;
  }

  lemma SamePieces(a: bytes, t: bytes, b: bytes, u: bytes)
    requires a + t == b + u && |a| == |b|
    ensures a == b && t == u
  {
    assert (a + t)[..|a|] == a && (a + t)[|a|..] == t && (b + u)[..|b|] == b && (b + u)[|b|..] == u;
  }

  lemma SameHeads(s: seq<Pair>, t: seq<Pair>)
    requires s != [] && t != [] && AllEncoded(s) && AllEncoded(t) && Join(s) == Join(t)
    ensures s[0] == t[0] && Tail(s) == Tail(t) && (|s| == 1 <==> |t| == 1)
  {
    hide IndexByte, PairText, Join, Tail;
    JoinHead(s);
    JoinHead(t);
    if |s| == 1 {
      NoTail(s);
      NoTail(t);
    }
    SamePieces(PairText(s[0]), Tail(s), PairText(t[0]), Tail(t));
    TextParts(s[0], t[0]);
  }

  lemma NoTail(s: seq<Pair>)
    requires |s| == 1
    ensures Tail(s) == [] && PairText(s[0]) + Tail(s) == PairText(s[0])
  {
  }

  lemma JoinEmpty(s: seq<Pair>)
    requires AllEncoded(s)
    ensures Join(s) == [] <==> s == []
  {
    if s != [] {
      JoinHead(s);
    }
  }

  lemma SameTails(s: seq<Pair>, t: seq<Pair>)
    requires |s| > 1 && |t| > 1 && Tail(s) == Tail(t)
    ensures Join(s[1..]) == Join(t[1..])
  {
    hide Join;
    SamePieces([AMPERSAND], Join(s[1..]), [AMPERSAND], Join(t[1..]));
  }

  lemma {:induction false} JoinInjective(s: seq<Pair>, t: seq<Pair>)
    requires AllEncoded(s) && AllEncoded(t) && Join(s) == Join(t)
    ensures s == t
    decreases |s|
  {
    hide Join, Tail, NoSeparators;
    JoinEmpty(s);
    JoinEmpty(t);
    if s != [] {
      SameHeads(s, t);
      if |s| > 1 {
        SameTails(s, t);
        JoinInjective(s[1..], t[1..]);
      }
      assert s == [s[0]] + s[1..] && t == [t[0]] + t[1..];
    }
  }

  lemma {:induction false} EncodedIsClean(pairs: seq<Pair>)
    ensures AllEncoded(EncodeAll(pairs))
  {
    if pairs != [] {
      var n := |pairs| - 1;
      EncodedIsClean(pairs[..n]);
      EncodeAppendAll(pairs[..n], [pairs[n]]);
      assert pairs == pairs[..n] + [pairs[n]];
      FlatOne(EncodeOne, pairs[n]);
      NoSeparatorsIn(pairs[n].k);
      NoSeparatorsIn(pairs[n].v);
      assert EncodeAll(pairs) == EncodeAll(pairs[..n]) + [EncodePair(pairs[n])];
    }
  }

  lemma NoSeparatorsIn(s: bytes)
    ensures NoSeparators(Encode(s, true))
  {
    if AMPERSAND in Encode(s, true) {
      EncodeAlphabet(s, true, AMPERSAND);
    }
    if EQUALS in Encode(s, true) {
      EncodeAlphabet(s, true, EQUALS);
    }
  }

  lemma {:induction false} DecodeEncodeAll(pairs: seq<Pair>)
    ensures DecodeAll(EncodeAll(pairs)) == pairs
  {
    if pairs != [] {
      var n := |pairs| - 1;
      DecodeEncodeAll(pairs[..n]);
      assert pairs == pairs[..n] + [pairs[n]];
      EncodeAppendAll(pairs[..n], [pairs[n]]);
      FlatOne(EncodeOne, pairs[n]);
      FlatAppend(DecodeOne, EncodeAll(pairs[..n]), [EncodePair(pairs[n])]);
      FlatOne(DecodeOne, EncodePair(pairs[n]));
      DecodeEncode(pairs[n].k, true);
      DecodeEncode(pairs[n].v, true);
    }
  }

  /** Two sorted lists of the same pairs are the same list. */
  lemma {:induction false} SortedUnique(s: seq<Pair>, t: seq<Pair>)
    requires Sorted(s) && Sorted(t) && multiset(s) == multiset(t)
    ensures s == t
    decreases |s|
  {
    hide PairLess;
    assert |s| == |multiset(s)| == |multiset(t)| == |t|;
    if s != [] {
      var n := |s| - 1;
      LastIsGreatest(s, t);
      LastIsGreatest(t, s);
      PairLessTotal(s[n], t[n]);
      OneMore(s);
      OneMore(t);
      SameLess(multiset(s[..n]), multiset(t[..n]), s[n]);
      SortedUnique(s[..n], t[..n]);
      assert s == s[..n] + [s[n]] && t == t[..n] + [t[n]];
    }
  }

  lemma LastIsGreatest(s: seq<Pair>, t: seq<Pair>)
    requires Sorted(s) && multiset(s) == multiset(t) && s != [] && t != []
    ensures !PairLess(s[|s| - 1], t[|t| - 1])
  {
    hide PairLess;
    var x := t[|t| - 1];
    assert x in multiset(t) && x in multiset(s);
    var i :| 0 <= i < |s| && s[i] == x;
    if i == |s| - 1 {
      PairLessIrreflexive(x);
    }
  }

  lemma PairLessIrreflexive(p: Pair)
    ensures !PairLess(p, p)
  {
    LessIrreflexive(p.v);
  }

  /** `text` is the sorted, joined encoding of `pairs`. */
  ghost predicate IsCanonical(text: bytes, pairs: seq<Pair>) {
    exists s :: Sorted(s) && multiset(s) == multiset(EncodeAll(pairs)) && text == Join(s)
  }

  /** Two queries print alike exactly when they have the same unskipped parameters, each as often. */
  lemma CanonicalExactly(text1: bytes, pairs1: seq<Pair>, text2: bytes, pairs2: seq<Pair>)
    requires IsCanonical(text1, pairs1) && IsCanonical(text2, pairs2)
    ensures text1 == text2 <==> multiset(pairs1) == multiset(pairs2)
  {
    var s :| Sorted(s) && multiset(s) == multiset(EncodeAll(pairs1)) && text1 == Join(s);
    var t :| Sorted(t) && multiset(t) == multiset(EncodeAll(pairs2)) && text2 == Join(t);
    if multiset(pairs1) == multiset(pairs2) {
      FlatPermute(EncodeOne, pairs1, pairs2);
      SortedUnique(s, t);
    }
    if text1 == text2 {
      CleanSorted(s, pairs1);
      CleanSorted(t, pairs2);
      JoinInjective(s, t);
      FlatPermute(DecodeOne, EncodeAll(pairs1), EncodeAll(pairs2));
      DecodeEncodeAll(pairs1);
      DecodeEncodeAll(pairs2);
    }
  }

  lemma CleanSorted(s: seq<Pair>, pairs: seq<Pair>)
    requires multiset(s) == multiset(EncodeAll(pairs))
    ensures AllEncoded(s)
  {
    EncodedIsClean(pairs);
    forall p | p in s
      ensures NoSeparators(p.k) && NoSeparators(p.v)
    {
      assert p in multiset(s);
      assert p in EncodeAll(pairs);
    }
  }

  // What is printed

  /** Every value of every unskipped parameter, as often as it is given. */
  ghost predicate Collects(sources: seq<Pair>, values: Values, skip: bytes) {
    forall k, v ::
      multiset(sources)[Pair(k, v)] == if k != skip && k in values then multiset(values[k])[v] else 0
  }

  /** By name, and under one name by value, in byte order. */
  predicate InOrder(printed: seq<Pair>) {
    forall i, j | 0 <= i < j < |printed| ::
      || Less(printed[i].k, printed[j].k)
      || (printed[i].k == printed[j].k && !Less(printed[j].v, printed[i].v))
  }

  function Piece(p: Pair, first: bool): bytes {
    (if first then [] else ['&' as int]) + p.k + ['=' as int] + p.v
  }

  function Pieces(printed: seq<Pair>): seq<bytes> {
    seq(|printed|, i requires 0 <= i < |printed| => Piece(printed[i], i == 0))
  }

  /** The parameters, each name and value encoded, in the order of what is printed, and joined. */
  ghost predicate Prints(text: bytes, values: Values, skip: bytes) {
    exists sources: seq<Pair>, printed: seq<Pair> ::
      && Collects(sources, values, skip) && |printed| == |sources| && InOrder(printed)
      && (forall i | 0 <= i < |sources| ::
            EncodesAs(printed[i].k, sources[i].k, true) && EncodesAs(printed[i].v, sources[i].v, true))
      && text == Concat(Pieces(printed))
  }

  lemma {:induction false} PairsOfCount(name: bytes, vals: seq<bytes>, k: bytes, v: bytes)
    ensures multiset(PairsOf(name, vals))[Pair(k, v)] == if k == name then multiset(vals)[v] else 0
  {
    if vals != [] {
      var n := |vals| - 1;
      PairsOfCount(name, vals[..n], k, v);
      assert vals == vals[..n] + [vals[n]];
    }
  }

  lemma {:induction false} PairsCount(values: Values, skip: bytes, order: seq<bytes>, k: bytes, v: bytes)
    requires forall i, j | 0 <= i < j < |order| :: order[i] != order[j]
    ensures
      multiset(Pairs(values, skip, order))[Pair(k, v)]
      == if k != skip && k in values && k in order then multiset(values[k])[v] else 0
  {
    hide PairsOf;
    if order == [] {
      NoneFlat(values, skip);
    } else {
      var n := |order| - 1;
      PairsCount(values, skip, order[..n], k, v);
      assert order == order[..n] + [order[n]];
      PairsSnoc(values, skip, order[..n], order[n]);
      hide Pairs;
      var name := order[n];
      if name != skip && name in values {
        PairsOfCount(name, values[name], k, v);
      }
      assert name !in order[..n];
    }
  }

  lemma NoneFlat(values: Values, skip: bytes)
    ensures Pairs(values, skip, []) == []
  {
  }

  lemma {:induction false} JoinIsConcat(s: seq<Pair>)
    ensures Join(s) == Concat(Pieces(s))
  {
    hide Concat;
    if s == [] {
      NothingJoined();
    } else {
      var n := |s| - 1;
      JoinIsConcat(s[..n]);
      assert s == s[..n] + [s[n]];
      JoinSnoc(s[..n], s[n]);
      assert Pieces(s) == Pieces(s[..n]) + [Piece(s[n], n == 0)];
      ConcatSnoc(Pieces(s[..n]), Piece(s[n], n == 0));
      hide Join, Pieces;
      if n == 0 {
        assert s[..n] == [];
        NothingJoined();
      }
      LastPiece(s[n], n == 0, Join(s[..n]));
    }
  }

  lemma NothingJoined()
    ensures Join([]) == [] && Pieces([]) == [] && Concat([]) == []
  {
  }

  lemma LastPiece(p: Pair, first: bool, front: bytes)
    ensures first ==> [] + PairText(p) == [] + Piece(p, first)
    ensures !first ==> front + [AMPERSAND] + PairText(p) == front + Piece(p, first)
  {
  }

  lemma EncodedFrom(q: Pair, pairs: seq<Pair>)
    requires q in EncodeAll(pairs)
    ensures q == EncodePair(Pair(Decode(q.k), Decode(q.v)))
    decreases |pairs|
  {
    hide Decode, Encode;
    if pairs != [] {
      var n := |pairs| - 1;
      EncodeAppendAll(pairs[..n], [pairs[n]]);
      assert pairs == pairs[..n] + [pairs[n]];
      FlatOne(EncodeOne, pairs[n]);
      if q in EncodeAll(pairs[..n]) {
        EncodedFrom(q, pairs[..n]);
      } else {
        DecodeEncode(pairs[n].k, true);
        DecodeEncode(pairs[n].v, true);
      }
    }
  }

  lemma {:induction false} DecodeAllAt(s: seq<Pair>, i: nat)
    requires i < |s|
    ensures |DecodeAll(s)| == |s| && DecodeAll(s)[i] == Pair(Decode(s[i].k), Decode(s[i].v))
  {
    hide Decode;
    var n := |s| - 1;
    DecodeAllSize(s[..n]);
    if i < n {
      DecodeAllAt(s[..n], i);
    }
  }

  lemma {:induction false} DecodeAllSize(s: seq<Pair>)
    ensures |DecodeAll(s)| == |s|
  {
    hide Decode;
    if s != [] {
      DecodeAllSize(s[..|s| - 1]);
    }
  }

  lemma SortedInOrder(s: seq<Pair>)
    requires Sorted(s)
    ensures InOrder(s)
  {
    forall i, j | 0 <= i < j < |s|
      ensures Less(s[i].k, s[j].k) || (s[i].k == s[j].k && !Less(s[j].v, s[i].v))
    {
      assert !PairLess(s[j], s[i]);
      LessTotal(s[i].k, s[j].k);
    }
  }

  lemma CanonicalPrints(text: bytes, values: Values, skip: bytes, order: seq<bytes>)
    requires Enumerates(values, order) && IsCanonical(text, Pairs(values, skip, order))
    ensures Prints(text, values, skip)
  {
    var pairs := Pairs(values, skip, order);
    var s: seq<Pair> :| Sorted(s) && multiset(s) == multiset(EncodeAll(pairs)) && text == Join(s);
    var sources := DecodeAll(s);
    DecodedCollects(s, sources, values, skip, order);
    SortedInOrder(s);
    JoinIsConcat(s);
    DecodeAllSize(s);
    forall i | 0 <= i < |s|
      ensures EncodesAs(s[i].k, sources[i].k, true) && EncodesAs(s[i].v, sources[i].v, true)
    {
      assert s[i] in multiset(s);
      EncodedFrom(s[i], pairs);
      DecodeAllAt(s, i);
      EncodedAs(sources[i].k, true);
      EncodedAs(sources[i].v, true);
    }
    hide *;
    assert Prints(text, values, skip) by { PrintsBy(text, values, skip, sources, s); }
  }

  lemma PrintsBy(text: bytes, values: Values, skip: bytes, sources: seq<Pair>, printed: seq<Pair>)
    requires Collects(sources, values, skip) && |printed| == |sources| && InOrder(printed)
    requires forall i | 0 <= i < |sources| ::
               EncodesAs(printed[i].k, sources[i].k, true) && EncodesAs(printed[i].v, sources[i].v, true)
    requires text == Concat(Pieces(printed))
    ensures Prints(text, values, skip)
  {
  }

  lemma DecodedCollects(s: seq<Pair>, sources: seq<Pair>, values: Values, skip: bytes, order: seq<bytes>)
    requires Enumerates(values, order) && sources == DecodeAll(s)
    requires multiset(s) == multiset(EncodeAll(Pairs(values, skip, order)))
    ensures Collects(sources, values, skip)
  {
    hide Pairs, EncodeAll;
    var pairs := Pairs(values, skip, order);
    FlatPermute(DecodeOne, s, EncodeAll(pairs));
    DecodeEncodeAll(pairs);
    forall k, v
      ensures multiset(sources)[Pair(k, v)] == if k != skip && k in values then multiset(values[k])[v] else 0
    {
      PairsCount(values, skip, order, k, v);
    }
  }
}

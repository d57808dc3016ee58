/** Paged listing with delimiter rollup, and the one-shot listing it refines. */
module Listing {
  import opened ByteStrings
  import opened Text
  import opened ByteOrder

  // Rollup

  predicate OccursAt(s: bytes, d: bytes, i: nat) {
    i + |d| <= |s| && s[i..i + |d|] == d
  }

  /** Position of the first occurrence of `d` in `s` at or after `from`. */
  function IndexFrom(s: bytes, d: bytes, from: nat): (r: Option<nat>)
    ensures r.Some? ==> from <= r.value && OccursAt(s, d, r.value) && forall j | from <= j < r.value :: !OccursAt(s, d, j)
    ensures r.None? ==> forall j | from <= j :: !OccursAt(s, d, j)
    decreases |s| - from
  {
    if from + |d| > |s| then None
    else if OccursAt(s, d, from) then Some(from)
    else IndexFrom(s, d, from + 1)
  }

  /** What a key contributes to a listing. */
  datatype Item = Key(key: bytes) | Common(prefix: bytes)

  datatype Params = Params(prefix: bytes, delimiter: bytes)

  predicate Valid(p: Params, k: bytes) {
    StartsWith(k, p.prefix)
  }

  /** The common prefix a key rolls up to: through the first delimiter behind the listed prefix. */
  function ItemOf(p: Params, k: bytes): Item
    requires Valid(p, k)
  {
    if p.delimiter == [] then Key(k)
    else
      var rel := k[|p.prefix|..];
      var idx := IndexFrom(rel, p.delimiter, 0);
      if idx.None? then Key(k) else Common(p.prefix + rel[..idx.value + |p.delimiter|])
  }

  lemma OccursInPrefix(s: bytes, n: nat, d: bytes, i: nat)
    requires i + |d| <= n <= |s|
    ensures OccursAt(s, d, i) <==> OccursAt(s[..n], d, i)
  {
    assert s[..n][i..i + |d|] == s[i..i + |d|];
  }

  lemma FirstIs(s: bytes, d: bytes, i: nat)
    requires OccursAt(s, d, i) && forall j: nat | j < i :: !OccursAt(s, d, j)
    ensures IndexFrom(s, d, 0) == Some(i)
  {
    hide OccursAt;
    var r := IndexFrom(s, d, 0);
  }

  /** What comes behind the first delimiter does not move it. */
  lemma SameFirst(s: bytes, t: bytes, d: bytes, i: nat)
    requires IndexFrom(s, d, 0) == Some(i) && StartsWith(t, s[..i + |d|])
    ensures IndexFrom(t, d, 0) == Some(i)
  {
    forall j: nat | j <= i
      ensures OccursAt(t, d, j) <==> OccursAt(s, d, j)
    {
      OccursInPrefix(s, i + |d|, d, j);
      OccursInPrefix(t, i + |d|, d, j);
    }
    FirstIs(t, d, i);
  }

  lemma SplitStart(k: bytes, p: bytes, r: bytes)
    ensures StartsWith(k, p + r) <==> StartsWith(k, p) && StartsWith(k[|p|..], r)
  {
    if StartsWith(k, p + r) {
      assert k[..|p|] == (p + r)[..|p|] && k[|p|..][..|r|] == (p + r)[|p|..];
    }
    if StartsWith(k, p) && StartsWith(k[|p|..], r) {
      assert k[..|p| + |r|] == k[..|p|] + k[|p|..][..|r|];
    }
  }

  /** A key starts with its own common prefix, and every key that starts with it rolls up to it. */
  lemma CommonMeans(p: Params, k: bytes, other: bytes)
    requires Valid(p, k) && ItemOf(p, k).Common?
    ensures StartsWith(k, ItemOf(p, k).prefix)
    ensures StartsWith(other, ItemOf(p, k).prefix) ==> Valid(p, other) && ItemOf(p, other) == ItemOf(p, k)
  {
    hide StartsWith;
    StartIs(k, p.prefix);
    var rel := k[|p.prefix|..];
    var idx := IndexFrom(rel, p.delimiter, 0).value;
    var head := rel[..idx + |p.delimiter|];
    assert StartsWith(rel, head) by { TakeStarts(rel, idx + |p.delimiter|); }
    SplitStart(k, p.prefix, head);
    SplitStart(other, p.prefix, head);
    if StartsWith(other, p.prefix + head) {
      StartIs(other, p.prefix);
      SameFirst(rel, other[|p.prefix|..], p.delimiter, idx);
      assert other[|p.prefix|..][..idx + |p.delimiter|] == head by { StartIs(other[|p.prefix|..], head); }
    }
  }

  /** `c` is `k` cut off behind the first delimiter that follows the prefix. */
  ghost predicate RollsUpTo(p: Params, k: bytes, c: bytes) {
    p.delimiter != [] && exists i: nat :: CutsAt(p, k, c, i)
  }

  /** A delimiter stands at place `i` of `k` and none before it behind the prefix; `c` ends with it. */
  predicate CutsAt(p: Params, k: bytes, c: bytes, i: nat) {
    && |p.prefix| <= i && i + |p.delimiter| <= |k|
    && c == k[..i + |p.delimiter|]
    && StartsWith(k[i..], p.delimiter)
    && forall j | |p.prefix| <= j < i :: !StartsWith(k[j..], p.delimiter)
  }

  lemma OccursBehind(k: bytes, n: nat, d: bytes, j: nat)
    requires n + j <= |k|
    ensures OccursAt(k[n..], d, j) <==> StartsWith(k[n + j..], d)
  {
    if n + j + |d| <= |k| {
      assert k[n..][j..j + |d|] == k[n + j..][..|d|];
    }
  }

  /** What a key contributes, by the places of the delimiter in it. */
  lemma ItemExactly(p: Params, k: bytes, c: bytes)
    requires Valid(p, k)
    ensures ItemOf(p, k) == Common(c) <==> RollsUpTo(p, k, c)
    ensures ItemOf(p, k).Key? ==> ItemOf(p, k) == Key(k)
  {
    if p.delimiter != [] {
      var idx := IndexFrom(k[|p.prefix|..], p.delimiter, 0);
      if idx.Some? {
        CommonAt(p, k, idx.value);
      }
      if i: nat :| CutsAt(p, k, c, i) {
        CutIsFirst(p, k, c, i);
        CommonAt(p, k, i - |p.prefix|);
      }
    }
  }

  lemma CutIsFirst(p: Params, k: bytes, c: bytes, i: nat)
    requires Valid(p, k) && p.delimiter != [] && CutsAt(p, k, c, i)
    ensures IndexFrom(k[|p.prefix|..], p.delimiter, 0) == Some(i - |p.prefix|)
  {
    hide OccursAt, StartsWith;
    var n := |p.prefix|;
    OccursBehind(k, n, p.delimiter, i - n);
    forall j: nat | j < i - n
      ensures !OccursAt(k[n..], p.delimiter, j)
    {
      OccursBehind(k, n, p.delimiter, j);
    }
    FirstIs(k[n..], p.delimiter, i - n);
  }

  lemma CommonAt(p: Params, k: bytes, i: nat)
    requires Valid(p, k) && p.delimiter != [] && IndexFrom(k[|p.prefix|..], p.delimiter, 0) == Some(i)
    ensures |p.prefix| + i + |p.delimiter| <= |k|
    ensures ItemOf(p, k) == Common(k[..|p.prefix| + i + |p.delimiter|])
    ensures CutsAt(p, k, k[..|p.prefix| + i + |p.delimiter|], |p.prefix| + i)
  {
    var d, n := p.delimiter, |p.prefix|;
    assert p.prefix + k[n..][..i + |d|] == k[..n + i + |d|];
    OccursBehind(k, n, d, i);
    hide OccursAt, StartsWith;
    forall j | n <= j < n + i
      ensures !StartsWith(k[j..], d)
    {
      OccursBehind(k, n, d, j - n);
    }
  }

  lemma TakeStarts(s: bytes, n: nat)
    requires n <= |s|
    ensures StartsWith(s, s[..n])
  {
  }

  lemma StartIs(s: bytes, p: bytes)
    requires StartsWith(s, p)
    ensures |p| <= |s| && s[..|p|] == p
  {
  }

  /** Keys that roll up to one common prefix are contiguous in byte order. */
  lemma CommonIsContiguous(p: Params, a: bytes, k: bytes, b: bytes)
    requires Valid(p, a) && Valid(p, b) && AtMost(a, k) && AtMost(k, b)
    requires ItemOf(p, a).Common? && ItemOf(p, b) == ItemOf(p, a)
    ensures Valid(p, k) && ItemOf(p, k) == ItemOf(p, a)
  {
    CommonMeans(p, a, k);
    CommonMeans(p, b, k);
    BetweenStarts(ItemOf(p, a).prefix, a, k, b);
  }

  lemma StartsThrough(k: bytes, p: bytes, q: bytes)
    ensures StartsWith(k, p) && StartsWith(p, q) ==> StartsWith(k, q)
  {
    if StartsWith(k, p) && StartsWith(p, q) {
      assert k[..|q|] == p[..|q|];
    }
  }

  /** Common prefixes come in the order of their keys. */
  lemma CommonsAscend(p: Params, a: bytes, b: bytes)
    requires Valid(p, a) && Valid(p, b) && Less(a, b)
    requires ItemOf(p, a).Common? && ItemOf(p, b).Common? && ItemOf(p, a) != ItemOf(p, b)
    ensures Less(ItemOf(p, a).prefix, ItemOf(p, b).prefix)
  {
    CommonMeans(p, a, a);
    CommonMeans(p, a, b);
    CommonMeans(p, b, b);
    CommonMeans(p, b, a);
    hide *;
    PrefixesAscend(a, b, ItemOf(p, a).prefix, ItemOf(p, b).prefix);
  }

  /** Prefixes that separate two texts are in the order of the texts. */
  lemma PrefixesAscend(a: bytes, b: bytes, c: bytes, d: bytes)
    requires Less(a, b) && StartsWith(a, c) && StartsWith(b, d) && !StartsWith(a, d) && !StartsWith(b, c)
    ensures Less(c, d)
  {
    hide Less, StartsWith;
    StartIs(a, c);
    StartIs(b, d);
    assert b == d + b[|d|..] && d + [] == d;
    assert a == c + a[|c|..] && c + [] == c;
    LessOutside(a, d, b[|d|..], []);
    StartsThrough(b, d, c);
    LessOutside(d, c, a[|c|..], []);
  }

  // The one-shot listing

  predicate AllValid(p: Params, rows: seq<bytes>) {
    forall k | k in rows :: Valid(p, k)
  }

  function AddItem(items: seq<Item>, it: Item): seq<Item> {
    if it in items then items else items + [it]
  }

  /** Every item once, in the order it first appears. */
  function Items(p: Params, rows: seq<bytes>): seq<Item>
    requires AllValid(p, rows)
  {
    if rows == [] then []
    else AddItem(Items(p, rows[..|rows| - 1]), ItemOf(p, rows[|rows| - 1]))
  }

  function Objects(items: seq<Item>): seq<bytes> {
    if items == [] then []
    else
      var last := items[|items| - 1];
      Objects(items[..|items| - 1]) + (if last.Key? then [last.key] else [])
  }

  function Commons(items: seq<Item>): seq<bytes> {
    if items == [] then []
    else
      var last := items[|items| - 1];
      Commons(items[..|items| - 1]) + (if last.Common? then [last.prefix] else [])
  }

  // The query

  predicate Wanted(p: Params, after: bytes, k: bytes) {
    && (after == [] || Less(after, k))
    && (p.prefix == [] || InRange(k, p.prefix, UpperBound(p.prefix)))
  }

  /** The rows of the table the query selects, in key order. */
  function Query(table: seq<bytes>, p: Params, after: bytes): seq<bytes> {
    if table == [] then []
    else
      var last := table[|table| - 1];
      Query(table[..|table| - 1], p, after) + (if Wanted(p, after, last) then [last] else [])
  }

  lemma WantedMeans(p: Params, after: bytes, k: bytes)
    ensures Wanted(p, after, k) <==> (after == [] || Less(after, k)) && Valid(p, k)
  {
    RangeIsPrefix(k, p.prefix);
  }

  lemma {:induction false} QueryMembers(table: seq<bytes>, p: Params, after: bytes, k: bytes)
    ensures k in Query(table, p, after) <==> k in table && Wanted(p, after, k)
  {
    hide Wanted;
    if table != [] {
      var n := |table| - 1;
      QueryMembers(table[..n], p, after, k);
      assert table == table[..n] + [table[n]];
    }
  }

  lemma QueryValid(table: seq<bytes>, p: Params, after: bytes)
    ensures AllValid(p, Query(table, p, after))
  {
    forall k | k in Query(table, p, after)
      ensures Valid(p, k)
    {
      QueryMembers(table, p, after, k);
      WantedMeans(p, after, k);
    }
  }

  lemma {:induction false} QueryAscends(table: seq<bytes>, p: Params, after: bytes)
    requires Ascending(table)
    ensures Ascending(Query(table, p, after))
  {
    hide Wanted, Less;
    if table != [] {
      var n := |table| - 1;
      QueryAscends(table[..n], p, after);
      forall k | k in Query(table[..n], p, after)
        ensures Less(k, table[n])
      {
        QueryMembers(table[..n], p, after, k);
      }
    }
  }

  /** The keys of `s` beyond `r`. */
  function Beyond(s: seq<bytes>, r: bytes): seq<bytes> {
    if s == [] then []
    else Beyond(s[..|s| - 1], r) + (if Less(r, s[|s| - 1]) then [s[|s| - 1]] else [])
  }

  lemma BeyondSnoc(s: seq<bytes>, k: bytes, r: bytes)
    ensures Beyond(s + [k], r) == if Less(r, k) then Beyond(s, r) + [k] else Beyond(s, r)
  {
    assert (s + [k])[..|s|] == s;
  }

  lemma {:induction false} QueryBeyond(table: seq<bytes>, p: Params, after: bytes, r: bytes)
    requires r != [] && (after == [] || Less(after, r))
    ensures Query(table, p, r) == Beyond(Query(table, p, after), r)
  {
    if table != [] {
      var n := |table| - 1;
      var k := table[n];
      QueryBeyond(table[..n], p, after, r);
      if after != [] && Less(r, k) {
        LessTransitive(after, r, k);
      }
      assert Wanted(p, r, k) <==> Wanted(p, after, k) && Less(r, k);
      BeyondSnoc(Query(table[..n], p, after), k, r);
      hide Wanted, Less;
      if !Wanted(p, after, k) {
        assert Query(table, p, after) == Query(table[..n], p, after);
      }
    }
  }

  lemma {:induction false} BeyondIsSuffix(s: seq<bytes>, n: nat)
    requires Ascending(s) && 0 < n <= |s|
    ensures Beyond(s, s[n - 1]) == s[n..]
    decreases |s|
  {
    hide Less;
    var m := |s| - 1;
    if n <= m {
      BeyondIsSuffix(s[..m], n);
      assert s[..m][n..] + [s[m]] == s[n..];
    } else {
      NoneBeyond(s[..m], s[m]);
      LessIrreflexive(s[m]);
    }
  }

  lemma {:induction false} NoneBeyond(s: seq<bytes>, r: bytes)
    requires forall k | k in s :: Less(k, r)
    ensures Beyond(s, r) == []
  {
    if s != [] {
      NoneBeyond(s[..|s| - 1], r);
      LessAsymmetric(s[|s| - 1], r);
    }
  }

  /** Resuming behind the n-th selected row selects exactly the rows after it. */
  lemma Resumes(table: seq<bytes>, p: Params, after: bytes, n: nat)
    requires Ascending(table) && [] !in table && 0 < n <= |Query(table, p, after)|
    ensures
      var rows := Query(table, p, after);
      Query(table, p, rows[n - 1]) == rows[n..] && rows[n - 1] != [] && (after == [] || Less(after, rows[n - 1]))
  {
    var r := Query(table, p, after)[n - 1];
    QueryMembers(table, p, after, r);
    QueryBeyond(table, p, after, r);
    QueryAscends(table, p, after);
    BeyondIsSuffix(Query(table, p, after), n);
  }

  // Items over a split

  lemma {:induction false} ItemsMembers(p: Params, rows: seq<bytes>, it: Item)
    requires AllValid(p, rows)
    ensures it in Items(p, rows) <==> exists i :: 0 <= i < |rows| && ItemOf(p, rows[i]) == it
  {
    hide ItemOf;
    if rows != [] {
      var n := |rows| - 1;
      ItemsMembers(p, rows[..n], it);
      assert forall i | 0 <= i < n :: rows[..n][i] == rows[i];
    }
  }

  lemma LaterDiffer(p: Params, rows: seq<bytes>, n: nat, j: nat)
    requires AllValid(p, rows) && Ascending(rows) && n <= j < |rows|
    requires ItemOf(p, rows[n]) !in Items(p, rows[..n])
    ensures ItemOf(p, rows[j]) !in Items(p, rows[..n])
  {
    hide ItemOf, Less;
    var it := ItemOf(p, rows[j]);
    ItemsMembers(p, rows[..n], it);
    if it in Items(p, rows[..n]) {
      var a :| 0 <= a < n && ItemOf(p, rows[..n][a]) == it;
      assert rows[..n][a] == rows[a];
      ItemsMembers(p, rows[..n], ItemOf(p, rows[n]));
      if it.Common? {
        CommonIsContiguous(p, rows[a], rows[n], rows[j]);
      } else {
        KeyIsItself(p, rows[a]);
        KeyIsItself(p, rows[j]);
        LessIrreflexive(rows[j]);
      }
    }
  }

  lemma KeyIsItself(p: Params, k: bytes)
    requires Valid(p, k) && ItemOf(p, k).Key?
    ensures ItemOf(p, k).key == k
  {
  }

  lemma ItemsSnoc(p: Params, rows: seq<bytes>, k: bytes)
    requires AllValid(p, rows) && Valid(p, k)
    ensures AllValid(p, rows + [k])
    ensures Items(p, rows + [k]) == AddItem(Items(p, rows), ItemOf(p, k))
  {
    assert (rows + [k])[..|rows|] == rows;
  }

  lemma ItemsTake(p: Params, rows: seq<bytes>, j: nat)
    requires AllValid(p, rows) && 0 < j <= |rows|
    ensures Items(p, rows[..j]) == AddItem(Items(p, rows[..j - 1]), ItemOf(p, rows[j - 1]))
  {
    hide ItemOf, AddItem;
    assert rows[..j] == rows[..j - 1] + [rows[j - 1]];
    ItemsSnoc(p, rows[..j - 1], rows[j - 1]);
  }

  lemma ItemsSlice(p: Params, rows: seq<bytes>, n: nat, j: nat)
    requires AllValid(p, rows) && n < j <= |rows|
    ensures Items(p, rows[n..j]) == AddItem(Items(p, rows[n..j - 1]), ItemOf(p, rows[j - 1]))
  {
    hide ItemOf, AddItem;
    assert rows[n..j] == rows[n..j - 1] + [rows[j - 1]];
    ItemsSnoc(p, rows[n..j - 1], rows[j - 1]);
  }

  lemma AddBehind(a: seq<Item>, b: seq<Item>, it: Item)
    requires it !in a
    ensures AddItem(a + b, it) == a + AddItem(b, it)
  {
    assert it in a + b <==> it in b;
    assert a + b + [it] == a + (b + [it]);
  }

  lemma EmptySlice(p: Params, rows: seq<bytes>, n: nat)
    requires n <= |rows|
    ensures AllValid(p, rows[n..n]) && Items(p, rows[n..n]) == []
  {
    assert rows[n..n] == [];
  }

  /** Where a new item starts, the listing splits into the listings of the two sides. */
  lemma {:induction false} ItemsSplit(p: Params, rows: seq<bytes>, n: nat, j: nat)
    requires AllValid(p, rows) && Ascending(rows) && n <= j <= |rows| && n < |rows|
    requires ItemOf(p, rows[n]) !in Items(p, rows[..n])
    ensures Items(p, rows[..j]) == Items(p, rows[..n]) + Items(p, rows[n..j])
    decreases j
  {
    hide ItemOf, Ascending, Valid, AddItem, Items;
    if j == n {
      EmptySlice(p, rows, n);
    } else {
      ItemsSplit(p, rows, n, j - 1);
      LaterDiffer(p, rows, n, j - 1);
      ItemsTake(p, rows, j);
      ItemsSlice(p, rows, n, j);
      AddBehind(Items(p, rows[..n]), Items(p, rows[n..j - 1]), ItemOf(p, rows[j - 1]));
    }
  }

  lemma {:induction false} ItemsGrow(p: Params, rows: seq<bytes>, n: nat)
    requires AllValid(p, rows) && n <= |rows|
    ensures Items(p, rows[..n]) <= Items(p, rows)
    decreases |rows| - n
  {
    hide ItemOf;
    if n < |rows| {
      assert rows[..n + 1] == rows[..n] + [rows[n]];
      ItemsSnoc(p, rows[..n], rows[n]);
      ItemsGrow(p, rows, n + 1);
    } else {
      assert rows[..n] == rows;
    }
  }

  // Pages

  datatype Page = Page(objects: seq<bytes>, commons: seq<bytes>, isTruncated: bool, nextAfter: bytes)

  /** How many of the selected rows go into a page: all that add no more than `max` items. */
  function Consumed(p: Params, rows: seq<bytes>, max: nat): (n: nat)
    requires AllValid(p, rows)
    ensures n <= |rows|
  {
    if |Items(p, rows)| <= max then |rows| else Consumed(p, rows[..|rows| - 1], max)
  }

  function PageOf(p: Params, rows: seq<bytes>, max: nat): Page
    requires AllValid(p, rows) && 0 < max
  {
    var n := Consumed(p, rows, max);
    var items := Items(p, rows[..n]);
    Page(Objects(items), Commons(items), n < |rows|, if 0 < n < |rows| then rows[n - 1] else [])
  }

  lemma {:induction false} ConsumedMeans(p: Params, rows: seq<bytes>, max: nat)
    requires AllValid(p, rows) && 0 < max
    ensures
      var n := Consumed(p, rows, max);
      && Items(p, rows[..n]) == Items(p, rows)[..Min(max, |Items(p, rows)|)]
      && (n < |rows| <==> |Items(p, rows)| > max)
      && (n < |rows| ==> 0 < n && ItemOf(p, rows[n]) !in Items(p, rows[..n]))
    decreases |rows|
  {
    hide ItemOf;
    if |Items(p, rows)| <= max {
      assert rows[..|rows|] == rows;
    } else {
      var m := |rows| - 1;
      ConsumedMeans(p, rows[..m], max);
      var n := Consumed(p, rows[..m], max);
      TakeOfTake(rows, m, n);
      assert Items(p, rows) == AddItem(Items(p, rows[..m]), ItemOf(p, rows[m]));
      hide Items, Consumed;
      if |Items(p, rows[..m])| <= max {
        assert n == m;
      }
    }
  }

  lemma TakeOfTake(rows: seq<bytes>, m: nat, n: nat)
    requires n <= m <= |rows|
    ensures rows[..m][..n] == rows[..n] && (n < m ==> rows[..m][n] == rows[n])
  {
  }

  function MaxKeysOrDefault(maxKeys: int): (r: nat)
    ensures 1 <= r <= 1000
    ensures 1 <= maxKeys <= 1000 ==> r == maxKeys
    ensures maxKeys < 1 || 1000 < maxKeys ==> r == 1000
  {
    if maxKeys <= 0 || maxKeys > 1000 then 1000 else maxKeys
  }

  // What the scan does with one more row

  /** What the scan has gathered is the page for `items`. */
  predicate Shows(items: seq<Item>, objects: seq<bytes>, commons: seq<bytes>, seen: set<bytes>, count: nat) {
    && objects == Objects(items) && commons == Commons(items) && count == |items|
    && (forall c | c in seen :: Common(c) in items)
    && (forall it | it in items :: it.Common? ==> it.prefix in seen)
  }

  lemma ShowsNothing()
    ensures Shows([], [], [], {}, 0)
  {
  }

  lemma ShowsKey(items: seq<Item>, objects: seq<bytes>, commons: seq<bytes>, seen: set<bytes>, count: nat, k: bytes)
    requires Shows(items, objects, commons, seen, count) && Key(k) !in items
    ensures Shows(AddItem(items, Key(k)), objects + [k], commons, seen, count + 1)
  {
    assert (items + [Key(k)])[..|items|] == items;
  }

  lemma ShowsCommon(items: seq<Item>, objects: seq<bytes>, commons: seq<bytes>, seen: set<bytes>, count: nat, c: bytes)
    requires Shows(items, objects, commons, seen, count)
    ensures c in seen <==> Common(c) in items
    ensures c in seen ==> AddItem(items, Common(c)) == items
    ensures c !in seen ==> Shows(AddItem(items, Common(c)), objects, commons + [c], seen + {c}, count + 1)
  {
    assert (items + [Common(c)])[..|items|] == items;
  }

  lemma RollsUp(p: Params, k: bytes)
    requires Valid(p, k) && p.delimiter != [] && IndexFrom(k[|p.prefix|..], p.delimiter, 0).Some?
    ensures
      var rel := k[|p.prefix|..];
      ItemOf(p, k) == Common(p.prefix + rel[..IndexFrom(rel, p.delimiter, 0).value + |p.delimiter|])
  {
  }

  lemma KeyIsNew(p: Params, rows: seq<bytes>, i: nat)
    requires AllValid(p, rows) && Ascending(rows) && i < |rows| && Valid(p, rows[i])
    requires p.delimiter == [] || IndexFrom(rows[i][|p.prefix|..], p.delimiter, 0).None?
    ensures ItemOf(p, rows[i]) == Key(rows[i]) && Key(rows[i]) !in Items(p, rows[..i])
  {
    hide Less;
    ItemsMembers(p, rows[..i], Key(rows[i]));
    if Key(rows[i]) in Items(p, rows[..i]) {
      var j :| 0 <= j < i && ItemOf(p, rows[..i][j]) == Key(rows[i]);
      KeyIsItself(p, rows[j]);
      LessIrreflexive(rows[i]);
    }
  }

  /** The page ends before the first row whose item does not fit. */
  lemma StopsHere(p: Params, rows: seq<bytes>, i: nat, max: nat, objects: seq<bytes>, commons: seq<bytes>,
                  seen: set<bytes>)
    requires AllValid(p, rows) && i < |rows| && 0 < max
    requires Shows(Items(p, rows[..i]), objects, commons, seen, max) && ItemOf(p, rows[i]) !in Items(p, rows[..i])
    ensures 0 < i && PageOf(p, rows, max) == Page(objects, commons, true, rows[i - 1])
  {
    hide ItemOf;
    ItemsTake(p, rows, i + 1);
    assert Items(p, rows[..0]) == [];
    ConsumedFrom(p, rows, i, max);
  }

  lemma {:induction false} ConsumedFrom(p: Params, rows: seq<bytes>, i: nat, max: nat)
    requires AllValid(p, rows) && i < |rows|
    requires |Items(p, rows[..i])| <= max < |Items(p, rows[..i + 1])|
    ensures Consumed(p, rows, max) == i
    decreases |rows|
  {
    hide ItemOf, AddItem;
    ItemsGrow(p, rows, i + 1);
    var m := |rows| - 1;
    if i < m {
      assert rows[..m][..i] == rows[..i] && rows[..m][..i + 1] == rows[..i + 1];
      ConsumedFrom(p, rows[..m], i, max);
    }
  }

  /** One page: scans the selected rows in key order and stops when a result does not fit any more. */
  method ListObjectsPage(table: seq<bytes>, p: Params, after: bytes, maxKeys: int) returns (page: Page)
    requires Ascending(table)
    ensures
      AllValid(p, Query(table, p, after)) && page == PageOf(p, Query(table, p, after), MaxKeysOrDefault(maxKeys))
  {
    hide *;
    var max := MaxKeysOrDefault(maxKeys);
    var rows := Query(table, p, after);
    QueryValid(table, p, after);
    QueryAscends(table, p, after);
    var objects: seq<bytes>, commons: seq<bytes> := [], [];
    var nextAfter: bytes := [];
    var seen: set<bytes>, count := {}, 0;
    NoItems(p, rows);
    ShowsNothing();
    for i := 0 to |rows|
      invariant Shows(Items(p, rows[..i]), objects, commons, seen, count)
      invariant count <= max
      invariant nextAfter == if i == 0 then [] else rows[i - 1]
    {
      var key := rows[i];
      ghost var items := Items(p, rows[..i]);
      ItemsTake(p, rows, i + 1);
      RowIsValid(p, rows, i);
      if p.delimiter != [] {
        var rel := key[|p.prefix|..];
        var idx := IndexFrom(rel, p.delimiter, 0);
        if idx.Some? {
          var cp := p.prefix + rel[..idx.value + |p.delimiter|];
          RollsUp(p, key);
          ShowsCommon(items, objects, commons, seen, count, cp);
          if cp in seen {
            nextAfter := key;
            continue;
          }
          if count == max {
            StopsHere(p, rows, i, max, objects, commons, seen);
            return Page(objects, commons, true, nextAfter);
          }
          seen := seen + {cp};
          commons := commons + [cp];
          count := count + 1;
          nextAfter := key;
          continue;
        }
      }
      KeyIsNew(p, rows, i);
      if count == max {
        StopsHere(p, rows, i, max, objects, commons, seen);
        return Page(objects, commons, true, nextAfter);
      }
      ShowsKey(items, objects, commons, seen, count, key);
      objects := objects + [key];
      count := count + 1;
      nextAfter := key;
    }
    Exhausted(p, rows, max, objects, commons, seen, count);
    return Page(objects, commons, false, []);
  }

  lemma NoItems(p: Params, rows: seq<bytes>)
    requires AllValid(p, rows)
    ensures AllValid(p, rows[..0]) && Items(p, rows[..0]) == []
    ensures forall i | 0 <= i <= |rows| :: AllValid(p, rows[..i])
  {
  }

  lemma RowIsValid(p: Params, rows: seq<bytes>, i: nat)
    requires AllValid(p, rows) && i < |rows|
    ensures Valid(p, rows[i]) && |p.prefix| <= |rows[i]|
    ensures forall rel | rel == rows[i][|p.prefix|..] ::
              var idx := IndexFrom(rel, p.delimiter, 0);
              idx.Some? ==> idx.value + |p.delimiter| <= |rel|
  {
    assert rows[i] in rows;
  }

  lemma Exhausted(p: Params, rows: seq<bytes>, max: nat, objects: seq<bytes>, commons: seq<bytes>, seen: set<bytes>,
                  count: nat)
    requires AllValid(p, rows) && 0 < max && count <= max
    requires Shows(Items(p, rows[..|rows|]), objects, commons, seen, count)
    ensures PageOf(p, rows, max) == Page(objects, commons, false, [])
  {
    assert rows[..|rows|] == rows;
  }

  // Following pages

  lemma PageAdvances(table: seq<bytes>, p: Params, after: bytes, max: nat)
    requires Ascending(table) && [] !in table && 0 < max && AllValid(p, Query(table, p, after))
    ensures
      var rows := Query(table, p, after);
      var n := Consumed(p, rows, max);
      var page := PageOf(p, rows, max);
      && (page.isTruncated <==> |Items(p, rows)| > max)
      && |page.objects| + |page.commons| == Min(max, |Items(p, rows)|)
      && (page.isTruncated ==>
            && 0 < n && page.nextAfter == rows[n - 1]
            && page.nextAfter != [] && (after == [] || Less(after, page.nextAfter))
            && Query(table, p, page.nextAfter) == rows[n..])
  {
    hide Less, Wanted, ItemOf, Valid, AddItem, Query;
    var rows := Query(table, p, after);
    var n := Consumed(p, rows, max);
    ConsumedMeans(p, rows, max);
    if n < |rows| {
      Resumes(table, p, after, n);
    }
    SizesAdd(Items(p, rows[..n]));
  }

  lemma {:induction false} SizesAdd(items: seq<Item>)
    ensures |Objects(items)| + |Commons(items)| == |items|
  {
    if items != [] {
      SizesAdd(items[..|items| - 1]);
    }
  }

  /** What a client that follows `nextAfter` until a page is not truncated puts together. */
  ghost function Follow(table: seq<bytes>, p: Params, after: bytes, max: nat): (seq<bytes>, seq<bytes>)
    requires Ascending(table) && [] !in table && 0 < max
    decreases |Query(table, p, after)|
  {
    QueryValid(table, p, after);
    PageAdvances(table, p, after, max);
    var page := PageOf(p, Query(table, p, after), max);
    if page.isTruncated then
      var rest := Follow(table, p, page.nextAfter, max);
      (page.objects + rest.0, page.commons + rest.1)
    else (page.objects, page.commons)
  }

  lemma {:induction false} ResultsAppend(a: seq<Item>, b: seq<Item>)
    ensures Objects(a + b) == Objects(a) + Objects(b) && Commons(a + b) == Commons(a) + Commons(b)
  {
    if b == [] {
      assert a + b == a;
    } else {
      assert (a + b)[..|a + b| - 1] == a + b[..|b| - 1];
      ResultsAppend(a, b[..|b| - 1]);
    }
  }

  /** Page after page gives exactly the one-shot listing: nothing skipped, nothing twice, in the same order. */
  lemma {:induction false} PagesConcatenate(table: seq<bytes>, p: Params, after: bytes, max: nat)
    requires Ascending(table) && [] !in table && 0 < max
    ensures AllValid(p, Query(table, p, after))
    ensures
      var items := Items(p, Query(table, p, after));
      Follow(table, p, after, max) == (Objects(items), Commons(items))
    decreases |Query(table, p, after)|
  {
    hide Less, Wanted, ItemOf, Valid, AddItem, Query, Items, Objects, Commons;
    QueryValid(table, p, after);
    QueryAscends(table, p, after);
    PageAdvances(table, p, after, max);
    var rows := Query(table, p, after);
    var page := PageOf(p, rows, max);
    var n := Consumed(p, rows, max);
    ConsumedMeans(p, rows, max);
    if page.isTruncated {
      PagesConcatenate(table, p, page.nextAfter, max);
      ItemsSplit(p, rows, n, |rows|);
      WholeRows(rows, n);
      ResultsAppend(Items(p, rows[..n]), Items(p, rows[n..]));
    } else {
      WholeRows(rows, n);
    }
  }

  lemma WholeRows(rows: seq<bytes>, n: nat)
    requires n <= |rows|
    ensures rows[..|rows|] == rows && rows[n..|rows|] == rows[n..]
  {
  }

  // What the one-shot listing is

  /** A key behind `after` that starts with the prefix. */
  predicate Selected(p: Params, after: bytes, k: bytes) {
    (after == [] || Less(after, k)) && |p.prefix| <= |k| && k[..|p.prefix|] == p.prefix
  }

  lemma SelectedMeans(p: Params, after: bytes, k: bytes)
    ensures Selected(p, after, k) <==> Wanted(p, after, k)
    ensures Wanted(p, after, k) ==> Valid(p, k)
  {
    hide Wanted, Less;
    WantedMeans(p, after, k);
  }

  /** An object is listed on its own exactly when no delimiter occurs behind the prefix. */
  lemma ListedObjects(table: seq<bytes>, p: Params, after: bytes, k: bytes)
    ensures AllValid(p, Query(table, p, after))
    ensures
      k in Objects(Items(p, Query(table, p, after)))
      <==> k in table && Selected(p, after, k) && forall c :: !RollsUpTo(p, k, c)
  {
    hide ItemOf, Wanted, Items, Selected, RollsUpTo;
    QueryValid(table, p, after);
    SelectedMeans(p, after, k);
    if Selected(p, after, k) {
      forall c ensures ItemOf(p, k) == Common(c) <==> RollsUpTo(p, k, c) { ItemExactly(p, k, c); }
      assert ItemOf(p, k).Key? || RollsUpTo(p, k, ItemOf(p, k).prefix);
    }
    var rows := Query(table, p, after);
    var items := Items(p, rows);
    ObjectsMembers(items, k);
    ItemsMembers(p, rows, Key(k));
    QueryMembers(table, p, after, k);
    if Key(k) in items {
      var i :| 0 <= i < |rows| && ItemOf(p, rows[i]) == Key(k);
      KeyIsItself(p, rows[i]);
      assert k in rows;
    }
    if k in rows && ItemOf(p, k).Key? {
      KeyIsItself(p, k);
      assert ItemOf(p, k) == Key(k);
    }
  }

  lemma {:induction false} ObjectsMembers(items: seq<Item>, k: bytes)
    ensures k in Objects(items) <==> Key(k) in items
  {
    if items != [] {
      var n := |items| - 1;
      ObjectsMembers(items[..n], k);
      assert items == items[..n] + [items[n]];
    }
  }

  lemma {:induction false} CommonsMembers(items: seq<Item>, c: bytes)
    ensures c in Commons(items) <==> Common(c) in items
  {
    if items != [] {
      var n := |items| - 1;
      CommonsMembers(items[..n], c);
      assert items == items[..n] + [items[n]];
    }
  }

  /** A common prefix is listed exactly when some selected key rolls up to it. */
  lemma ListedCommons(table: seq<bytes>, p: Params, after: bytes, c: bytes)
    ensures AllValid(p, Query(table, p, after))
    ensures
      c in Commons(Items(p, Query(table, p, after)))
      <==> exists k :: k in table && Selected(p, after, k) && RollsUpTo(p, k, c)
  {
    hide ItemOf, Wanted, Items, Valid, Selected, RollsUpTo;
    QueryValid(table, p, after);
    forall k
      ensures Selected(p, after, k) <==> Wanted(p, after, k)
      ensures Wanted(p, after, k) ==> Valid(p, k) && (ItemOf(p, k) == Common(c) <==> RollsUpTo(p, k, c))
    {
      SelectedMeans(p, after, k);
      if Wanted(p, after, k) {
        ItemExactly(p, k, c);
      }
    }
    var rows := Query(table, p, after);
    CommonsMembers(Items(p, rows), c);
    ItemsMembers(p, rows, Common(c));
    if c in Commons(Items(p, rows)) {
      var i :| 0 <= i < |rows| && ItemOf(p, rows[i]) == Common(c);
      QueryMembers(table, p, after, rows[i]);
    }
    if k :| k in table && Selected(p, after, k) && RollsUpTo(p, k, c) {
      QueryMembers(table, p, after, k);
    }
  }

  /** Both lists are strictly ascending, so neither repeats anything. */
  lemma {:induction false} ListingAscends(p: Params, rows: seq<bytes>)
    requires AllValid(p, rows) && Ascending(rows)
    ensures Ascending(Objects(Items(p, rows))) && Ascending(Commons(Items(p, rows)))
  {
    hide ItemOf, Less, Valid;
    if rows != [] {
      var n := |rows| - 1;
      ListingAscends(p, rows[..n]);
      var items, it := Items(p, rows[..n]), ItemOf(p, rows[n]);
      if it !in items {
        assert (items + [it])[..|items|] == items;
        forall k | it.Key? && k in Objects(items)
          ensures Less(k, it.key)
        {
          ObjectsMembers(items, k);
          EarlierKey(p, rows, n, k);
        }
        forall c | it.Common? && c in Commons(items)
          ensures Less(c, it.prefix)
        {
          CommonsMembers(items, c);
          EarlierCommon(p, rows, n, c);
        }
      }
    }
  }

  lemma EarlierKey(p: Params, rows: seq<bytes>, n: nat, k: bytes)
    requires AllValid(p, rows) && Ascending(rows) && n < |rows| && Key(k) in Items(p, rows[..n])
    requires ItemOf(p, rows[n]).Key?
    ensures Less(k, ItemOf(p, rows[n]).key)
  {
    hide ItemOf, Less;
    ItemsMembers(p, rows[..n], Key(k));
    var i :| 0 <= i < n && ItemOf(p, rows[..n][i]) == Key(k);
    KeyIsItself(p, rows[i]);
    KeyIsItself(p, rows[n]);
  }

  lemma EarlierCommon(p: Params, rows: seq<bytes>, n: nat, c: bytes)
    requires AllValid(p, rows) && Ascending(rows) && n < |rows| && Common(c) in Items(p, rows[..n])
    requires ItemOf(p, rows[n]).Common? && ItemOf(p, rows[n]) !in Items(p, rows[..n])
    ensures Less(c, ItemOf(p, rows[n]).prefix)
  {
    hide ItemOf, Less;
    ItemsMembers(p, rows[..n], Common(c));
    var i :| 0 <= i < n && ItemOf(p, rows[..n][i]) == Common(c);
    CommonsAscend(p, rows[i], rows[n]);
  }
}

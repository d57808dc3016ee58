/** Listing requests: the cursor parameters of both versions, whose tokens are keys in base64. */
module ListTokens {
  import opened ByteStrings
  import opened Text
  import opened ByteOrder
  import opened Listing
  import opened Base64

  // The request

  /** `ListObjects` takes a marker; `ListObjectsV2` a continuation token, or a key to start after. */
  datatype Cursor = V1(marker: bytes) | V2(token: bytes, startAfter: bytes)

  datatype Reply = InvalidArgument | Listed(page: Page, next: bytes)

  /** The key a request resumes behind, nothing when its token is malformed. */
  function AfterOf(c: Cursor): Option<bytes> {
    match c
    case V1(marker) => Some(marker)
    case V2(token, startAfter) => if token != [] then Decode(token) else Some(startAfter)
  }

  /** What the reply tells the client to send next: nothing when the listing is complete. */
  function NextOf(c: Cursor, page: Page): bytes {
    if !page.isTruncated then []
    else if c.V2? then Encode(page.nextAfter)
    else page.nextAfter
  }

  function Follower(c: Cursor, next: bytes): Cursor {
    if c.V2? then V2(next, c.startAfter) else V1(next)
  }

  method ListObjects(table: seq<bytes>, p: Params, c: Cursor, maxKeys: int) returns (r: Reply)
    requires Ascending(table)
    ensures r.InvalidArgument? <==> c.V2? && c.token != [] && Decode(c.token).None?
    ensures AfterOf(c) == if c.V1? then Some(c.marker) else if c.token == [] then Some(c.startAfter) else Decode(c.token)
    ensures r.Listed? ==>
              && AllValid(p, Query(table, p, AfterOf(c).value))
              && r.page == PageOf(p, Query(table, p, AfterOf(c).value), MaxKeysOrDefault(maxKeys))
              && r.next == if !r.page.isTruncated then [] else if c.V1? then r.page.nextAfter else Encode(r.page.nextAfter)
  {
    hide *;
    var after: bytes := [];
    if c.V2? {
      if c.token != [] {
        var key := Decode(c.token);
        if key.None? {
          AfterCases(c);
          return InvalidArgument;
        }
        after := key.value;
      } else {
        after := c.startAfter;
      }
    } else {
      after := c.marker;
    }
    AfterCases(c);
    var page := ListObjectsPage(table, p, after, MaxKeysOrDefault(maxKeys));
    assert MaxKeysOrDefault(MaxKeysOrDefault(maxKeys)) == MaxKeysOrDefault(maxKeys) by { ClampTwice(maxKeys); }
    NextCases(c, page);
    r := Listed(page, NextOf(c, page));
  }

  lemma AfterCases(c: Cursor)
    ensures c.V1? ==> AfterOf(c) == Some(c.marker)
    ensures c.V2? ==> AfterOf(c) == if c.token != [] then Decode(c.token) else Some(c.startAfter)
  {
  }

  lemma NextCases(c: Cursor, page: Page)
    ensures NextOf(c, page) == if !page.isTruncated then [] else if c.V1? then page.nextAfter else Encode(page.nextAfter)
  {
  }

  lemma ClampTwice(maxKeys: int)
    ensures MaxKeysOrDefault(MaxKeysOrDefault(maxKeys)) == MaxKeysOrDefault(maxKeys)
  {
  }

  /** What a client puts together that repeats its request with what the last reply told it to send. */
  ghost function FollowReplies(table: seq<bytes>, p: Params, c: Cursor, max: nat): (seq<bytes>, seq<bytes>)
    requires Ascending(table) && [] !in table && 0 < max && AfterOf(c).Some?
    decreases |Query(table, p, AfterOf(c).value)|
  {
    var after := AfterOf(c).value;
    QueryValid(table, p, after);
    PageAdvances(table, p, after, max);
    var page := PageOf(p, Query(table, p, after), max);
    if page.isTruncated then
      NextResumes(c, page);
      var rest := FollowReplies(table, p, Follower(c, NextOf(c, page)), max);
      (page.objects + rest.0, page.commons + rest.1)
    else (page.objects, page.commons)
  }

  /** The next request of either version resumes exactly behind the last key consumed. */
  lemma NextResumes(c: Cursor, page: Page)
    requires page.isTruncated && page.nextAfter != []
    ensures AfterOf(Follower(c, NextOf(c, page))) == Some(page.nextAfter)
  {
    hide Encode, Decode;
    TokenBack(page.nextAfter);
  }

  lemma {:induction false} RepliesFollow(table: seq<bytes>, p: Params, c: Cursor, max: nat)
    requires Ascending(table) && [] !in table && 0 < max && AfterOf(c).Some?
    ensures FollowReplies(table, p, c, max) == Follow(table, p, AfterOf(c).value, max)
    decreases |Query(table, p, AfterOf(c).value)|
  {
    hide Encode, Decode, Query, PageOf, AfterOf, NextOf, Follower, Ascending, AllValid;
    var after := AfterOf(c).value;
    QueryValid(table, p, after);
    PageAdvances(table, p, after, max);
    var page := PageOf(p, Query(table, p, after), max);
    if page.isTruncated {
      NextResumes(c, page);
      RepliesFollow(table, p, Follower(c, NextOf(c, page)), max);
    }
  }

  /** Either version of the request, repeated until nothing is left, lists exactly the one-shot listing. */
  lemma RepliesListAll(table: seq<bytes>, p: Params, c: Cursor, max: nat)
    requires Ascending(table) && [] !in table && 0 < max && AfterOf(c).Some?
    ensures AllValid(p, Query(table, p, AfterOf(c).value))
    ensures
      var items := Items(p, Query(table, p, AfterOf(c).value));
      FollowReplies(table, p, c, max) == (Objects(items), Commons(items))
  {
    hide Query, FollowReplies, Follow, Items, Objects, Commons, AfterOf, Ascending, AllValid;
    RepliesFollow(table, p, c, max);
    PagesConcatenate(table, p, AfterOf(c).value, max);
  }
}

/**
 * facebook_graph.py: how the Graph API client shapes its requests and turns the `data`
 * items of a response into `FacebookPost` and `FacebookComment` records. The HTTP
 * exchange itself is not modelled: a response reaches these members as a value.
 */
module Graph {
  import opened Wrappers
  import opened Text
  import opened Decimal

  // ---------------------------------------------------------------------------
  // Response items, as far as the client reads them. A key that is absent or
  // JSON null is None.
  // ---------------------------------------------------------------------------

  datatype RawPost = RawPost(id: Option<string>, permalinkUrl: Option<string>)

  datatype RawAuthor = RawAuthor(id: Option<string>, name: Option<string>)

  datatype RawParent = RawParent(id: Option<string>)

  datatype RawComment = RawComment(
    id: Option<string>,
    message: Option<string>,
    from: Option<RawAuthor>,
    createdTime: Option<string>,
    permalinkUrl: Option<string>,
    parent: Option<RawParent>)

  /** What `get_comment` reads back about a posted reply. */
  datatype StoredComment = StoredComment(message: Option<string>, isHidden: Option<bool>, isPrivate: Option<bool>)

  datatype FacebookPost = FacebookPost(id: string, permalinkUrl: Option<string>)

  /** `id` is whatever the item carried, possibly None. */
  datatype FacebookComment = FacebookComment(
    id: Option<string>,
    message: string,
    fromId: Option<string>,
    fromName: Option<string>,
    createdTime: Option<string>,
    postId: Option<string>,
    permalinkUrl: Option<string>)

  /** Python truthiness of an optional string: present and non-empty. */
  predicate Truthy(v: Option<string>) {
    v.Some? && v.value != []
  }

  /** `data.get("data", []) or []`: a missing or null list is the empty list. */
  function ItemsOf<T>(data: Option<seq<T>>): seq<T> {
    data.GetOr([])
  }

  /**
   * The loops below share one shape: walk the items in order and emit `shape(item)`
   * for each item that passes `keep`.
   */
  function Select<T, U>(items: seq<T>, keep: T -> bool, shape: T -> U): (r: seq<U>)
    ensures |r| <= |items|
  {
    if items == [] then []
    else
      var last := items[|items| - 1];
      Select(items[..|items| - 1], keep, shape) + (if keep(last) then [shape(last)] else [])
  }

  lemma {:induction false} SelectAppend<T, U>(a: seq<T>, b: seq<T>, keep: T -> bool, shape: T -> U)
    ensures Select(a + b, keep, shape) == Select(a, keep, shape) + Select(b, keep, shape)
    decreases |b|
  {
    if b == [] {
      assert a + b == a;
    } else {
      var b' := b[..|b| - 1];
      assert (a + b)[..|a + b| - 1] == a + b';
      SelectAppend(a, b', keep, shape);
    }
  }

  lemma {:induction false} SelectMembers<T, U>(items: seq<T>, keep: T -> bool, shape: T -> U, u: U)
    ensures u in Select(items, keep, shape) <==> exists k :: 0 <= k < |items| && keep(items[k]) && shape(items[k]) == u
  {
    if items != [] {
      var init := items[..|items| - 1];
      SelectMembers(init, keep, shape, u);
      if exists k :: 0 <= k < |items| && keep(items[k]) && shape(items[k]) == u {
        var k :| 0 <= k < |items| && keep(items[k]) && shape(items[k]) == u;
        if k < |init| {
          assert init[k] == items[k];
        }
      }
      if exists k :: 0 <= k < |init| && keep(init[k]) && shape(init[k]) == u {
        var k :| 0 <= k < |init| && keep(init[k]) && shape(init[k]) == u;
        assert items[k] == init[k];
      }
    }
  }

  /** Every emitted value is the shape of a kept item. */
  lemma {:induction false} SelectAll<T, U>(items: seq<T>, keep: T -> bool, shape: T -> U, good: U -> bool)
    requires forall k :: 0 <= k < |items| && keep(items[k]) ==> good(shape(items[k]))
    ensures forall k :: 0 <= k < |Select(items, keep, shape)| ==> good(Select(items, keep, shape)[k])
  {
    if items != [] {
      SelectAll(items[..|items| - 1], keep, shape, good);
    }
  }

  /**
   * Filtering before shaping: selecting by `both` is selecting by `k2` first and then
   * by `k1`, when `both` is their conjunction.
   */
  lemma {:induction false} SelectFiltered<T, U>(items: seq<T>, both: T -> bool, k1: T -> bool, k2: T -> bool, shape: T -> U)
    requires forall x :: both(x) == (k1(x) && k2(x))
    ensures Select(items, both, shape) == Select(Select(items, k2, Id), k1, shape)
  {
    if items != [] {
      var init := items[..|items| - 1];
      var last := items[|items| - 1];
      SelectFiltered(init, both, k1, k2, shape);
      var tail: seq<T> := if k2(last) then [last] else [];
      SelectAppend(Select(init, k2, Id), tail, k1, shape);
      if tail != [] {
        assert tail[..0] == [];
      }
    }
  }

  function Id<T>(x: T): T {
    x
  }

  // ---------------------------------------------------------------------------
  // get_recent_posts
  // ---------------------------------------------------------------------------

  /** An item makes a post when its id is truthy. */
  predicate HasPostId(item: RawPost) {
    Truthy(item.id)
  }

  function PostOf(item: RawPost): FacebookPost {
    FacebookPost(item.id.GetOr([]), item.permalinkUrl)
  }

  /** The posts of a feed response, in response order. */
  function PostsOf(items: seq<RawPost>): seq<FacebookPost> {
    Select(items, HasPostId, PostOf)
  }

  /** The loop at lines 51-57, over the items of the decoded response. */
  method GetRecentPosts(data: Option<seq<RawPost>>) returns (posts: seq<FacebookPost>)
    ensures posts == PostsOf(ItemsOf(data))
  {
    var items := ItemsOf(data);
    posts := [];
    var i := 0;
    while i < |items|
      invariant 0 <= i <= |items|
      invariant posts == PostsOf(items[..i])
    {
      var item := items[i];
      assert items[..i + 1][..i] == items[..i];
      i := i + 1;
      if !Truthy(item.id) {
        continue;
      }
      posts := posts + [FacebookPost(item.id.value, item.permalinkUrl)];
    }
    assert items[..i] == items;
  }

  lemma PostsOfAppend(a: seq<RawPost>, b: seq<RawPost>)
    ensures PostsOf(a + b) == PostsOf(a) + PostsOf(b)
  {
    SelectAppend(a, b, HasPostId, PostOf);
  }

  /**
   * A post is returned exactly when some item carries its id, which is non-empty,
   * together with its permalink.
   */
  lemma PostsOfMembers(items: seq<RawPost>, p: FacebookPost)
    ensures p in PostsOf(items) <==>
              p.id != [] && exists k :: 0 <= k < |items| && items[k] == RawPost(Some(p.id), p.permalinkUrl)
  {
    SelectMembers(items, HasPostId, PostOf, p);
    if p in PostsOf(items) {
      var k :| 0 <= k < |items| && HasPostId(items[k]) && PostOf(items[k]) == p;
      assert items[k] == RawPost(Some(p.id), p.permalinkUrl);
    }
    if p.id != [] && exists k :: 0 <= k < |items| && items[k] == RawPost(Some(p.id), p.permalinkUrl) {
      var k :| 0 <= k < |items| && items[k] == RawPost(Some(p.id), p.permalinkUrl);
      assert HasPostId(items[k]) && PostOf(items[k]) == p;
    }
  }

  predicate HasId(p: FacebookPost) {
    p.id != []
  }

  /** Every returned post has a non-empty id, and there are never more posts than items. */
  lemma PostsOfIds(items: seq<RawPost>)
    ensures |PostsOf(items)| <= |items|
    ensures forall k :: 0 <= k < |PostsOf(items)| ==> PostsOf(items)[k].id != []
  {
    SelectAll(items, HasPostId, PostOf, HasId);
    assert forall k :: 0 <= k < |PostsOf(items)| ==> HasId(PostsOf(items)[k]);
  }

  // ---------------------------------------------------------------------------
  // iter_comments_for_post
  // ---------------------------------------------------------------------------

  /** `(item.get("message") or "").strip()`. */
  function MessageOf(item: RawComment): (r: string)
    ensures r == [] || (!IsSpace(r[0]) && !IsSpace(r[|r| - 1]))
  {
    Strip(item.message.GetOr([]))
  }

  /** A reply to another comment: its `parent.id` is truthy. */
  predicate IsNested(item: RawComment) {
    item.parent.Some? && Truthy(item.parent.value.id)
  }

  predicate IsTopLevel(item: RawComment) {
    !IsNested(item)
  }

  /** Whether the loop yields for this item: a non-empty message, and nesting allowed or absent. */
  predicate Yields(item: RawComment, includeNested: bool) {
    MessageOf(item) != [] && (includeNested || !IsNested(item))
  }

  /** The record yielded for an item of the comments of `postId` (lines 77-95). */
  function CommentOf(postId: string, item: RawComment): (c: FacebookComment)
    ensures c.id == item.id && c.message == MessageOf(item) && c.postId == Some(postId)
    ensures item.from.None? ==> c.fromId.None? && c.fromName.None?
    ensures item.from.Some? ==> c.fromId == item.from.value.id && c.fromName == item.from.value.name
    ensures c.createdTime == item.createdTime && c.permalinkUrl == item.permalinkUrl
  {
    var author := item.from.GetOr(RawAuthor(None, None));
    FacebookComment(item.id, MessageOf(item), author.id, author.name, item.createdTime, Some(postId), item.permalinkUrl)
  }

  /** The comments the generator yields, in response order. */
  function CommentsOf(postId: string, items: seq<RawComment>, includeNested: bool): seq<FacebookComment> {
    Select(items, item => Yields(item, includeNested), item => CommentOf(postId, item))
  }

  /** The generator of lines 73-95, collected into a sequence. */
  method IterCommentsForPost(postId: string, data: Option<seq<RawComment>>, includeNested: bool)
    returns (comments: seq<FacebookComment>)
    ensures comments == CommentsOf(postId, ItemsOf(data), includeNested)
  {
    var items := ItemsOf(data);
    comments := [];
    var i := 0;
    while i < |items|
      invariant 0 <= i <= |items|
      invariant comments == CommentsOf(postId, items[..i], includeNested)
    {
      var item := items[i];
      assert items[..i + 1][..i] == items[..i];
      i := i + 1;
      var msg := Strip(item.message.GetOr([]));
      if msg == [] {
        continue;
      }
      var author := item.from.GetOr(RawAuthor(None, None));
      var parentId := if item.parent.Some? then item.parent.value.id else None;
      if !includeNested && Truthy(parentId) {
        continue;
      }
      comments := comments + [FacebookComment(item.id, msg, author.id, author.name, item.createdTime, Some(postId), item.permalinkUrl)];
    }
    assert items[..i] == items;
  }

  lemma CommentsOfAppend(postId: string, a: seq<RawComment>, b: seq<RawComment>, includeNested: bool)
    ensures CommentsOf(postId, a + b, includeNested) == CommentsOf(postId, a, includeNested) + CommentsOf(postId, b, includeNested)
  {
    SelectAppend(a, b, item => Yields(item, includeNested), item => CommentOf(postId, item));
  }

  /** A comment is yielded exactly when some item yields and shapes to it. */
  lemma CommentsOfMembers(postId: string, items: seq<RawComment>, includeNested: bool, c: FacebookComment)
    ensures c in CommentsOf(postId, items, includeNested) <==>
              exists k :: 0 <= k < |items| && Yields(items[k], includeNested) && CommentOf(postId, items[k]) == c
  {
    SelectMembers(items, item => Yields(item, includeNested), item => CommentOf(postId, item), c);
  }

  /** A yielded message is stripped and non-empty, and the post id is the argument. */
  predicate WellShaped(postId: string, c: FacebookComment) {
    && c.message != [] && !IsSpace(c.message[0]) && !IsSpace(c.message[|c.message| - 1])
    && c.postId == Some(postId)
  }

  lemma CommentsOfShape(postId: string, items: seq<RawComment>, includeNested: bool)
    ensures |CommentsOf(postId, items, includeNested)| <= |items|
    ensures forall k :: 0 <= k < |CommentsOf(postId, items, includeNested)| ==>
              WellShaped(postId, CommentsOf(postId, items, includeNested)[k])
  {
    SelectAll(items, item => Yields(item, includeNested), item => CommentOf(postId, item), c => WellShaped(postId, c));
  }

  /** The items without a truthy parent id, in order. */
  function TopLevel(items: seq<RawComment>): seq<RawComment> {
    Select(items, IsTopLevel, Id)
  }

  /**
   * Without nesting, the comments are those of the top-level items with nesting
   * included: nested items are dropped and nothing else is.
   */
  lemma TopLevelOnly(postId: string, items: seq<RawComment>)
    ensures CommentsOf(postId, items, false) == CommentsOf(postId, TopLevel(items), true)
  {
    SelectFiltered(items, item => Yields(item, false), item => Yields(item, true), IsTopLevel, item => CommentOf(postId, item));
  }

  // ---------------------------------------------------------------------------
  // Requests (the `_get`/`_post` helpers, lines 27-41, and the callers' parameters)
  // ---------------------------------------------------------------------------

  datatype Verb = Get | Post

  /** The query and form fields the client sends; `ParamName` gives each one's name on the wire. */
  datatype Param = Fields | Filter | Order | Limit | Message | IsHidden | AccessToken

  function ParamName(k: Param): string {
    match k
    case Fields => "fields"
    case Filter => "filter"
    case Order => "order"
    case Limit => "limit"
    case Message => "message"
    case IsHidden => "is_hidden"
    case AccessToken => "access_token"
  }

  /** Distinct fields go out under distinct names. */
  lemma ParamNamesDistinct(k: Param, l: Param)
    requires k != l
    ensures ParamName(k) != ParamName(l)
  {
    if |ParamName(k)| == |ParamName(l)| {
      assert ParamName(k)[0] != ParamName(l)[0] || ParamName(k)[2] != ParamName(l)[2];
    }
  }

  /** What goes over the wire: the verb, the full URL and the query or form fields. */
  datatype Request = Request(verb: Verb, url: string, params: map<Param, string>)

  /** The client's state, fixed at construction. */
  datatype Client = Client(accessToken: string, base: string)

  const GraphRoot: string := "https://graph.facebook.com/"

  /** `FacebookGraphClient(access_token, api_version)`. */
  function NewClient(accessToken: string, apiVersion: string): (c: Client)
    ensures c.accessToken == accessToken
    ensures c.base == GraphRoot + apiVersion
  {
    Client(accessToken, GraphRoot + apiVersion)
  }

  predicate IsSlash(c: char) {
    c == '/'
  }

  /** `f"{self.base}/{path.lstrip('/')}"`. */
  function Url(base: string, path: string): (r: string)
    ensures exists n :: 0 <= n <= |path| && r == base + "/" + path[n..]
                        && (forall i :: 0 <= i < n ==> path[i] == '/')
                        && (n == |path| || path[n] != '/')
  {
    var rest := TrimStart(path, IsSlash);
    assert base + "/" + path[|path| - |rest|..] == base + "/" + rest;
    base + "/" + rest
  }

  /** Leading slashes on the path do not change the URL. */
  lemma UrlIgnoresLeadingSlash(base: string, path: string)
    ensures Url(base, "/" + path) == Url(base, path)
  {
    assert ("/" + path)[1..] == path;
  }

  /** A path that does not start with '/' is appended after exactly one '/'. */
  lemma UrlOfPlainPath(base: string, path: string)
    requires path == [] || path[0] != '/'
    ensures Url(base, path) == base + "/" + path
  {
  }

  /**
   * `{**params, "access_token": token}`: the client's token is sent whatever the caller
   * passed under that key; every other field is the caller's.
   */
  function WithToken(params: map<Param, string>, token: string): (r: map<Param, string>)
    ensures r.Keys == params.Keys + {AccessToken}
    ensures r[AccessToken] == token
    ensures forall k :: k in params && k != AccessToken ==> r[k] == params[k]
  {
    params[AccessToken := token]
  }

  /** `_get` / `_post` as the request they send. */
  function Call(client: Client, verb: Verb, path: string, params: map<Param, string>): (r: Request)
    ensures r.verb == verb
    ensures r.url == Url(client.base, path)
    ensures r.params == WithToken(params, client.accessToken)
    ensures AccessToken in r.params && r.params[AccessToken] == client.accessToken
    ensures client.base + "/" <= r.url
  {
    var rest := TrimStart(path, IsSlash);
    assert Url(client.base, path) == client.base + "/" + rest;
    Request(verb, Url(client.base, path), WithToken(params, client.accessToken))
  }

  /** The `fields` each request asks for. */
  const FeedFields: string := "id,permalink_url"
  const CommentFields: string := "id,message,from,created_time,permalink_url,parent"
  const StoredCommentFields: string := "id,message,from,created_time,permalink_url,is_hidden,is_private,parent"

  /** `get_recent_posts`: the page feed, asking for ids and permalinks. */
  function FeedRequest(client: Client, pageId: string, limit: int): (r: Request)
    ensures r.verb == Get && r.url == Url(client.base, pageId + "/feed")
    ensures r.params.Keys == {Fields, Limit, AccessToken}
    ensures r.params[Fields] == FeedFields && r.params[AccessToken] == client.accessToken
  {
    Call(client, Get, pageId + "/feed", map[Fields := FeedFields, Limit := IntToDecimal(limit)])
  }

  /** `iter_comments_for_post`: the post's comments as a stream, oldest first. */
  function CommentsRequest(client: Client, postId: string, limit: int): (r: Request)
    ensures r.verb == Get && r.url == Url(client.base, postId + "/comments")
    ensures r.params.Keys == {Fields, Filter, Order, Limit, AccessToken}
    ensures r.params[Fields] == CommentFields && r.params[AccessToken] == client.accessToken
    ensures r.params[Filter] == "stream" && r.params[Order] == "chronological"
  {
    Call(client, Get, postId + "/comments",
         map[Fields := CommentFields,
             Filter := "stream",
             Order := "chronological",
             Limit := IntToDecimal(limit)])
  }

  /** `reply_to_comment`: a comment on the comment, carrying the message unchanged. */
  function ReplyRequest(client: Client, commentId: string, message: string): (r: Request)
    ensures r.verb == Post && r.url == Url(client.base, commentId + "/comments")
    ensures r.params.Keys == {Message, AccessToken}
    ensures r.params[Message] == message && r.params[AccessToken] == client.accessToken
  {
    Call(client, Post, commentId + "/comments", map[Message := message])
  }

  /** `get_comment`: one comment with its visibility flags. */
  function GetCommentRequest(client: Client, commentId: string): (r: Request)
    ensures r.verb == Get && r.url == Url(client.base, commentId)
    ensures r.params.Keys == {Fields, AccessToken}
    ensures r.params[Fields] == StoredCommentFields && r.params[AccessToken] == client.accessToken
  {
    var params := map[Fields := StoredCommentFields];
    assert params.Keys == {Fields};
    Call(client, Get, commentId, params)
  }

  /** `set_comment_hidden`: the flag, as text, posted to the comment itself. */
  function SetHiddenRequest(client: Client, commentId: string, isHidden: bool): (r: Request)
    ensures r.verb == Post && r.url == Url(client.base, commentId)
    ensures r.params.Keys == {IsHidden, AccessToken}
    ensures r.params[IsHidden] == HiddenFlag(isHidden) && r.params[AccessToken] == client.accessToken
  {
    var params := map[IsHidden := HiddenFlag(isHidden)];
    assert params.Keys == {IsHidden};
    Call(client, Post, commentId, params)
  }

  /** The form value `set_comment_hidden` sends for its flag. */
  function HiddenFlag(isHidden: bool): (r: string)
    ensures r == "true" <==> isHidden
    ensures r == "false" <==> !isHidden
  {
    if isHidden then "true" else "false"
  }

  /**
   * `int(limit)` on the server side gets back the limit the caller asked for, for every
   * limit `str()` can write.
   */
  lemma LimitRoundTrip(client: Client, pageId: string, postId: string, limit: int)
    requires WithinStrLimit(limit)
    ensures ParseInt(FeedRequest(client, pageId, limit).params[Limit]) == Some(limit)
    ensures ParseInt(CommentsRequest(client, postId, limit).params[Limit]) == Some(limit)
  {
    IntToDecimalRoundTrip(limit);
  }
}

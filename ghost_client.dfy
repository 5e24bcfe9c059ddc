/**
 * The content-API client of src/api/ghost.ts: the configuration check done at module load,
 * `buildUrl`, and the five fetch operations. The network and the JSON parser are an input:
 * each operation is given `server`, the response the backend returns for a request URL.
 */
module GhostClient {
  import opened Wrappers
  import opened Types
  import opened SearchParams
  import opened Sequences

  // ---------------------------------------------------------------------------------------
  // Configuration (read once, at module load)

  datatype Config = Config(apiUrl: string, contentKey: string)

  datatype ConfigError = MissingConfiguration

  /** Both values are set and non-empty; no request is built under any other configuration. */
  predicate ValidConfig(cfg: Config) {
    cfg.apiUrl != "" && cfg.contentKey != ""
  }

  /**
   * The module-load check: `process.env.GHOST_API_URL || ""` and `process.env.GHOST_ADMIN_API_KEY || ""`
   * (the content key is read from the admin-key variable), then a fatal error when either is empty.
   */
  function LoadConfig(envApiUrl: Option<string>, envAdminKey: Option<string>): (r: Result<Config, ConfigError>)
    ensures r.Ok? <==> Truthy(envApiUrl) && Truthy(envAdminKey)
    ensures r.Ok? ==> ValidConfig(r.value)
    ensures r.Ok? ==> r.value.apiUrl == envApiUrl.value && r.value.contentKey == envAdminKey.value
  {
    var apiUrl := if envApiUrl.Some? then envApiUrl.value else "";
    var key := if envAdminKey.Some? then envAdminKey.value else "";
    if apiUrl == "" || key == "" then Err(MissingConfiguration) else Ok(Config(apiUrl, key))
  }

  // ---------------------------------------------------------------------------------------
  // buildUrl

  /** The three content-API resources the client requests. */
  datatype Endpoint = Posts | Pages | Tags

  function EndpointName(e: Endpoint): string {
    match e
    case Posts => "posts"
    case Pages => "pages"
    case Tags => "tags"
  }

  /** A request URL: everything before the `?`, and the query as a list of pairs. */
  datatype Url = Url(location: string, query: seq<Pair>)

  /** A caller parameter: an entry of the `params` record, in `Object.entries` order. */
  type Param = (string, ParamValue)

  /** The value the last caller parameter called `name` carries, if any. */
  function LastValue(params: seq<Param>, name: string): Option<ParamValue> {
    if params == [] then None
    else if params[|params| - 1].0 == name then Some(params[|params| - 1].1)
    else LastValue(params[..|params| - 1], name)
  }

  /** The query after `set("key", key)` and one `set(name, value.toString())` per caller parameter. */
  function Query(key: string, params: seq<Param>): seq<Pair> {
    if params == [] then [Pair("key", key)]
    else
      var last := params[|params| - 1];
      Set(Query(key, params[..|params| - 1]), last.0, Render(last.1))
  }

  /** What `get(name)` on the finished query yields: the caller's last value, else the key. */
  function ExpectedValue(key: string, params: seq<Param>, name: string): Option<string> {
    match LastValue(params, name)
    case Some(v) => Some(Render(v))
    case None => if name == "key" then Some(key) else None
  }

  /**
   * The query holds each name once; `key` is its first pair; every caller name is present with
   * the `toString()` of the caller's value; `key` carries the configured key unless the caller
   * passed a `key` entry, which then overwrote it in place; no other name is present.
   */
  lemma {:induction false} QueryProperties(key: string, params: seq<Param>)
    ensures var q := Query(key, params);
      && UniqueNames(q)
      && |q| >= 1 && q[0].name == "key"
      && forall name :: Get(q, name) == ExpectedValue(key, params, name)
  {
    var q := Query(key, params);
    if params == [] {
      assert Get(q, "key") == Some(key);
    } else {
      var init := params[..|params| - 1];
      var last := params[|params| - 1];
      var q0 := Query(key, init);
      QueryProperties(key, init);
      SetProperties(q0, last.0, Render(last.1));
      forall name ensures Get(q, name) == ExpectedValue(key, params, name) {
        if name != last.0 {
          assert LastValue(params, name) == LastValue(init, name);
        }
      }
    }
  }

  /** Caller names that are pairwise distinct and differ from `key`, as a literal record's are. */
  predicate FreshNames(params: seq<Param>) {
    && (forall i :: 0 <= i < |params| ==> params[i].0 != "key")
    && (forall i, j :: 0 <= i < j < |params| ==> params[i].0 != params[j].0)
  }

  /** The caller parameters as query pairs, in order. */
  function Rendered(params: seq<Param>): (r: seq<Pair>)
    ensures |r| == |params|
  {
    seq(|params|, i requires 0 <= i < |params| => Pair(params[i].0, Render(params[i].1)))
  }

  /** With fresh caller names, the last caller name is not among the pairs before it. */
  lemma FreshNameAbsent(key: string, params: seq<Param>)
    requires FreshNames(params) && params != []
    ensures var q0 := [Pair("key", key)] + Rendered(params[..|params| - 1]);
      forall i :: 0 <= i < |q0| ==> q0[i].name != params[|params| - 1].0
  {
    var init := params[..|params| - 1];
    var q0 := [Pair("key", key)] + Rendered(init);
    forall i | 0 <= i < |q0| ensures q0[i].name != params[|params| - 1].0 {
      if i > 0 {
        assert q0[i] == Rendered(init)[i - 1];
        assert q0[i].name == params[i - 1].0;
      }
    }
  }

  /** With fresh caller names, the query is `key` followed by every caller parameter in order. */
  lemma {:induction false} QueryOfFreshNames(key: string, params: seq<Param>)
    requires FreshNames(params)
    ensures Query(key, params) == [Pair("key", key)] + Rendered(params)
  {
    if params != [] {
      var init := params[..|params| - 1];
      var last := params[|params| - 1];
      assert FreshNames(init) by {
        assert forall i :: 0 <= i < |init| ==> init[i] == params[i];
      }
      QueryOfFreshNames(key, init);
      var q0 := [Pair("key", key)] + Rendered(init);
      assert Query(key, params) == Set(q0, last.0, Render(last.1));
      FreshNameAbsent(key, params);
      SetAppends(q0, last.0, Render(last.1));
      RenderedSnoc(params);
    }
  }

  lemma RenderedSnoc(params: seq<Param>)
    requires params != []
    ensures var last := params[|params| - 1];
      Rendered(params) == Rendered(params[..|params| - 1]) + [Pair(last.0, Render(last.1))]
  {
  }

  /** `${GHOST_API_URL}/ghost/api/content/${endpoint}/`. */
  function ContentLocation(apiUrl: string, endpoint: Endpoint): string {
    apiUrl + "/ghost/api/content/" + EndpointName(endpoint) + "/"
  }

  /**
   * The URL `buildUrl(endpoint, params)` returns under configuration `cfg`: the endpoint's
   * location, the key first, every name once, each with the value the caller set last.
   */
  function RequestUrl(cfg: Config, endpoint: Endpoint, params: seq<Param>): (url: Url)
    ensures url.location == cfg.apiUrl + "/ghost/api/content/" + EndpointName(endpoint) + "/"
    ensures UniqueNames(url.query) && |url.query| >= 1 && url.query[0].name == "key"
    ensures forall name :: Get(url.query, name) == ExpectedValue(cfg.contentKey, params, name)
  {
    QueryProperties(cfg.contentKey, params);
    Url(ContentLocation(cfg.apiUrl, endpoint), Query(cfg.contentKey, params))
  }

  /** `buildUrl`: sets `key`, then sets each caller parameter in turn. */
  method BuildUrl(cfg: Config, endpoint: Endpoint, params: seq<Param>) returns (url: Url)
    ensures url.location == cfg.apiUrl + "/ghost/api/content/" + EndpointName(endpoint) + "/"
    ensures url == RequestUrl(cfg, endpoint, params)
    ensures UniqueNames(url.query) && url.query[0].name == "key"
    ensures forall name :: Get(url.query, name) == ExpectedValue(cfg.contentKey, params, name)
  {
    var query := [Pair("key", cfg.contentKey)];
    var i := 0;
    while i < |params|
      invariant 0 <= i <= |params|
      invariant query == Query(cfg.contentKey, params[..i])
    {
      assert params[..i + 1][..i] == params[..i];
      query := Set(query, params[i].0, Render(params[i].1));
      i := i + 1;
    }
    assert params[..i] == params;
    url := Url(ContentLocation(cfg.apiUrl, endpoint), query);
    QueryProperties(cfg.contentKey, params);
  }

  // ---------------------------------------------------------------------------------------
  // Responses

  /** The field the operation reads from the JSON body (`data.posts`, `data.pages`, `data.tags`). */
  datatype Body<T> =
    | Malformed          // the body is not JSON, or the field is absent
    | NotArray           // the field holds something other than an array
    | Items(items: seq<T>)

  datatype Response<T> = NetworkError | Http(ok: bool, body: Body<T>)

  /** A response from which the operation reads an array: ok status and an array field. */
  predicate Delivered<T>(resp: Response<T>) {
    resp.Http? && resp.ok && resp.body.Items?
  }

  // ---------------------------------------------------------------------------------------
  // Visibility filtering

  /** `posts.filter(post => !post.tags?.some(tag => tag.visibility === "internal"))`. */
  function PublicPosts(posts: seq<Post>): (r: seq<Post>)
    ensures forall p :: p in r <==> p in posts && !HasInternalTag(p)
    ensures IsSubsequence(r, posts) && |r| <= |posts|
  {
    if posts == [] then []
    else
      var init := posts[..|posts| - 1];
      var last := posts[|posts| - 1];
      assert posts == init + [last];
      var rest := PublicPosts(init);
      if HasInternalTag(last) then
        SubsequenceExtend(rest, init, last);
        rest
      else
        SubsequenceSnoc(rest, init, last);
        rest + [last]
  }

  /** Filtering the filtered posts again changes nothing. */
  lemma {:induction false} PublicPostsIdempotent(posts: seq<Post>)
    ensures PublicPosts(PublicPosts(posts)) == PublicPosts(posts)
  {
    if posts != [] {
      var init := posts[..|posts| - 1];
      var last := posts[|posts| - 1];
      var rest := PublicPosts(init);
      PublicPostsIdempotent(init);
      if !HasInternalTag(last) {
        assert (rest + [last])[..|rest|] == rest;
      }
    }
  }

  /** Each post is kept as often as it occurs, unless it carries an internal tag. */
  lemma {:induction false} PublicPostsCount(posts: seq<Post>, p: Post)
    ensures multiset(PublicPosts(posts))[p] == if HasInternalTag(p) then 0 else multiset(posts)[p]
  {
    if posts != [] {
      var init := posts[..|posts| - 1];
      assert posts == init + [posts[|posts| - 1]];
      PublicPostsCount(init, p);
    }
  }

  /** `tags.filter(tag => tag?.visibility !== "internal")`. */
  function PublicTags(tags: seq<Tag>): (r: seq<Tag>)
    ensures forall t :: t in r <==> t in tags && t.visibility != Internal
    ensures IsSubsequence(r, tags)
  {
    if tags == [] then []
    else
      var init := tags[..|tags| - 1];
      var last := tags[|tags| - 1];
      assert tags == init + [last];
      var rest := PublicTags(init);
      if last.visibility == Internal then
        SubsequenceExtend(rest, init, last);
        rest
      else
        SubsequenceSnoc(rest, init, last);
        rest + [last]
  }

  /** Each tag is kept as often as it occurs, unless it is internal. */
  lemma {:induction false} PublicTagsCount(tags: seq<Tag>, t: Tag)
    ensures multiset(PublicTags(tags))[t] == if t.visibility == Internal then 0 else multiset(tags)[t]
  {
    if tags != [] {
      var init := tags[..|tags| - 1];
      assert tags == init + [tags[|tags| - 1]];
      PublicTagsCount(init, t);
    }
  }

  /** Filtering the filtered tags again changes nothing. */
  lemma {:induction false} PublicTagsIdempotent(tags: seq<Tag>)
    ensures PublicTags(PublicTags(tags)) == PublicTags(tags)
  {
    if tags != [] {
      var init := tags[..|tags| - 1];
      var last := tags[|tags| - 1];
      var rest := PublicTags(init);
      PublicTagsIdempotent(init);
      if last.visibility != Internal {
        assert (rest + [last])[..|rest|] == rest;
      }
    }
  }

  // ---------------------------------------------------------------------------------------
  // The fetch operations. Every failure (network error, non-ok status, malformed body) is
  // caught inside the operation and turned into [] or null.

  function PostsParams(limit: int): seq<Param> {
    [("limit", Number(limit)), ("include", Text("tags,authors"))]
  }

  function PostBySlugParams(slug: string): seq<Param> {
    [("filter", Text("slug:" + slug)), ("include", Text("tags,authors,primary_author"))]
  }

  function PageBySlugParams(slug: string): seq<Param> {
    [("filter", Text("slug:" + slug)), ("include", Text("authors"))]
  }

  function PostsByTagParams(tagSlug: string, limit: int): seq<Param> {
    [("filter", Text("tag:" + tagSlug)), ("limit", Number(limit)), ("include", Text("tags,authors"))]
  }

  function TagsParams(): seq<Param> {
    [("include", Text("count.posts")), ("limit", Text("all"))]
  }

  /**
   * `getGhostPosts(limit)` (callers use 5, the default, or 100): the posts without an internal
   * tag, in backend order; [] on any failure.
   */
  function GetGhostPosts(cfg: Config, limit: int, server: Url -> Response<Post>): (r: seq<Post>)
    requires ValidConfig(cfg)
    ensures forall p :: p in r ==> !HasInternalTag(p)
    ensures var resp := server(RequestUrl(cfg, Posts, PostsParams(limit)));
      && (!Delivered(resp) ==> r == [])
      && (Delivered(resp) ==>
            && r == PublicPosts(resp.body.items)
            && IsSubsequence(r, resp.body.items)
            && forall p :: p in resp.body.items && !HasInternalTag(p) ==> p in r)
  {
    var resp := server(RequestUrl(cfg, Posts, PostsParams(limit)));
    if Delivered(resp) then PublicPosts(resp.body.items) else []
  }

  /** The client does not truncate: it stays within `limit` only when the backend does. */
  lemma GetGhostPostsWithinLimit(cfg: Config, limit: int, server: Url -> Response<Post>)
    requires ValidConfig(cfg)
    requires var resp := server(RequestUrl(cfg, Posts, PostsParams(limit)));
      Delivered(resp) ==> |resp.body.items| <= limit
    ensures |GetGhostPosts(cfg, limit, server)| <= limit || GetGhostPosts(cfg, limit, server) == []
  {
  }

  /** The first element of the array field, or null on failure or an empty array. */
  function FirstOrNull<T>(resp: Response<T>): (r: Option<T>)
    ensures r.Some? <==> Delivered(resp) && resp.body.items != []
    ensures r.Some? ==> r.value == resp.body.items[0]
  {
    if Delivered(resp) && |resp.body.items| > 0 then Some(resp.body.items[0]) else None
  }

  /** `getGhostPostBySlug(slug)`. */
  function GetGhostPostBySlug(cfg: Config, slug: string, server: Url -> Response<Post>): (r: Option<Post>)
    requires ValidConfig(cfg)
    ensures var resp := server(RequestUrl(cfg, Posts, PostBySlugParams(slug)));
      && (r.Some? <==> Delivered(resp) && resp.body.items != [])
      && (r.Some? ==> r.value == resp.body.items[0])
  {
    FirstOrNull(server(RequestUrl(cfg, Posts, PostBySlugParams(slug))))
  }

  /** `getGhostPageBySlug(slug)`, against the `pages` resource. */
  function GetGhostPageBySlug(cfg: Config, slug: string, server: Url -> Response<Post>): (r: Option<Post>)
    requires ValidConfig(cfg)
    ensures var resp := server(RequestUrl(cfg, Pages, PageBySlugParams(slug)));
      && (r.Some? <==> Delivered(resp) && resp.body.items != [])
      && (r.Some? ==> r.value == resp.body.items[0])
  {
    FirstOrNull(server(RequestUrl(cfg, Pages, PageBySlugParams(slug))))
  }

  /**
   * The slug is not checked by the client: the result carries the requested slug whenever the
   * backend honours the `slug:` filter, and is null when the backend finds nothing.
   */
  lemma PostBySlugHonoursFilter(cfg: Config, slug: string, server: Url -> Response<Post>)
    requires ValidConfig(cfg)
    requires var resp := server(RequestUrl(cfg, Posts, PostBySlugParams(slug)));
      Delivered(resp) ==> forall p :: p in resp.body.items ==> p.slug == slug
    ensures var r := GetGhostPostBySlug(cfg, slug, server);
      r.Some? ==> r.value.slug == slug
  {
  }

  /** `getPostsByTagSlug(tagSlug, limit)`: the array as delivered, unfiltered and untruncated. */
  function GetPostsByTagSlug(cfg: Config, tagSlug: string, limit: int, server: Url -> Response<Post>): (r: seq<Post>)
    requires ValidConfig(cfg)
    ensures var resp := server(RequestUrl(cfg, Posts, PostsByTagParams(tagSlug, limit)));
      && (Delivered(resp) ==> r == resp.body.items)
      && (!Delivered(resp) ==> r == [])
  {
    var resp := server(RequestUrl(cfg, Posts, PostsByTagParams(tagSlug, limit)));
    if Delivered(resp) then resp.body.items else []
  }

  /** `getGhostTags()`: the tags that are not internal, in backend order; [] on any failure. */
  function GetGhostTags(cfg: Config, server: Url -> Response<Tag>): (r: seq<Tag>)
    requires ValidConfig(cfg)
    ensures forall t :: t in r ==> t.visibility == Public
    ensures var resp := server(RequestUrl(cfg, Tags, TagsParams()));
      && (!Delivered(resp) ==> r == [])
      && (Delivered(resp) ==>
            && r == PublicTags(resp.body.items)
            && IsSubsequence(r, resp.body.items)
            && forall t :: t in resp.body.items && t.visibility == Public ==> t in r)
  {
    var resp := server(RequestUrl(cfg, Tags, TagsParams()));
    if Delivered(resp) then PublicTags(resp.body.items) else []
  }

  // ---------------------------------------------------------------------------------------
  // What each operation asks for

  /** `getGhostPosts` asks for the key, the limit in decimal and the embedded tags and authors. */
  lemma PostsQuery(cfg: Config, limit: int)
    ensures RequestUrl(cfg, Posts, PostsParams(limit)).query
      == [Pair("key", cfg.contentKey), Pair("limit", DecimalString(limit)), Pair("include", "tags,authors")]
  {
    var ps := PostsParams(limit);
    assert FreshNames(ps);
    QueryOfFreshNames(cfg.contentKey, ps);
    assert Rendered(ps) == [Pair("limit", DecimalString(limit)), Pair("include", "tags,authors")];
  }

  /** `getGhostPostBySlug` asks for the key and the exact-slug filter. */
  lemma PostBySlugQuery(cfg: Config, slug: string)
    ensures RequestUrl(cfg, Posts, PostBySlugParams(slug)).query
      == [Pair("key", cfg.contentKey), Pair("filter", "slug:" + slug), Pair("include", "tags,authors,primary_author")]
  {
    var ps := PostBySlugParams(slug);
    assert FreshNames(ps);
    QueryOfFreshNames(cfg.contentKey, ps);
    assert Rendered(ps) == [Pair("filter", "slug:" + slug), Pair("include", "tags,authors,primary_author")];
  }

  /** `getGhostPageBySlug` asks the `pages` resource for the key and the exact-slug filter. */
  lemma PageBySlugQuery(cfg: Config, slug: string)
    ensures RequestUrl(cfg, Pages, PageBySlugParams(slug)).query
      == [Pair("key", cfg.contentKey), Pair("filter", "slug:" + slug), Pair("include", "authors")]
  {
    var ps := PageBySlugParams(slug);
    assert FreshNames(ps);
    QueryOfFreshNames(cfg.contentKey, ps);
    assert Rendered(ps) == [Pair("filter", "slug:" + slug), Pair("include", "authors")];
  }

  /** `getPostsByTagSlug` asks for the key, the tag filter and the limit in decimal. */
  lemma PostsByTagQuery(cfg: Config, tagSlug: string, limit: int)
    ensures RequestUrl(cfg, Posts, PostsByTagParams(tagSlug, limit)).query
      == [Pair("key", cfg.contentKey), Pair("filter", "tag:" + tagSlug), Pair("limit", DecimalString(limit)),
          Pair("include", "tags,authors")]
  {
    var ps := PostsByTagParams(tagSlug, limit);
    assert FreshNames(ps);
    QueryOfFreshNames(cfg.contentKey, ps);
    assert Rendered(ps) == [Pair("filter", "tag:" + tagSlug), Pair("limit", DecimalString(limit)),
                            Pair("include", "tags,authors")];
  }

  /** `getGhostTags` asks for the key, the post counts and `limit=all`. */
  lemma TagsQuery(cfg: Config)
    ensures RequestUrl(cfg, Tags, TagsParams()).query
      == [Pair("key", cfg.contentKey), Pair("include", "count.posts"), Pair("limit", "all")]
  {
    var ps := TagsParams();
    assert FreshNames(ps);
    QueryOfFreshNames(cfg.contentKey, ps);
    assert Rendered(ps) == [Pair("include", "count.posts"), Pair("limit", "all")];
  }

  // ---------------------------------------------------------------------------------------
  // A backend with one public and one internal post

  function SamplePost(slug: string, tags: seq<Tag>): Post {
    Post(slug, slug, slug, None, None, None, None, "2025-01-01T00:00:00.000Z", "", None, Some(tags))
  }

  /**
   * A backend holding "race-day" tagged only with a public "news" tag and a post tagged only
   * with an internal tag: the listing holds "race-day" alone, even though the backend's array
   * had two posts.
   */
  lemma RaceDayScenario(cfg: Config, limit: int)
    requires ValidConfig(cfg)
    ensures var news := Tag("t1", "News", "news", None, None, Public);
      var hidden := Tag("t2", "Hidden", "hidden", None, None, Internal);
      var raceDay := SamplePost("race-day", [news]);
      var other := SamplePost("internal-note", [hidden]);
      GetGhostPosts(cfg, limit, _ => Http(true, Items([raceDay, other]))) == [raceDay]
  {
    var news := Tag("t1", "News", "news", None, None, Public);
    var hidden := Tag("t2", "Hidden", "hidden", None, None, Internal);
    var raceDay := SamplePost("race-day", [news]);
    var other := SamplePost("internal-note", [hidden]);
    assert TagsOf(other)[0].visibility == Internal;
    assert [raceDay, other][..1] == [raceDay];
    assert [raceDay][..0] == [];
  }
}

/**
 * The archive page (src/app/archive/page.tsx): posts grouped by the year they were published,
 * the years listed newest first. The calendar year of a timestamp, `new Date(s).getFullYear()`,
 * depends on the local time zone and is a parameter, `yearOf`.
 */
module Archive {
  import opened Types
  import opened Sequences
  import opened Grouping
  import GhostClient

  /** One (year, post) entry per post, in input order. */
  function YearEntries(posts: seq<Post>, yearOf: string -> int): (r: seq<(int, Post)>)
    ensures |r| == |posts|
  {
    seq(|posts|, i requires 0 <= i < |posts| => (yearOf(posts[i].published_at), posts[i]))
  }

  /** The entries list the posts themselves, in order. */
  lemma YearEntriesValues(posts: seq<Post>, yearOf: string -> int)
    ensures Values(YearEntries(posts, yearOf)) == posts
  {
  }

  /** A (year, post) entry occurs as often as the post does, if that is the post's year. */
  lemma {:induction false} YearEntriesCount(posts: seq<Post>, yearOf: string -> int, y: int, p: Post)
    ensures multiset(YearEntries(posts, yearOf))[(y, p)]
      == if yearOf(p.published_at) == y then multiset(posts)[p] else 0
  {
    if posts != [] {
      var init := posts[..|posts| - 1];
      var last := posts[|posts| - 1];
      YearEntriesCount(init, yearOf, y, p);
      assert posts == init + [last];
      assert YearEntries(posts, yearOf) == YearEntries(init, yearOf) + [(yearOf(last.published_at), last)];
    }
  }

  /**
   * The grouping files every post exactly once, under its own year: a group holds each post of
   * its year as often as the input does, and no post of another year; no group is empty; the
   * keys are exactly the years of the posts; each group keeps the input order.
   */
  lemma YearGroupsProperties(posts: seq<Post>, yearOf: string -> int)
    ensures var groups := Groups(YearEntries(posts, yearOf));
      && (forall p :: p in posts ==> yearOf(p.published_at) in groups)
      && (forall y :: y in groups ==> groups[y] != [] && IsSubsequence(groups[y], posts))
      && (forall y, p :: y in groups ==>
            multiset(groups[y])[p] == if yearOf(p.published_at) == y then multiset(posts)[p] else 0)
  {
    var entries := YearEntries(posts, yearOf);
    var groups := Groups(entries);
    forall p | p in posts ensures yearOf(p.published_at) in groups {
      YearGroupCount(posts, yearOf, yearOf(p.published_at), p);
    }
    YearEntriesValues(posts, yearOf);
    forall y | y in groups ensures groups[y] != [] && IsSubsequence(groups[y], posts) {
      BucketEmpty(entries, y);
      BucketOrder(entries, y);
    }
    forall y: int, p: Post | y in groups
      ensures multiset(groups[y])[p] == if yearOf(p.published_at) == y then multiset(posts)[p] else 0
    {
      YearGroupCount(posts, yearOf, y, p);
    }
  }

  /** One year and one post: the post's multiplicity under that year, and that the year is a key. */
  lemma YearGroupCount(posts: seq<Post>, yearOf: string -> int, y: int, p: Post)
    ensures var entries := YearEntries(posts, yearOf);
      && multiset(Bucket(entries, y))[p] == (if yearOf(p.published_at) == y then multiset(posts)[p] else 0)
      && (p in posts && yearOf(p.published_at) == y ==> y in Groups(entries))
  {
    var entries := YearEntries(posts, yearOf);
    YearEntriesCount(posts, yearOf, y, p);
    BucketCount(entries, y, p);
    BucketEmpty(entries, y);
  }

  /**
   * `groupPostsByYear`: `reduce` over the posts into a record, creating a year's array when it
   * is missing and pushing the post onto it.
   */
  method GroupPostsByYear(posts: seq<Post>, yearOf: string -> int) returns (groups: map<int, seq<Post>>)
    ensures groups == Groups(YearEntries(posts, yearOf))
    ensures posts == [] ==> groups == map[]
    ensures forall y :: y in groups <==> exists p :: p in posts && yearOf(p.published_at) == y
    ensures forall y :: y in groups ==> groups[y] != [] && IsSubsequence(groups[y], posts)
  {
    groups := map[];
    for i := 0 to |posts|
      invariant groups == Groups(YearEntries(posts[..i], yearOf))
    {
      var post := posts[i];
      var year := yearOf(post.published_at);
      ghost var entries := YearEntries(posts[..i], yearOf);
      GroupsSnoc(entries, (year, post));
      if year !in groups {
        groups := groups[year := []];
      }
      groups := groups[year := groups[year] + [post]];
      assert YearEntries(posts[..i + 1], yearOf) == entries + [(year, post)];
    }
    assert posts[..|posts|] == posts;
    YearGroupsProperties(posts, yearOf);
    forall y | y in groups ensures exists p :: p in posts && yearOf(p.published_at) == y {
      YearGroupMember(posts, yearOf, y, groups[y][0]);
    }
  }

  // ---------------------------------------------------------------------------------------
  // Rendering: `Object.keys(groups).sort((a, b) => Number(b) - Number(a))`

  /** Strictly decreasing, hence without repeats. */
  predicate StrictlyDescending(ys: seq<int>) {
    forall i, j :: 0 <= i < j < |ys| ==> ys[i] > ys[j]
  }

  /** Puts `y` in its place in a strictly descending list, unless it is already there. */
  function InsertDescending(y: int, ys: seq<int>): (r: seq<int>)
    requires StrictlyDescending(ys)
    ensures StrictlyDescending(r)
    ensures forall z :: z in r <==> z == y || z in ys
  {
    if ys == [] then [y]
    else if y > ys[0] then [y] + ys
    else if y == ys[0] then ys
    else
      assert forall k :: 0 <= k < |ys[1..]| ==> ys[1..][k] == ys[k + 1];
      var rest := InsertDescending(y, ys[1..]);
      assert forall k :: 0 <= k < |rest| ==> rest[k] < ys[0] by {
        forall k | 0 <= k < |rest| ensures rest[k] < ys[0] {
          assert rest[k] in rest;
        }
      }
      [ys[0]] + rest
  }

  /** The distinct years of the entries, newest first. */
  function YearsDescending(entries: seq<(int, Post)>): (r: seq<int>)
    ensures StrictlyDescending(r)
    ensures forall y :: y in r <==> y in KeySet(entries)
  {
    if entries == [] then []
    else InsertDescending(entries[|entries| - 1].0, YearsDescending(entries[..|entries| - 1]))
  }

  /**
   * The archive page lists its sections newest year first, one per group key, and reading the
   * sections one after the other lists every post exactly as often as it was fetched.
   */
  lemma ArchiveListsEveryPostOnce(posts: seq<Post>, yearOf: string -> int)
    ensures var entries := YearEntries(posts, yearOf);
      var years := YearsDescending(entries);
      && StrictlyDescending(years)
      && (forall y :: y in years <==> y in Groups(entries))
      && multiset(Gather(entries, years)) == multiset(posts)
      && |Gather(entries, years)| == |posts|
  {
    var entries := YearEntries(posts, yearOf);
    var years := YearsDescending(entries);
    assert Distinct(years);
    GatherPermutation(entries, years);
    YearEntriesValues(posts, yearOf);
  }

  /** A post filed under a year is one of the posts, and that is its year. */
  lemma YearGroupMember(posts: seq<Post>, yearOf: string -> int, y: int, p: Post)
    requires var groups := Groups(YearEntries(posts, yearOf)); y in groups && p in groups[y]
    ensures p in posts && yearOf(p.published_at) == y
  {
    YearGroupCount(posts, yearOf, y, p);
  }

  /** The archive fetches up to a hundred posts. */
  const ArchiveLimit: int := 100

  /** Sections built from posts without internal tags list only such posts, each under its year. */
  lemma SectionsOfPublicPosts(posts: seq<Post>, yearOf: string -> int)
    requires forall p :: p in posts ==> !HasInternalTag(p)
    ensures var groups := Groups(YearEntries(posts, yearOf));
      forall y, p :: y in groups && p in groups[y] ==> !HasInternalTag(p) && yearOf(p.published_at) == y
  {
    var groups := Groups(YearEntries(posts, yearOf));
    forall y: int, p: Post | y in groups && p in groups[y] ensures !HasInternalTag(p) && yearOf(p.published_at) == y {
      YearGroupMember(posts, yearOf, y, p);
    }
  }

  /**
   * The archive page groups what `getGhostPosts(100)` returned: every section lists only posts
   * without an internal tag, each under its own year.
   */
  lemma ArchivePageShowsOnlyPublic(cfg: GhostClient.Config, server: GhostClient.Url -> GhostClient.Response<Post>,
                                   yearOf: string -> int)
    requires GhostClient.ValidConfig(cfg)
    ensures var posts := GhostClient.GetGhostPosts(cfg, ArchiveLimit, server);
      var groups := Groups(YearEntries(posts, yearOf));
      forall y, p :: y in groups && p in groups[y] ==> !HasInternalTag(p) && yearOf(p.published_at) == y
  {
    var posts := GhostClient.GetGhostPosts(cfg, ArchiveLimit, server);
    SectionsOfPublicPosts(posts, yearOf);
  }
}

/**
 * The topics page (src/app/topics/page.tsx): the fetched posts grouped by tag slug, and for each
 * public tag a card with the first three posts of its group or a fallback message.
 */
module Topics {
  import opened Wrappers
  import opened Types
  import opened Sequences
  import opened Grouping
  import opened JsObject
  import GhostClient

  /** One (slug, post) entry per tag of the post, in tag order. */
  function TagPairs(tags: seq<Tag>, post: Post): (r: seq<(string, Post)>)
    ensures |r| == |tags|
  {
    seq(|tags|, j requires 0 <= j < |tags| => (tags[j].slug, post))
  }

  /** One more tag: one more entry at the end. */
  lemma TagPairsSnoc(done: seq<(string, Post)>, tags: seq<Tag>, j: nat, post: Post)
    requires j < |tags|
    ensures done + TagPairs(tags[..j + 1], post) == (done + TagPairs(tags[..j], post)) + [(tags[j].slug, post)]
  {
    assert TagPairs(tags[..j + 1], post) == TagPairs(tags[..j], post) + [(tags[j].slug, post)];
  }

  /** The entries the nested loops push, in push order: posts in order, tags in order. */
  function TagEntries(posts: seq<Post>): seq<(string, Post)> {
    if posts == [] then []
    else
      var last := posts[|posts| - 1];
      TagEntries(posts[..|posts| - 1]) + TagPairs(TagsOf(last), last)
  }

  /** How many of the tags carry slug `s`. */
  function SlugCount(tags: seq<Tag>, s: string): nat {
    if tags == [] then 0
    else SlugCount(tags[..|tags| - 1], s) + (if tags[|tags| - 1].slug == s then 1 else 0)
  }

  /** The total number of tags over all posts, an absent list counting as none. */
  function TotalTags(posts: seq<Post>): nat {
    if posts == [] then 0 else TotalTags(posts[..|posts| - 1]) + |TagsOf(posts[|posts| - 1])|
  }

  /** The posts, each repeated once per tag it carries, in input order. */
  function Repeated(posts: seq<Post>): seq<Post> {
    if posts == [] then []
    else
      var last := posts[|posts| - 1];
      Repeated(posts[..|posts| - 1]) + seq(|TagsOf(last)|, _ => last)
  }

  lemma {:induction false} TagPairsCount(tags: seq<Tag>, post: Post, s: string, p: Post)
    ensures multiset(TagPairs(tags, post))[(s, p)] == if post == p then SlugCount(tags, s) else 0
  {
    if tags != [] {
      var init := tags[..|tags| - 1];
      TagPairsCount(init, post, s, p);
      assert TagPairs(tags, post) == TagPairs(init, post) + [(tags[|tags| - 1].slug, post)];
    }
  }

  lemma ProductPositive(m: nat, c: nat)
    ensures m * c > 0 <==> m > 0 && c > 0
  {
    if m > 0 && c > 0 {
      assert m * c >= c;
    }
  }

  lemma MulSucc(n: nat, c: nat)
    ensures (n + 1) * c == n * c + c
  {
  }

  /** How many (s, p) entries the posts contribute, counted post by post. */
  function EntryCount(posts: seq<Post>, s: string, p: Post): nat {
    if posts == [] then 0
    else
      var last := posts[|posts| - 1];
      EntryCount(posts[..|posts| - 1], s, p) + (if last == p then SlugCount(TagsOf(p), s) else 0)
  }

  lemma {:induction false} EntryCountIsProduct(posts: seq<Post>, s: string, p: Post)
    ensures EntryCount(posts, s, p) == multiset(posts)[p] * SlugCount(TagsOf(p), s)
  {
    if posts != [] {
      var init := posts[..|posts| - 1];
      var last := posts[|posts| - 1];
      assert posts == init + [last];
      EntryCountIsProduct(init, s, p);
      if last == p {
        assert multiset(posts)[p] == multiset(init)[p] + 1;
        MulSucc(multiset(init)[p], SlugCount(TagsOf(p), s));
      } else {
        assert multiset(posts)[p] == multiset(init)[p];
      }
    }
  }

  lemma {:induction false} TagEntriesEntryCount(posts: seq<Post>, s: string, p: Post)
    ensures multiset(TagEntries(posts))[(s, p)] == EntryCount(posts, s, p)
  {
    if posts != [] {
      var init := posts[..|posts| - 1];
      var last := posts[|posts| - 1];
      TagEntriesEntryCount(init, s, p);
      TagPairsCount(TagsOf(last), last, s, p);
      assert TagEntries(posts) == TagEntries(init) + TagPairs(TagsOf(last), last);
    }
  }

  /** A (slug, post) entry occurs once per occurrence of the post times its tags with that slug. */
  lemma TagEntriesCount(posts: seq<Post>, s: string, p: Post)
    ensures multiset(TagEntries(posts))[(s, p)] == multiset(posts)[p] * SlugCount(TagsOf(p), s)
  {
    TagEntriesEntryCount(posts, s, p);
    EntryCountIsProduct(posts, s, p);
  }

  lemma {:induction false} TagEntriesValues(posts: seq<Post>)
    ensures Values(TagEntries(posts)) == Repeated(posts)
    ensures |TagEntries(posts)| == TotalTags(posts)
  {
    if posts != [] {
      var init := posts[..|posts| - 1];
      var last := posts[|posts| - 1];
      TagEntriesValues(init);
      assert Values(TagEntries(posts)) == Values(TagEntries(init)) + Values(TagPairs(TagsOf(last), last));
    }
  }

  /** One group and one post: the post's multiplicity, membership, and why it is there. */
  lemma TagGroupMember(posts: seq<Post>, s: string, p: Post)
    ensures var groups := Groups(TagEntries(posts));
      && (s in groups ==> multiset(groups[s])[p] == multiset(posts)[p] * SlugCount(TagsOf(p), s))
      && (s in groups && p in groups[s] <==> p in posts && SlugCount(TagsOf(p), s) > 0)
  {
    var entries := TagEntries(posts);
    BucketCount(entries, s, p);
    TagEntriesCount(posts, s, p);
    BucketEmpty(entries, s);
    ProductPositive(multiset(posts)[p], SlugCount(TagsOf(p), s));
  }

  /**
   * The grouping by tag: a group holds a post once per tag of that post with the group's slug,
   * times the number of times the post was fetched (nothing is deduplicated); a post is in a
   * group exactly when it carries that slug, so a post without tags is in none; groups are
   * non-empty and follow the input post order.
   */
  lemma TagGroupsProperties(posts: seq<Post>)
    ensures var groups := Groups(TagEntries(posts));
      && (forall s, p :: s in groups ==> multiset(groups[s])[p] == multiset(posts)[p] * SlugCount(TagsOf(p), s))
      && (forall s, p :: s in groups && p in groups[s] <==> p in posts && SlugCount(TagsOf(p), s) > 0)
      && (forall s, p :: s in groups && p in groups[s] ==> p.tags.Some?)
      && (forall s :: s in groups ==> groups[s] != [] && IsSubsequence(groups[s], Repeated(posts)))
  {
    var entries := TagEntries(posts);
    var groups := Groups(entries);
    forall s: string, p: Post
      ensures s in groups ==> multiset(groups[s])[p] == multiset(posts)[p] * SlugCount(TagsOf(p), s)
      ensures s in groups && p in groups[s] <==> p in posts && SlugCount(TagsOf(p), s) > 0
    {
      TagGroupMember(posts, s, p);
    }
    forall s: string, p: Post | s in groups && p in groups[s] ensures p.tags.Some? {
      TagGroupMember(posts, s, p);
    }
    TagEntriesValues(posts);
    forall s | s in groups ensures groups[s] != [] && IsSubsequence(groups[s], Repeated(posts)) {
      BucketEmpty(entries, s);
      BucketOrder(entries, s);
    }
  }

  /**
   * Reading all groups, each once, lists as many posts as there are tags over all posts:
   * the group sizes add up to the number of pushes.
   */
  lemma TagGroupsTotal(posts: seq<Post>, slugs: seq<string>)
    requires Distinct(slugs) && forall s :: s in Groups(TagEntries(posts)) ==> s in slugs
    ensures |Gather(TagEntries(posts), slugs)| == TotalTags(posts)
    ensures multiset(Gather(TagEntries(posts), slugs)) == multiset(Repeated(posts))
  {
    GatherPermutation(TagEntries(posts), slugs);
    TagEntriesValues(posts);
  }

  /** How many tags carry a slug is positive only when some tag carries it. */
  lemma {:induction false} SlugCountPositive(tags: seq<Tag>, s: string)
    requires SlugCount(tags, s) > 0
    ensures exists k :: 0 <= k < |tags| && tags[k].slug == s
  {
    var init := tags[..|tags| - 1];
    if tags[|tags| - 1].slug != s {
      SlugCountPositive(init, s);
      var k :| 0 <= k < |init| && init[k].slug == s;
      assert tags[k] == init[k];
    }
  }

  // ---------------------------------------------------------------------------------------
  // The grouping loops. `postsByTag` is an object literal: reading a slug it does not own
  // yields what every object inherits from `Object.prototype`, if the slug names such a member.

  /** The post carries a tag whose slug names an inherited member. */
  predicate CarriesInherited(proto: Prototype, p: Post) {
    exists k :: 0 <= k < |TagsOf(p)| && TagsOf(p)[k].slug in proto
  }

  /** The grouping throws: some fetched post carries a slug that names an inherited member. */
  predicate GroupingThrows(proto: Prototype, posts: seq<Post>) {
    exists i :: 0 <= i < |posts| && CarriesInherited(proto, posts[i])
  }

  /**
   * `post.tags?.forEach(...)`: for each tag, if any, create the slug's array if the record has
   * none and push the post. The record never owns a slug naming an inherited member (the grouping
   * only creates other keys, `GroupKeysNotInherited`), so such a slug reads a truthy value that is
   * not an array: no array is created and `push` throws.
   */
  method PushTags(proto: Prototype, groups: map<string, seq<Post>>, ghost done: seq<(string, Post)>, post: Post)
    returns (r: Result<map<string, seq<Post>>, Thrown>)
    requires groups == Groups(done)
    requires forall s :: s in groups ==> s !in proto
    ensures r.Err? <==> CarriesInherited(proto, post)
    ensures r.Ok? ==> r.value == Groups(done + TagPairs(TagsOf(post), post))
  {
    var postsByTag := groups;
    if post.tags.None? {
      assert done + TagPairs(TagsOf(post), post) == done;
      return Ok(postsByTag);
    }
    var tags := post.tags.value;
    assert done + TagPairs(tags[..0], post) == done;
    for j := 0 to |tags|
      invariant postsByTag == Groups(done + TagPairs(tags[..j], post))
      invariant forall k :: 0 <= k < j ==> tags[k].slug !in proto
    {
      var slug := tags[j].slug;
      if slug in proto {
        assert TagsOf(post)[j].slug == slug;
        return Err(TypeError);
      }
      GroupsSnoc(done + TagPairs(tags[..j], post), (slug, post));
      TagPairsSnoc(done, tags, j, post);
      if slug !in postsByTag {
        postsByTag := postsByTag[slug := []];
      }
      postsByTag := postsByTag[slug := postsByTag[slug] + [post]];
    }
    assert tags[..|tags|] == tags;
    return Ok(postsByTag);
  }

  /**
   * `postsByTag`: for each post, for each of its tags, push the post onto the slug's array; the
   * loops throw exactly when some post carries a slug naming an inherited member.
   */
  method GroupPostsByTag(proto: Prototype, posts: seq<Post>) returns (r: Result<map<string, seq<Post>>, Thrown>)
    ensures r.Err? <==> GroupingThrows(proto, posts)
    ensures r.Ok? ==> r.value == Groups(TagEntries(posts))
    ensures r.Ok? ==> forall s, p :: s in r.value && p in r.value[s] ==> p in posts && SlugCount(TagsOf(p), s) > 0
    ensures r.Ok? ==> forall s, p :: p in posts && SlugCount(TagsOf(p), s) > 0 ==> s in r.value
  {
    var postsByTag := map[];
    for i := 0 to |posts|
      invariant postsByTag == Groups(TagEntries(posts[..i]))
      invariant forall k :: 0 <= k < i ==> !CarriesInherited(proto, posts[k])
    {
      ghost var done := TagEntries(posts[..i]);
      PrefixKeysNotInherited(proto, posts, i);
      TagEntriesSnoc(posts, i);
      var pushed := PushTags(proto, postsByTag, done, posts[i]);
      if pushed.Err? {
        assert GroupingThrows(proto, posts) by {
          assert CarriesInherited(proto, posts[i]);
        }
        return Err(TypeError);
      }
      postsByTag := pushed.value;
    }
    assert posts[..|posts|] == posts;
    assert !GroupingThrows(proto, posts);
    TagGroupsMembership(posts);
    return Ok(postsByTag);
  }

  /** The keys the grouping has created before post `i` do not name inherited members. */
  lemma PrefixKeysNotInherited(proto: Prototype, posts: seq<Post>, i: nat)
    requires i <= |posts|
    requires forall k :: 0 <= k < i ==> !CarriesInherited(proto, posts[k])
    ensures forall s :: s in Groups(TagEntries(posts[..i])) ==> s !in proto
  {
    forall k | 0 <= k < i ensures !CarriesInherited(proto, posts[..i][k]) {
      assert posts[..i][k] == posts[k];
    }
    GroupKeysNotInherited(proto, posts[..i]);
  }

  /** One more post: its entries follow those of the posts before it. */
  lemma TagEntriesSnoc(posts: seq<Post>, i: nat)
    requires i < |posts|
    ensures TagEntries(posts[..i + 1]) == TagEntries(posts[..i]) + TagPairs(TagsOf(posts[i]), posts[i])
  {
    assert posts[..i + 1][..i] == posts[..i];
  }

  /** A post is in a group exactly when it carries the group's slug. */
  lemma TagGroupsMembership(posts: seq<Post>)
    ensures var groups := Groups(TagEntries(posts));
      && (forall s, p :: s in groups && p in groups[s] ==> p in posts && SlugCount(TagsOf(p), s) > 0)
      && (forall s, p :: p in posts && SlugCount(TagsOf(p), s) > 0 ==> s in groups)
  {
    var groups := Groups(TagEntries(posts));
    forall s, p | s in groups && p in groups[s] ensures p in posts && SlugCount(TagsOf(p), s) > 0 {
      TagGroupMember(posts, s, p);
    }
    forall s, p | p in posts && SlugCount(TagsOf(p), s) > 0 ensures s in groups {
      TagGroupMember(posts, s, p);
    }
  }

  /** When the grouping completes, no key of the record names an inherited member. */
  lemma GroupKeysNotInherited(proto: Prototype, posts: seq<Post>)
    requires !GroupingThrows(proto, posts)
    ensures forall s :: s in Groups(TagEntries(posts)) ==> s !in proto
  {
    var entries := TagEntries(posts);
    var groups := Groups(entries);
    forall s | s in groups ensures s !in proto {
      BucketEmpty(entries, s);
      var p := groups[s][0];
      assert p in groups[s];
      TagGroupMember(posts, s, p);
      var i :| 0 <= i < |posts| && posts[i] == p;
      SlugCountPositive(TagsOf(p), s);
      var k :| 0 <= k < |TagsOf(p)| && TagsOf(p)[k].slug == s;
      assert !CarriesInherited(proto, posts[i]);
    }
  }

  // ---------------------------------------------------------------------------------------
  // One card per tag

  /** What a tag card lists: up to three posts, or the "No articles available" message. */
  datatype Articles = Listed(posts: seq<Post>) | NoArticlesYet

  /**
   * `postsByTag[slug] && postsByTag[slug].length > 0 ? postsByTag[slug].slice(0, 3) : fallback`.
   * A slug the record does not own but inherits reads a function or `Object.prototype`: when its
   * `length` is positive the test passes and `slice`, which it lacks, throws; otherwise the
   * fallback shows.
   */
  function TopicCard(proto: Prototype, postsByTag: map<string, seq<Post>>, slug: string): (a: Result<Articles, Thrown>)
    ensures a.Err? <==> slug !in postsByTag && InheritedWithLength(proto, slug)
    ensures a.Ok? ==> (a.value.NoArticlesYet? <==> slug !in postsByTag || postsByTag[slug] == [])
    ensures a.Ok? && a.value.Listed? ==> slug in postsByTag && var group := postsByTag[slug];
      && 1 <= |a.value.posts| <= 3 && |a.value.posts| <= |group|
      && a.value.posts == group[..|a.value.posts|]
      && (|a.value.posts| < 3 ==> a.value.posts == group)
  {
    if slug in postsByTag then
      var group := postsByTag[slug];
      if |group| > 0 then Ok(Listed(group[..if |group| < 3 then |group| else 3]))
      else Ok(NoArticlesYet)
    else if InheritedWithLength(proto, slug) then Err(TypeError)
    else Ok(NoArticlesYet)
  }

  /**
   * On the page, once the grouping has completed, a tag's card throws exactly when its slug
   * names an inherited member with a positive `length`; otherwise it shows the fallback exactly
   * when no fetched post carries the slug, and else only fetched posts that carry it.
   */
  lemma TopicCardOfPosts(proto: Prototype, posts: seq<Post>, slug: string)
    requires !GroupingThrows(proto, posts)
    ensures var card := TopicCard(proto, Groups(TagEntries(posts)), slug);
      && (card.Err? <==> InheritedWithLength(proto, slug))
      && (card.Ok? ==> (card.value.NoArticlesYet? <==> forall p :: p in posts ==> SlugCount(TagsOf(p), slug) == 0))
      && (card.Ok? && card.value.Listed? ==>
            forall p :: p in card.value.posts ==> p in posts && SlugCount(TagsOf(p), slug) > 0)
  {
    var groups := Groups(TagEntries(posts));
    TagGroupsProperties(posts);
    GroupKeysNotInherited(proto, posts);
    var card := TopicCard(proto, groups, slug);
    if card.Ok? && card.value.NoArticlesYet? {
      forall p | p in posts ensures SlugCount(TagsOf(p), slug) == 0 {
        TagGroupMember(posts, slug, p);
      }
    } else if card.Ok? {
      var p := groups[slug][0];
      TagGroupMember(posts, slug, p);
      forall q | q in card.value.posts ensures q in posts && SlugCount(TagsOf(q), slug) > 0 {
        var k :| 0 <= k < |card.value.posts| && card.value.posts[k] == q;
        assert groups[slug][k] == q;
        TagGroupMember(posts, slug, q);
      }
    }
  }

  /** `tags.map(...)`: one card per tag, in the order the tags were fetched. */
  function TopicCards(proto: Prototype, tags: seq<Tag>, postsByTag: map<string, seq<Post>>): (r: seq<(Tag, Result<Articles, Thrown>)>)
    ensures |r| == |tags|
    ensures forall i :: 0 <= i < |r| ==> r[i].0 == tags[i] && r[i].1 == TopicCard(proto, postsByTag, tags[i].slug)
  {
    seq(|tags|, i requires 0 <= i < |tags| => (tags[i], TopicCard(proto, postsByTag, tags[i].slug)))
  }

  /**
   * The topics page: `getGhostTags()`, `getGhostPosts()` (limit 5), the grouping into an object
   * literal, the cards. Rendering fails when the grouping throws or when any card does.
   */
  function TopicsPage(cfg: GhostClient.Config, tagServer: GhostClient.Url -> GhostClient.Response<Tag>,
                      postServer: GhostClient.Url -> GhostClient.Response<Post>): (r: Result<seq<(Tag, Articles)>, Thrown>)
    requires GhostClient.ValidConfig(cfg)
    ensures var tags := GhostClient.GetGhostTags(cfg, tagServer);
      var posts := GhostClient.GetGhostPosts(cfg, 5, postServer);
      && (r.Err? <==> GroupingThrows(ObjectPrototype, posts)
                      || exists i :: 0 <= i < |tags| && InheritedWithLength(ObjectPrototype, tags[i].slug))
      && (r.Ok? ==> |r.value| == |tags| && forall i :: 0 <= i < |tags| ==>
            r.value[i].0 == tags[i] && Ok(r.value[i].1) == TopicCard(ObjectPrototype, Groups(TagEntries(posts)), tags[i].slug))
  {
    var tags := GhostClient.GetGhostTags(cfg, tagServer);
    var posts := GhostClient.GetGhostPosts(cfg, 5, postServer);
    if GroupingThrows(ObjectPrototype, posts) then Err(TypeError)
    else
      GroupKeysNotInherited(ObjectPrototype, posts);
      var cards := TopicCards(ObjectPrototype, tags, Groups(TagEntries(posts)));
      if exists i :: 0 <= i < |cards| && cards[i].1.Err? then Err(TypeError)
      else Ok(seq(|cards|, i requires 0 <= i < |cards| => (cards[i].0, cards[i].1.value)))
  }

  /**
   * Whatever the backend answers, a topics page that renders shows only public tags, and under
   * each at most three posts, every one of them fetched, free of internal tags and carrying the
   * card's slug; the fallback appears exactly when no fetched post carries the slug.
   */
  lemma TopicsPageShowsOnlyPublic(cfg: GhostClient.Config, tagServer: GhostClient.Url -> GhostClient.Response<Tag>,
                                  postServer: GhostClient.Url -> GhostClient.Response<Post>)
    requires GhostClient.ValidConfig(cfg)
    ensures var posts := GhostClient.GetGhostPosts(cfg, 5, postServer);
      var page := TopicsPage(cfg, tagServer, postServer);
      page.Ok? ==> forall i :: 0 <= i < |page.value| ==>
        && page.value[i].0.visibility == Public
        && (page.value[i].1.NoArticlesYet? <==> forall p :: p in posts ==> SlugCount(TagsOf(p), page.value[i].0.slug) == 0)
        && (page.value[i].1.Listed? ==> |page.value[i].1.posts| <= 3 && forall p :: p in page.value[i].1.posts ==>
              p in posts && !HasInternalTag(p) && SlugCount(TagsOf(p), page.value[i].0.slug) > 0)
  {
    var posts := GhostClient.GetGhostPosts(cfg, 5, postServer);
    var tags := GhostClient.GetGhostTags(cfg, tagServer);
    var page := TopicsPage(cfg, tagServer, postServer);
    if page.Ok? {
      var cards := page.value;
      forall i | 0 <= i < |cards|
        ensures cards[i].0.visibility == Public
        ensures cards[i].1.NoArticlesYet? <==> forall p :: p in posts ==> SlugCount(TagsOf(p), cards[i].0.slug) == 0
        ensures cards[i].1.Listed? ==> |cards[i].1.posts| <= 3 && forall p :: p in cards[i].1.posts ==>
                p in posts && !HasInternalTag(p) && SlugCount(TagsOf(p), cards[i].0.slug) > 0
      {
        assert cards[i].0 == tags[i] && tags[i] in tags;
        TopicCardOfPosts(ObjectPrototype, posts, tags[i].slug);
      }
    }
  }

  /** A public tag whose slug is "constructor" takes the whole topics page down. */
  lemma ConstructorTagBreaksPage(cfg: GhostClient.Config, tagServer: GhostClient.Url -> GhostClient.Response<Tag>,
                                 postServer: GhostClient.Url -> GhostClient.Response<Post>, t: Tag)
    requires GhostClient.ValidConfig(cfg)
    requires var resp := tagServer(GhostClient.RequestUrl(cfg, GhostClient.Tags, GhostClient.TagsParams()));
      GhostClient.Delivered(resp) && t in resp.body.items
    requires t.visibility == Public && t.slug == "constructor"
    ensures TopicsPage(cfg, tagServer, postServer).Err?
  {
    var tags := GhostClient.GetGhostTags(cfg, tagServer);
    assert t in tags;
    var i :| 0 <= i < |tags| && tags[i] == t;
    assert InheritedWithLength(ObjectPrototype, tags[i].slug);
  }

  /** A tag whose slug is "toString" or "__proto__" shows the fallback, though the name is inherited. */
  lemma InheritedSlugsWithoutLength(posts: seq<Post>)
    requires !GroupingThrows(ObjectPrototype, posts)
    ensures TopicCard(ObjectPrototype, Groups(TagEntries(posts)), "toString") == Ok(NoArticlesYet)
    ensures TopicCard(ObjectPrototype, Groups(TagEntries(posts)), "__proto__") == Ok(NoArticlesYet)
  {
    GroupKeysNotInherited(ObjectPrototype, posts);
  }

  /** No deduplication: a post that lists the same slug twice is pushed twice onto that group. */
  lemma DuplicateSlugListedTwice(p: Post, t: Tag)
    requires p.tags == Some([t, t])
    ensures Groups(TagEntries([p])) == map[t.slug := [p, p]]
  {
    var e := [(t.slug, p), (t.slug, p)];
    assert [p][..0] == [];
    assert TagEntries([p]) == e;
    var e1 := e[..1];
    assert e1 == [(t.slug, p)];
    assert e1[..0] == [];
    assert KeySet(e1) == {t.slug};
    assert KeySet(e) == {t.slug};
    assert Bucket(e1, t.slug) == [p];
    assert Bucket(e, t.slug) == [p, p];
  }
}

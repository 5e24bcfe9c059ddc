/** The records the content API returns (src/types.ts). */
module Types {
  import opened Wrappers

  datatype Visibility = Public | Internal

  datatype Tag = Tag(
    id: string,
    name: string,
    slug: string,
    description: Option<string>,
    feature_image: Option<string>,
    visibility: Visibility)

  datatype Author = Author(name: string, profile_image: Option<string>)

  /** A post; pages share this shape. `tags` is absent when the API did not embed tags. */
  datatype Post = Post(
    id: string,
    slug: string,
    title: string,
    excerpt: Option<string>,
    feature_image: Option<string>,
    feature_image_alt: Option<string>,
    feature_image_caption: Option<string>,
    published_at: string,
    html: string,
    primary_author: Option<Author>,
    tags: Option<seq<Tag>>)

  /** The post's tags, an absent list read as empty (the `post.tags?.…` reading). */
  function TagsOf(p: Post): seq<Tag> {
    if p.tags.Some? then p.tags.value else []
  }

  /** `post.tags?.some(tag => tag.visibility === "internal")` is truthy. */
  predicate HasInternalTag(p: Post) {
    exists i :: 0 <= i < |TagsOf(p)| && TagsOf(p)[i].visibility == Internal
  }
}

/** Optional values, and results that may fail with a not-found condition. */
module Wrappers {

  datatype Option<+T> = None | Some(value: T)

  /** The outcome of a lookup that may miss: the `get_object_or_404` pattern. */
  datatype Result<+T> = Ok(value: T) | NotFound
}

/**
 * The rows of the blog's four tables (users are plain usernames, owned by the
 * authentication subsystem), and what a view sends back to the browser.
 */
module Entities {
  import opened Wrappers

  type Username = string
  type Slug = string
  type PostId = nat

  /** A community that posts may be tagged with; looked up by its unique slug. */
  datatype Group = Group(title: string, slug: Slug, description: string)

  /**
   * A post. `pubDate` is fixed when the post is created; `group` and `image`
   * are optional. A group is referred to by its slug.
   */
  datatype Post = Post(
    id: PostId,
    text: string,
    pubDate: int,
    author: Username,
    group: Option<Slug>,
    image: Option<string>)

  /** A comment on the post whose id is `post`. */
  datatype Comment = Comment(text: string, author: Username, post: PostId, created: int)

  /** The follow edge "user follows author". */
  datatype FollowEdge = FollowEdge(user: Username, author: Username)

  /** The named pages a view redirects to. */
  datatype Route =
    | IndexPage
    | ProfilePage(username: Username)
    | PostPage(username: Username, postId: PostId)

  /**
   * What a mutating view answers: a redirect, the (re-)rendered form, or the
   * not-found page of `get_object_or_404`.
   */
  datatype Response = Redirect(to: Route) | ShowForm | PageNotFound
}

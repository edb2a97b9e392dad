/**
 * The store behind the views, and the six views that change it:
 * `new_post`, `post_edit`, `delete_post`, `add_comment`, `profile_follow`
 * and `profile_unfollow`. The viewer is the authenticated user of the request.
 */
module Views {
  import opened Wrappers
  import opened Entities
  import opened Tables
  import opened FollowTable
  import opened Feeds

  /** No two rows of the posts table share an id. */
  predicate UniqueIds(posts: seq<Post>) {
    forall i, j :: 0 <= i < j < |posts| ==> posts[i].id != posts[j].id
  }

  /** The ids of the stored posts. */
  function PostIds(posts: seq<Post>): set<PostId> {
    set p | p in posts :: p.id
  }

  /** `get_object_or_404(Post, pk=id)`: the row that holds post `id`, if any. */
  function FindPost(posts: seq<Post>, id: PostId): (r: Option<nat>)
    ensures r.Some? ==> r.value < |posts| && posts[r.value].id == id
    ensures r.None? <==> id !in PostIds(posts)
  {
    if posts == [] then None
    else if posts[0].id == id then Some(0)
    else
      assert forall p :: p in posts ==> p == posts[0] || p in posts[1..];
      match FindPost(posts[1..], id)
      case None => None
      case Some(k) => Some(k + 1)
  }

  /** With unique ids, looking up the id of a row finds that row. */
  lemma {:induction false} FindPostFindsRow(posts: seq<Post>, k: nat)
    requires UniqueIds(posts) && k < |posts|
    ensures FindPost(posts, posts[k].id) == Some(k)
  {
    if k > 0 {
      assert posts[0].id != posts[k].id;
      assert UniqueIds(posts[1..]) by {
        forall i, j | 0 <= i < j < |posts| - 1 ensures posts[1..][i].id != posts[1..][j].id {
          assert posts[1..][i] == posts[i + 1] && posts[1..][j] == posts[j + 1];
        }
      }
      FindPostFindsRow(posts[1..], k - 1);
    }
  }

  /** The posts table without row `k`. */
  function WithoutRow(posts: seq<Post>, k: nat): seq<Post>
    requires k < |posts|
  {
    posts[..k] + posts[k + 1..]
  }

  /** Row `i` of the table without row `k`. */
  lemma WithoutRowAt(posts: seq<Post>, k: nat, i: nat)
    requires k < |posts| && i < |posts| - 1
    ensures WithoutRow(posts, k)[i] == posts[if i < k then i else i + 1]
  {
  }

  /** Deleting row `k` removes exactly one copy of that post and keeps every other. */
  lemma WithoutRowRemovesPost(posts: seq<Post>, k: nat)
    requires k < |posts|
    ensures multiset(WithoutRow(posts, k)) == multiset(posts) - multiset{posts[k]}
  {
    assert posts == posts[..k] + [posts[k]] + posts[k + 1..];
  }

  /**
   * With unique ids, deleting row `k` keeps the ids unique and removes the
   * deleted post's id, and only that one, from the table.
   */
  lemma WithoutRowRemovesId(posts: seq<Post>, k: nat)
    requires UniqueIds(posts) && k < |posts|
    ensures UniqueIds(WithoutRow(posts, k))
    ensures PostIds(WithoutRow(posts, k)) == PostIds(posts) - {posts[k].id}
  {
    var r := WithoutRow(posts, k);
    assert UniqueIds(r) by {
      forall i, j | 0 <= i < j < |r| ensures r[i].id != r[j].id {
        WithoutRowAt(posts, k, i);
        WithoutRowAt(posts, k, j);
      }
    }
    assert PostIds(r) <= PostIds(posts) - {posts[k].id} by {
      forall x | x in PostIds(r) ensures x in PostIds(posts) - {posts[k].id} {
        var i :| 0 <= i < |r| && r[i].id == x;
        WithoutRowAt(posts, k, i);
      }
    }
    assert PostIds(posts) - {posts[k].id} <= PostIds(r) by {
      forall x | x in PostIds(posts) - {posts[k].id} ensures x in PostIds(r) {
        var i :| 0 <= i < |posts| && posts[i].id == x;
        var j := if i < k then i else i - 1;
        WithoutRowAt(posts, k, j);
        assert r[j] in r;
      }
    }
  }

  /** A table whose rows keep their ids has the same ids, as unique as before. */
  lemma SameIds(before: seq<Post>, after: seq<Post>)
    requires |before| == |after|
    requires forall i :: 0 <= i < |before| ==> after[i].id == before[i].id
    ensures PostIds(after) == PostIds(before)
    ensures UniqueIds(before) ==> UniqueIds(after)
  {
    forall x | x in PostIds(after) ensures x in PostIds(before) {
      var i :| 0 <= i < |after| && after[i].id == x;
      assert before[i] in before;
    }
    forall x | x in PostIds(before) ensures x in PostIds(after) {
      var i :| 0 <= i < |before| && before[i].id == x;
      assert after[i] in after;
    }
  }

  /** The comments table once the comments on post `id` are deleted with it. */
  function CascadeComments(comments: seq<Comment>, id: PostId): (r: seq<Comment>)
    ensures forall c :: multiset(r)[c] == if c.post == id then 0 else multiset(comments)[c]
  {
    Filter(comments, (c: Comment) => c.post != id)
  }

  /**
   * After the cascade, no comment refers to the deleted post, and the count
   * of every other post is unchanged.
   */
  lemma CascadeCounts(comments: seq<Comment>, id: PostId, other: PostId)
    ensures CommentCount(CascadeComments(comments, id), id) == 0
    ensures other != id ==> CommentCount(CascadeComments(comments, id), other) == CommentCount(comments, other)
  {
    var left := CascadeComments(comments, id);
    if other != id {
      var before, after := CommentsOn(comments, other), CommentsOn(left, other);
      assert multiset(after) == multiset(before);
      assert |after| == |multiset(after)| && |before| == |multiset(before)|;
    }
  }

  /** The four tables of the blog, with the counter that hands out post ids. */
  class Store {
    const users: set<Username>
    const groups: seq<Group>
    var posts: seq<Post>
    var comments: seq<Comment>
    var follows: seq<FollowEdge>
    var nextPostId: PostId

    /**
     * Post ids are unique and below the counter; every comment is on a
     * stored post; no follow edge is stored twice; every row names known
     * users; no two groups share a slug.
     */
    ghost predicate Valid()
      reads this
    {
      && UniqueIds(posts)
      && (forall p :: p in posts ==> p.id < nextPostId && p.author in users)
      && (forall c :: c in comments ==> c.post in PostIds(posts) && c.author in users)
      && Unique(follows)
      && (forall e :: e in follows ==> e.user in users && e.author in users)
      && UniqueSlugs(groups)
    }

    /** An empty blog over the given users and groups. */
    constructor (users: set<Username>, groups: seq<Group>)
      requires UniqueSlugs(groups)
      ensures Valid()
      ensures this.users == users && this.groups == groups
      ensures posts == [] && comments == [] && follows == [] && nextPostId == 0
    {
      this.users := users;
      this.groups := groups;
      posts, comments, follows := [], [], [];
      nextPostId := 0;
    }

    /**
     * `new_post`: a submitted, valid form adds one post by the viewer, with a
     * fresh id and the current time, and redirects to the home feed; any
     * other request shows the form and changes nothing.
     */
    method NewPost(viewer: Username, submitted: bool, formValid: bool,
                   text: string, group: Option<Slug>, image: Option<string>, now: int)
      returns (r: Response)
      requires Valid() && viewer in users
      modifies this`posts, this`nextPostId
      ensures Valid()
      ensures submitted && formValid ==>
        && r == Redirect(IndexPage)
        && old(nextPostId) !in old(PostIds(posts))
        && posts == old(posts) + [Post(old(nextPostId), text, now, viewer, group, image)]
        && nextPostId == old(nextPostId) + 1
      ensures !(submitted && formValid) ==>
        r == ShowForm && posts == old(posts) && nextPostId == old(nextPostId)
    {
      if submitted && formValid {
        var post := Post(nextPostId, text, now, viewer, group, image);
        posts := posts + [post];
        nextPostId := nextPostId + 1;
        r := Redirect(IndexPage);
      } else {
        r := ShowForm;
      }
    }

    /**
     * `post_edit`: only the author may edit. A submitted, valid form from the
     * author replaces the post's group, text and image and keeps everything
     * else; the author's other requests show the form; anyone else is sent
     * back to the post unchanged.
     */
    method EditPost(viewer: Username, postId: PostId, submitted: bool, formValid: bool,
                    text: string, group: Option<Slug>, image: Option<string>)
      returns (r: Response)
      requires Valid() && viewer in users
      modifies this`posts
      ensures Valid()
      ensures match FindPost(old(posts), postId)
        case None => r == PageNotFound && posts == old(posts)
        case Some(k) =>
          var post := old(posts)[k];
          if viewer != post.author then
            r == Redirect(PostPage(post.author, postId)) && posts == old(posts)
          else if submitted && formValid then
            && r == Redirect(PostPage(post.author, postId))
            && posts == old(posts)[k := post.(text := text, group := group, image := image)]
          else
            r == ShowForm && posts == old(posts)
    {
      var found := FindPost(posts, postId);
      if found.None? {
        return PageNotFound;
      }
      var k := found.value;
      var post := posts[k];
      if viewer == post.author {
        if submitted && formValid {
          post := post.(group := group, text := text, image := image);
          post := post.(author := viewer);
          SameIds(posts, posts[k := post]);
          posts := posts[k := post];
          assert forall p :: p in posts ==> p == post || p in old(posts);
          return Redirect(PostPage(post.author, post.id));
        }
        return ShowForm;
      } else {
        return Redirect(PostPage(post.author, post.id));
      }
    }

    /**
     * `delete_post`: when the viewer is the author the post goes, and its
     * comments go with it; otherwise nothing changes. Either way the viewer
     * is sent to the profile named in the request.
     */
    method DeletePost(viewer: Username, username: Username, postId: PostId)
      returns (r: Response)
      requires Valid() && viewer in users
      modifies this`posts, this`comments
      ensures Valid()
      ensures match FindPost(old(posts), postId)
        case None => r == PageNotFound && posts == old(posts) && comments == old(comments)
        case Some(k) =>
          && r == Redirect(ProfilePage(username))
          && (if viewer == old(posts)[k].author then
                posts == WithoutRow(old(posts), k) && comments == CascadeComments(old(comments), postId)
              else
                posts == old(posts) && comments == old(comments))
    {
      var found := FindPost(posts, postId);
      if found.None? {
        return PageNotFound;
      }
      var k := found.value;
      if viewer == posts[k].author {
        WithoutRowRemovesId(posts, k);
        posts := WithoutRow(posts, k);
        comments := CascadeComments(comments, postId);
        assert forall c :: c in comments ==> c in old(comments) && c.post != postId;
      }
      r := Redirect(ProfilePage(username));
    }

    /**
     * `add_comment`, for a submitted, valid form: one comment by the viewer
     * on the post is added, and the viewer is sent to the post; not found
     * when there is no such post.
     */
    method AddComment(viewer: Username, postId: PostId, text: string, now: int)
      returns (r: Response)
      requires Valid() && viewer in users
      modifies this`comments
      ensures Valid()
      ensures match FindPost(old(posts), postId)
        case None => r == PageNotFound && comments == old(comments)
        case Some(k) =>
          && r == Redirect(PostPage(old(posts)[k].author, postId))
          && comments == old(comments) + [Comment(text, viewer, postId, now)]
    {
      var found := FindPost(posts, postId);
      if found.None? {
        return PageNotFound;
      }
      var post := posts[found.value];
      comments := comments + [Comment(text, viewer, post.id, now)];
      r := Redirect(PostPage(post.author, post.id));
    }

    /**
     * `profile_follow`: the viewer comes to follow a known author through
     * exactly one edge, whether or not the edge was there before.
     */
    method Follow(viewer: Username, username: Username) returns (r: Response)
      requires Valid() && viewer in users
      modifies this`follows
      ensures Valid()
      ensures username !in users ==> r == PageNotFound && follows == old(follows)
      ensures username in users ==>
        r == Redirect(ProfilePage(username)) && follows == AddFollow(old(follows), viewer, username)
      ensures username in users ==> multiset(follows)[FollowEdge(viewer, username)] == 1
    {
      if username !in users {
        return PageNotFound;
      }
      var edge := FollowEdge(viewer, username);
      if edge in follows {
        return Redirect(ProfilePage(username));
      }
      follows := follows + [edge];
      r := Redirect(ProfilePage(username));
    }

    /**
     * `profile_unfollow`: removes the viewer's edge to a known author, and
     * answers not found when there is none.
     */
    method Unfollow(viewer: Username, username: Username) returns (r: Response)
      requires Valid() && viewer in users
      modifies this`follows
      ensures Valid()
      ensures username !in users ==> r == PageNotFound && follows == old(follows)
      ensures username in users ==> match RemoveFollow(old(follows), viewer, username)
        case None => r == PageNotFound && follows == old(follows)
        case Some(rest) => r == Redirect(ProfilePage(username)) && follows == rest
      ensures FollowEdge(viewer, username) !in follows
    {
      if username !in users {
        return PageNotFound;
      }
      var edge := FollowEdge(viewer, username);
      if edge !in follows {
        return PageNotFound;
      }
      follows := Filter(follows, (e: FollowEdge) => e != edge);
      r := Redirect(ProfilePage(username));
    }
  }

  /**
   * What the follow test of the test suite checks of the personal feeds:
   * after `follower` follows `author`, the feed shows the author's post;
   * after the author posts again, it shows the new post; the feed of
   * `other`, who follows no one, does not show it.
   */
  lemma FollowScenarioFeeds(author: Username, follower: Username, other: Username, first: Post, second: Post)
    requires first.author == author && second.author == author
    requires first.pubDate < second.pubDate && other != follower
    ensures first in FollowIndex([first], [FollowEdge(follower, author)], follower, None).items
    ensures second in FollowIndex([first, second], [FollowEdge(follower, author)], follower, None).items
    ensures second !in FollowIndex([first, second], [FollowEdge(follower, author)], other, None).items
  {
    var edges := [FollowEdge(follower, author)];
    FollowIndexNewestFirst([first], edges, follower, first);
    FollowIndexNewestFirst([first, second], edges, follower, second);
  }

  /**
   * The same tables, for the order of the feed: empty before following,
   * the newer post first after the second post.
   */
  lemma FollowScenarioOrder(author: Username, follower: Username, first: Post, second: Post)
    requires first.author == author && second.author == author
    requires first.pubDate < second.pubDate
    ensures FollowIndex([first], [], follower, None).items == []
    ensures FollowIndex([first, second], [FollowEdge(follower, author)], follower, None).items[0] == second
  {
    FollowIndexEmpty([first], [], follower, None);
    FollowIndexNewestFirst([first, second], [FollowEdge(follower, author)], follower, second);
  }

  /**
   * The follow test of the test suite, replayed on the store as verified
   * assertions: the author posts, `follower` follows the author, the author
   * posts again. The personal feeds are taken from the tables the store
   * holds after following and at the end.
   */
  method FollowScenario() returns (followerThen: seq<Post>, followerNow: seq<Post>, otherNow: seq<Post>)
    ensures Post(0, "first", 1, "followingauthor", None, None) in followerThen
    ensures Post(1, "second", 2, "followingauthor", None, None) in followerNow
    ensures Post(1, "second", 2, "followingauthor", None, None) !in otherNow
  {
    var author, follower, other := "followingauthor", "follower", "notfollower";
    var store := new Store({author, follower, other}, []);
    var r := store.NewPost(author, true, true, "first", None, None, 1);
    var first := Post(0, "first", 1, author, None, None);
    assert store.posts == [first] && store.follows == [];
    r := store.Follow(follower, author);
    assert r == Redirect(ProfilePage(author));
    assert store.follows == [FollowEdge(follower, author)];
    var postsThen, followsThen := store.posts, store.follows;
    r := store.NewPost(author, true, true, "second", None, None, 2);
    var second := Post(1, "second", 2, author, None, None);
    assert store.posts == [first, second];
    assert store.follows == [FollowEdge(follower, author)];
    FollowScenarioFeeds(author, follower, other, first, second);
    followerThen := FollowIndex(postsThen, followsThen, follower, None).items;
    followerNow := FollowIndex(store.posts, store.follows, follower, None).items;
    otherNow := FollowIndex(store.posts, store.follows, other, None).items;
  }
}

/**
 * The four listing views: the home feed (`index`), a group's feed
 * (`group_posts`), an author's profile (`profile`) and the personal feed of
 * the authors a viewer follows (`follow_index`). Each is a filter over the
 * posts table, ordered newest first, cut into pages.
 */
module Feeds {
  import opened Wrappers
  import opened Entities
  import opened Tables
  import opened Ordering
  import opened Paging

  const INDEX_PAGE_SIZE := 10
  const GROUP_PAGE_SIZE := 10
  const PROFILE_PAGE_SIZE := 5
  const FOLLOW_PAGE_SIZE := 10

  /** A post annotated with `comment_count`. */
  datatype Entry = Entry(post: Post, commentCount: nat)

  /** Whether a comment is on post `id`: the query `comments__post=id`. */
  function OnPost(id: PostId): Comment -> bool {
    (c: Comment) => c.post == id
  }

  /** The comments on post `id`, each as often as the table holds it. */
  function CommentsOn(comments: seq<Comment>, id: PostId): (r: seq<Comment>)
    ensures forall c :: multiset(r)[c] == if c.post == id then multiset(comments)[c] else 0
  {
    Filter(comments, OnPost(id))
  }

  /** `Count("comments")`: how many comments refer to post `id`. */
  function CommentCount(comments: seq<Comment>, id: PostId): (n: nat)
    ensures n <= |comments|
    ensures n > 0 <==> exists c :: c in comments && c.post == id
  {
    var on := CommentsOn(comments, id);
    assert forall c :: c in on <==> c in comments && c.post == id by {
      forall c ensures c in on <==> c in comments && c.post == id {
        assert c in on <==> c in multiset(on);
      }
    }
    |on|
  }

  /** A new comment on post `c.post` adds one to its count and to no other. */
  lemma CommentCountAfterAdd(comments: seq<Comment>, c: Comment, id: PostId)
    ensures CommentCount(comments + [c], id)
         == CommentCount(comments, id) + if c.post == id then 1 else 0
  {
    FilterAppend(comments, c, OnPost(id));
  }

  /** Each post of `posts`, in order, with its comment count. */
  function Annotate(posts: seq<Post>, comments: seq<Comment>): (r: seq<Entry>)
    ensures |r| == |posts|
    ensures forall i :: 0 <= i < |r| ==>
      r[i].post == posts[i] && r[i].commentCount == CommentCount(comments, posts[i].id)
  {
    if posts == [] then []
    else [Entry(posts[0], CommentCount(comments, posts[0].id))] + Annotate(posts[1..], comments)
  }

  /** The posts of a sequence of entries, in order. */
  function PostsOf(entries: seq<Entry>): (r: seq<Post>)
    ensures |r| == |entries|
    ensures forall i :: 0 <= i < |r| ==> r[i] == entries[i].post
  {
    if entries == [] then [] else [entries[0].post] + PostsOf(entries[1..])
  }

  /** Entries whose posts are ordered newest first. */
  predicate EntriesNewestFirst(entries: seq<Entry>) {
    forall i, j :: 0 <= i < j < |entries| ==> entries[i].post.pubDate >= entries[j].post.pubDate
  }

  /**
   * A page of posts with each post annotated with its comment count; the
   * order and the position of the page are kept.
   */
  function Annotated(page: Page<Post>, comments: seq<Comment>): (r: Page<Entry>)
    ensures r.start == page.start && r.number == page.number
    ensures r.numPages == page.numPages && r.count == page.count
    ensures |r.items| == |page.items| && PostsOf(r.items) == page.items
    ensures NewestFirst(page.items) ==> EntriesNewestFirst(r.items)
    ensures forall e :: e in r.items ==>
      e.post in page.items && e.commentCount == CommentCount(comments, e.post.id)
  {
    var entries := Annotate(page.items, comments);
    forall e | e in entries ensures e.post in page.items {
      var i :| 0 <= i < |entries| && entries[i] == e;
    }
    assert PostsOf(entries) == page.items;
    Page(entries, page.start, page.number, page.numPages, page.count)
  }

  /** The home feed before paging: every post once per row, newest first. */
  function IndexListing(posts: seq<Post>): (r: seq<Post>)
    ensures NewestFirst(r)
    ensures multiset(r) == multiset(posts)
  {
    SortNewestFirst(posts)
  }

  /** The feed of group `slug` before paging: its posts, newest first. */
  function GroupListing(posts: seq<Post>, slug: Slug): (r: seq<Post>)
    ensures NewestFirst(r)
    ensures forall p :: multiset(r)[p] == if p.group == Some(slug) then multiset(posts)[p] else 0
    ensures forall p :: p in r <==> p in posts && p.group == Some(slug)
  {
    SortNewestFirst(Filter(posts, (p: Post) => p.group == Some(slug)))
  }

  /** The posts of `author` before paging, newest first. */
  function ProfileListing(posts: seq<Post>, author: Username): (r: seq<Post>)
    ensures NewestFirst(r)
    ensures forall p :: multiset(r)[p] == if p.author == author then multiset(posts)[p] else 0
    ensures forall p :: p in r <==> p in posts && p.author == author
  {
    SortNewestFirst(Filter(posts, (p: Post) => p.author == author))
  }

  /** The authors named by a sequence of edges, in order. */
  function AuthorsOf(edges: seq<FollowEdge>): (r: seq<Username>)
    ensures |r| == |edges|
    ensures forall i :: 0 <= i < |r| ==> r[i] == edges[i].author
  {
    if edges == [] then [] else [edges[0].author] + AuthorsOf(edges[1..])
  }

  /** `[f.author for f in follows]` over the edges leaving `viewer`. */
  function FollowedAuthors(follows: seq<FollowEdge>, viewer: Username): (r: seq<Username>)
    ensures forall a :: a in r <==> FollowEdge(viewer, a) in follows
  {
    var mine := Filter(follows, (e: FollowEdge) => e.user == viewer);
    var r := AuthorsOf(mine);
    assert forall a :: a in r ==> FollowEdge(viewer, a) in mine by {
      forall a | a in r ensures FollowEdge(viewer, a) in mine {
        var i :| 0 <= i < |r| && r[i] == a;
        assert mine[i] in mine;
      }
    }
    assert forall a :: FollowEdge(viewer, a) in mine ==> a in r by {
      forall a | FollowEdge(viewer, a) in mine ensures a in r {
        var i :| 0 <= i < |mine| && mine[i] == FollowEdge(viewer, a);
        assert r[i] == a;
      }
    }
    r
  }

  /**
   * The personal feed of `viewer` before paging: exactly the posts whose
   * author the viewer follows, newest first.
   */
  function FollowListing(posts: seq<Post>, follows: seq<FollowEdge>, viewer: Username): (r: seq<Post>)
    ensures NewestFirst(r)
    ensures forall p ::
      multiset(r)[p] == if FollowEdge(viewer, p.author) in follows then multiset(posts)[p] else 0
    ensures forall p :: p in r <==> p in posts && FollowEdge(viewer, p.author) in follows
  {
    var authors := FollowedAuthors(follows, viewer);
    SortNewestFirst(Filter(posts, (p: Post) => p.author in authors))
  }

  /** A viewer who follows no one gets an empty personal feed. */
  lemma FollowListingEmpty(posts: seq<Post>, follows: seq<FollowEdge>, viewer: Username)
    requires forall e :: e in follows ==> e.user != viewer
    ensures FollowListing(posts, follows, viewer) == []
  {
  }

  /** The personal feed never shows a post by an author the viewer does not follow. */
  lemma NotFollowedNotShown(posts: seq<Post>, follows: seq<FollowEdge>, viewer: Username, p: Post)
    requires FollowEdge(viewer, p.author) !in follows
    ensures p !in FollowListing(posts, follows, viewer)
  {
    assert multiset(FollowListing(posts, follows, viewer))[p] == 0;
  }

  /** Every post by an author the viewer follows is in the personal listing. */
  lemma FollowedPostsShown(posts: seq<Post>, follows: seq<FollowEdge>, viewer: Username, p: Post)
    requires FollowEdge(viewer, p.author) in follows
    requires p in posts
    ensures p in FollowListing(posts, follows, viewer)
  {
    assert p in multiset(posts);
    assert p in multiset(FollowListing(posts, follows, viewer));
  }

  /** A followed post newer than every other post comes first in the personal listing. */
  lemma NewestFollowedLeads(posts: seq<Post>, follows: seq<FollowEdge>, viewer: Username, p: Post)
    requires FollowEdge(viewer, p.author) in follows
    requires p in posts
    requires forall q :: q in posts && q != p ==> q.pubDate < p.pubDate
    ensures FollowListing(posts, follows, viewer)[0] == p
  {
    var r := FollowListing(posts, follows, viewer);
    FollowedPostsShown(posts, follows, viewer, p);
    forall q | q in r && q != p ensures q.pubDate < p.pubDate {
      assert q in multiset(r);
    }
    NewestLeads(r, p);
  }

  /** A page cut from a newest-first listing of posts is newest first. */
  lemma PostPageOrdered(listing: seq<Post>, page: Page<Post>)
    requires NewestFirst(listing)
    requires page.start + |page.items| <= |listing|
    requires page.items == listing[page.start .. page.start + |page.items|]
    ensures NewestFirst(page.items)
    ensures forall p :: p in page.items ==> p in listing
  {
    forall i, j | 0 <= i < j < |page.items| ensures page.items[i].pubDate >= page.items[j].pubDate {
      assert page.items[i] == listing[page.start + i];
      assert page.items[j] == listing[page.start + j];
    }
  }

  /** Page `number` of a newest-first listing of posts. */
  function ListingPage(listing: seq<Post>, size: nat, number: Option<int>): (page: Page<Post>)
    requires size > 0 && NewestFirst(listing)
    ensures |page.items| <= size && NewestFirst(page.items)
    ensures forall p :: p in page.items ==> p in listing
    ensures page.count == |listing| && page.numPages == NumPages(|listing|, size)
    ensures page.number == PageNumber(number, page.numPages)
  {
    var page := Paginate(listing, size, number);
    PostPageOrdered(listing, page);
    page
  }

  /** `index`: page `number` of the home feed, 10 posts to a page. */
  function Index(posts: seq<Post>, comments: seq<Comment>, number: Option<int>): (page: Page<Entry>)
    ensures page.count == |posts|
    ensures |page.items| <= INDEX_PAGE_SIZE
    ensures EntriesNewestFirst(page.items)
    ensures forall e :: e in page.items ==>
      e.post in posts && e.commentCount == CommentCount(comments, e.post.id)
  {
    var listing := IndexListing(posts);
    var page := ListingPage(listing, INDEX_PAGE_SIZE, number);
    assert forall p :: p in page.items ==> p in multiset(listing);
    Annotated(page, comments)
  }

  /** What `group_posts` shows: the group and one page of its feed. */
  datatype GroupView = GroupView(group: Group, page: Page<Post>)

  /** No two groups share a slug. */
  predicate UniqueSlugs(groups: seq<Group>) {
    forall i, j :: 0 <= i < j < |groups| ==> groups[i].slug != groups[j].slug
  }

  /**
   * `get_object_or_404(Group, slug=slug)`: the group whose slug is `slug`,
   * the only one when slugs are unique; none when no group has it.
   */
  function FindGroup(groups: seq<Group>, slug: Slug): (r: Option<Group>)
    ensures r.Some? ==> r.value in groups && r.value.slug == slug
    ensures r.None? <==> forall g :: g in groups ==> g.slug != slug
    ensures r.Some? && UniqueSlugs(groups) ==> forall g :: g in groups && g.slug == slug ==> g == r.value
  {
    if groups == [] then None
    else if groups[0].slug == slug then Some(groups[0])
    else
      assert UniqueSlugs(groups) ==> UniqueSlugs(groups[1..]) by {
        if UniqueSlugs(groups) {
          forall i, j | 0 <= i < j < |groups| - 1 ensures groups[1..][i].slug != groups[1..][j].slug {
            assert groups[1..][i] == groups[i + 1] && groups[1..][j] == groups[j + 1];
          }
        }
      }
      assert forall g :: g in groups ==> g == groups[0] || g in groups[1..];
      FindGroup(groups[1..], slug)
  }

  /** Page `number` of the feed of group `slug`, 10 posts to a page. */
  function GroupPage(posts: seq<Post>, slug: Slug, number: Option<int>): (page: Page<Post>)
    ensures |page.items| <= GROUP_PAGE_SIZE && NewestFirst(page.items)
    ensures forall p :: p in page.items ==> p in posts && p.group == Some(slug)
  {
    ListingPage(GroupListing(posts, slug), GROUP_PAGE_SIZE, number)
  }

  /**
   * `group_posts`: the group with slug `slug` and page `number` of its feed;
   * not found when no group has that slug.
   */
  function GroupPosts(groups: seq<Group>, posts: seq<Post>, slug: Slug, number: Option<int>): (r: Result<GroupView>)
    requires UniqueSlugs(groups)
    ensures r.NotFound? <==> forall g :: g in groups ==> g.slug != slug
    ensures r.Ok? ==> r.value.group in groups && r.value.group.slug == slug
    ensures r.Ok? ==> forall g :: g in groups && g.slug == slug ==> g == r.value.group
    ensures r.Ok? ==> |r.value.page.items| <= GROUP_PAGE_SIZE && NewestFirst(r.value.page.items)
    ensures r.Ok? ==> forall p :: p in r.value.page.items ==> p in posts && p.group == Some(slug)
  {
    match FindGroup(groups, slug)
    case None => NotFound
    case Some(group) => Ok(GroupView(group, GroupPage(posts, slug, number)))
  }

  /**
   * The `following` flag of a profile: the edges from the viewer to the
   * author; an anonymous viewer gets none.
   */
  function Following(follows: seq<FollowEdge>, viewer: Option<Username>, author: Username): (r: seq<FollowEdge>)
    ensures |r| > 0 <==> viewer.Some? && FollowEdge(viewer.value, author) in follows
    ensures forall e :: e in r ==> e == FollowEdge(viewer.value, author)
  {
    match viewer
    case None => []
    case Some(v) =>
      var r := Filter(follows, (e: FollowEdge) => e.user == v && e.author == author);
      assert FollowEdge(v, author) in follows ==> FollowEdge(v, author) in r;
      assert r != [] ==> r[0] in r;
      r
  }

  /** What `profile` shows: the author, one page of posts, the following flag. */
  datatype ProfileView = ProfileView(author: Username, page: Page<Entry>, following: seq<FollowEdge>)

  /** Page `number` of the posts of `author`, 5 to a page, with their comment counts. */
  function ProfilePosts(posts: seq<Post>, comments: seq<Comment>, author: Username, number: Option<int>): (page: Page<Entry>)
    ensures |page.items| <= PROFILE_PAGE_SIZE && EntriesNewestFirst(page.items)
    ensures forall e :: e in page.items ==>
      e.post in posts && e.post.author == author && e.commentCount == CommentCount(comments, e.post.id)
  {
    Annotated(ListingPage(ProfileListing(posts, author), PROFILE_PAGE_SIZE, number), comments)
  }

  /**
   * `profile`: page `number` of the posts of `username` and whether `viewer`
   * follows them; not found for an unknown username.
   */
  function Profile(
    users: set<Username>, posts: seq<Post>, comments: seq<Comment>, follows: seq<FollowEdge>,
    username: Username, viewer: Option<Username>, number: Option<int>): (r: Result<ProfileView>)
    ensures r.NotFound? <==> username !in users
    ensures r.Ok? ==> r.value.author == username
    ensures r.Ok? ==> |r.value.page.items| <= PROFILE_PAGE_SIZE && EntriesNewestFirst(r.value.page.items)
    ensures r.Ok? ==> forall e :: e in r.value.page.items ==>
      e.post in posts && e.post.author == username && e.commentCount == CommentCount(comments, e.post.id)
    ensures r.Ok? ==> (|r.value.following| > 0 <==>
      viewer.Some? && FollowEdge(viewer.value, username) in follows)
  {
    if username !in users then NotFound
    else Ok(ProfileView(username, ProfilePosts(posts, comments, username, number), Following(follows, viewer, username)))
  }

  /** `follow_index`: page `number` of the viewer's personal feed, 10 posts to a page. */
  function FollowIndex(posts: seq<Post>, follows: seq<FollowEdge>, viewer: Username, number: Option<int>): (page: Page<Post>)
    ensures |page.items| <= FOLLOW_PAGE_SIZE && NewestFirst(page.items)
    ensures forall p :: p in page.items ==> p in posts && FollowEdge(viewer, p.author) in follows
  {
    ListingPage(FollowListing(posts, follows, viewer), FOLLOW_PAGE_SIZE, number)
  }

  /** A viewer who follows no one sees one empty page of personal feed, whatever the number. */
  lemma FollowIndexEmpty(posts: seq<Post>, follows: seq<FollowEdge>, viewer: Username, number: Option<int>)
    requires forall e :: e in follows ==> e.user != viewer
    ensures FollowIndex(posts, follows, viewer, number).items == []
    ensures FollowIndex(posts, follows, viewer, number).numPages == 1
  {
    FollowListingEmpty(posts, follows, viewer);
  }

  /** Every post is on some page of the home feed. */
  lemma IndexComplete(posts: seq<Post>, comments: seq<Comment>, p: Post)
    requires p in posts
    ensures exists n :: p in PostsOf(Index(posts, comments, Some(n)).items)
  {
    var listing := IndexListing(posts);
    assert p in multiset(listing);
    PaginateReachesEvery(listing, INDEX_PAGE_SIZE, p);
    var n :| 1 <= n <= NumPages(|listing|, INDEX_PAGE_SIZE) && p in Paginate(listing, INDEX_PAGE_SIZE, Some(n)).items;
    assert p in PostsOf(Index(posts, comments, Some(n)).items);
  }

  /** Every post of a group is on some page of the group's feed. */
  lemma GroupPostsComplete(groups: seq<Group>, posts: seq<Post>, slug: Slug, p: Post)
    requires UniqueSlugs(groups) && FindGroup(groups, slug).Some?
    requires p in posts && p.group == Some(slug)
    ensures exists n :: GroupPosts(groups, posts, slug, Some(n)).Ok? && p in GroupPosts(groups, posts, slug, Some(n)).value.page.items
  {
    var listing := GroupListing(posts, slug);
    PaginateReachesEvery(listing, GROUP_PAGE_SIZE, p);
    var n :| 1 <= n <= NumPages(|listing|, GROUP_PAGE_SIZE) && p in Paginate(listing, GROUP_PAGE_SIZE, Some(n)).items;
    assert p in GroupPosts(groups, posts, slug, Some(n)).value.page.items;
  }

  /** Every post of a known author is on some page of the author's profile. */
  lemma ProfileComplete(
    users: set<Username>, posts: seq<Post>, comments: seq<Comment>, follows: seq<FollowEdge>,
    viewer: Option<Username>, p: Post)
    requires p.author in users && p in posts
    ensures exists n ::
      Profile(users, posts, comments, follows, p.author, viewer, Some(n)).Ok? &&
      p in PostsOf(Profile(users, posts, comments, follows, p.author, viewer, Some(n)).value.page.items)
  {
    var listing := ProfileListing(posts, p.author);
    PaginateReachesEvery(listing, PROFILE_PAGE_SIZE, p);
    var n :| 1 <= n <= NumPages(|listing|, PROFILE_PAGE_SIZE) && p in Paginate(listing, PROFILE_PAGE_SIZE, Some(n)).items;
    assert p in PostsOf(Profile(users, posts, comments, follows, p.author, viewer, Some(n)).value.page.items);
  }

  /** Every post by an author the viewer follows is on some page of the personal feed. */
  lemma FollowIndexComplete(posts: seq<Post>, follows: seq<FollowEdge>, viewer: Username, p: Post)
    requires p in posts && FollowEdge(viewer, p.author) in follows
    ensures exists n :: p in FollowIndex(posts, follows, viewer, Some(n)).items
  {
    var listing := FollowListing(posts, follows, viewer);
    PaginateReachesEvery(listing, FOLLOW_PAGE_SIZE, p);
    var n :| 1 <= n <= NumPages(|listing|, FOLLOW_PAGE_SIZE) && p in Paginate(listing, FOLLOW_PAGE_SIZE, Some(n)).items;
    assert p in FollowIndex(posts, follows, viewer, Some(n)).items;
  }

  /** A followed post newer than every other post heads the personal feed opened without a page number. */
  lemma FollowIndexNewestFirst(posts: seq<Post>, follows: seq<FollowEdge>, viewer: Username, p: Post)
    requires FollowEdge(viewer, p.author) in follows
    requires p in posts
    requires forall q :: q in posts && q != p ==> q.pubDate < p.pubDate
    ensures |FollowIndex(posts, follows, viewer, None).items| > 0
    ensures FollowIndex(posts, follows, viewer, None).items[0] == p
  {
    NewestFollowedLeads(posts, follows, viewer, p);
    var listing := FollowListing(posts, follows, viewer);
    var page := Paginate(listing, FOLLOW_PAGE_SIZE, None);
    assert page.start == 0;
  }

  /** The page of a listing is the reference page of its number. */
  lemma ListingPageIsPage(listing: seq<Post>, size: nat, number: Option<int>)
    requires size > 0 && NewestFirst(listing)
    ensures IsReferencePage(ListingPage(listing, size, number).items, ListingPage(listing, size, number).number,
                            listing, size, number)
  {
    PaginateIsPage(listing, size, number);
  }

  /** The page of the home feed is the reference page of its number, cut from the home listing. */
  lemma IndexIsPage(posts: seq<Post>, comments: seq<Comment>, number: Option<int>)
    ensures IsReferencePage(PostsOf(Index(posts, comments, number).items), Index(posts, comments, number).number,
                            IndexListing(posts), INDEX_PAGE_SIZE, number)
  {
    ListingPageIsPage(IndexListing(posts), INDEX_PAGE_SIZE, number);
  }

  /** The page of a group's feed is the reference page of its number, cut from the group listing. */
  lemma GroupPostsIsPage(groups: seq<Group>, posts: seq<Post>, slug: Slug, number: Option<int>)
    requires UniqueSlugs(groups)
    ensures GroupPosts(groups, posts, slug, number).Ok? ==>
      IsReferencePage(GroupPosts(groups, posts, slug, number).value.page.items,
                      GroupPosts(groups, posts, slug, number).value.page.number,
                      GroupListing(posts, slug), GROUP_PAGE_SIZE, number)
  {
    ListingPageIsPage(GroupListing(posts, slug), GROUP_PAGE_SIZE, number);
  }

  /** The page of a profile is the reference page of its number, cut from the author's listing. */
  lemma ProfileIsPage(
    users: set<Username>, posts: seq<Post>, comments: seq<Comment>, follows: seq<FollowEdge>,
    username: Username, viewer: Option<Username>, number: Option<int>)
    ensures Profile(users, posts, comments, follows, username, viewer, number).Ok? ==>
      IsReferencePage(PostsOf(Profile(users, posts, comments, follows, username, viewer, number).value.page.items),
                      Profile(users, posts, comments, follows, username, viewer, number).value.page.number,
                      ProfileListing(posts, username), PROFILE_PAGE_SIZE, number)
  {
    ListingPageIsPage(ProfileListing(posts, username), PROFILE_PAGE_SIZE, number);
  }

  /** The page of the personal feed is the reference page of its number, cut from the personal listing. */
  lemma FollowIndexIsPage(posts: seq<Post>, follows: seq<FollowEdge>, viewer: Username, number: Option<int>)
    ensures IsReferencePage(FollowIndex(posts, follows, viewer, number).items, FollowIndex(posts, follows, viewer, number).number,
                            FollowListing(posts, follows, viewer), FOLLOW_PAGE_SIZE, number)
  {
    ListingPageIsPage(FollowListing(posts, follows, viewer), FOLLOW_PAGE_SIZE, number);
  }
}

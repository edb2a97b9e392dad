# yatube posts: a Dafny model of the blog views

This project models the views of the yatube blog (`posts/views.py`) as
operations on a store of five tables: users, groups, posts, comments and
follow edges. Each view that reads the requesting user takes it as an
explicit `viewer`. The six state-changing views require a known user,
`follow_index` takes a signed-in user's name, `profile` takes an optional
one, and `index` and `group_posts` take none.

- **Read-only views are functions.** The four listing views are
  `index`, `group_posts`, `profile` and `follow_index`. Each is a filter over the
  posts table, ordered by publication date newest first, then cut into pages.
  The page sizes are the source's: 10, 10, 5 and 10. The functions live in
  module `Feeds`, on top of a generic `Filter` (`Tables`), a newest-first
  insertion sort (`Ordering`) and the paginator (`Paging`).
- **State-changing views are methods.** They live on class `Views.Store`,
  whose fields are the tables:
  - `new_post`, `post_edit` and `delete_post` change the posts table.
  - `add_comment` changes the comments table.
  - `profile_follow` and `profile_unfollow` change the follow table.

  Each method preserves the store invariant `Valid()`:
  - post ids are unique and below the id counter;
  - every comment is on a stored post;
  - no follow edge is stored twice;
  - every row names known users;
  - group slugs are unique.

  Each method also states its whole new state. The pure follow-table steps
  live in `FollowTable`.
- **Outcomes.** A view's outcome is a `Response`: a redirect to a named
  route, the re-rendered form, or not-found.

Three behaviours of the code that the model keeps:
- An edit by someone other than the author is not an error. The code
  redirects to the post and changes nothing (`posts/views.py:92-93`).
- Nothing forbids following yourself, and the model adds no such check
  (`posts/views.py:125-132`).
- `delete_post` redirects to the profile named in the URL, not necessarily
  the author's (`posts/views.py:100`).

## Model

| member | source | states |
|---|---|---|
| Tables.Filter | posts/views.py:30 | the rows kept are exactly the rows satisfying the filter, each as often as in the table |
| Tables.FilterAppend | posts/views.py:30 | filtering a table with one more row gives the earlier result, followed by that row exactly when the filter accepts it |
| Ordering.SortNewestFirst | posts/views.py:17 | `order_by("-pub_date")`: the result is newest first and a permutation of the input |
| Ordering.NewestLeads | posts/views.py:119 | in a newest-first listing, a post strictly newer than all others is the first row |
| Paging.NumPages | posts/views.py:20 | a listing fills at least one page, and exactly one when it fits on one page |
| Paging.NumPagesIsCeiling | posts/views.py:20 | for a non-empty listing, the number of pages is the item count divided by the page size, rounded up |
| Paging.PageNumber | posts/views.py:21-22 | `get_page`: a missing or non-integer number opens page 1, an in-range number itself, any other number the last page |
| Paging.Paginate | posts/views.py:20-22 | the page is a contiguous slice of the listing of at most `size` items, non-empty when the listing is, numbered by PageNumber |
| Paging.PagesCoverListing | posts/views.py:20-22 | the pages together are the listing in order; every page but the last is full; none is empty unless the listing is |
| Paging.PaginateStart | posts/views.py:20-22 | page `n` begins at item `(n - 1) * size` of the listing |
| Paging.PaginateIsPage | posts/views.py:20-22 | the page `get_page` returns is numbered by PageNumber and is the page of that number in the reference cut |
| Paging.PaginateReachesEvery | posts/views.py:20-22 | every item of a listing is on some numbered page |
| Feeds.CommentsOn | posts/views.py:18 | the comments on one post, each as often as the table holds it |
| Feeds.CommentCount | posts/views.py:18 | `Count("comments")`: positive exactly when some comment refers to the post, and at most the table size |
| Feeds.CommentCountAfterAdd | posts/views.py:108-112 | a new comment raises its post's count by one and no other post's count |
| Feeds.Annotate | posts/views.py:18 | every post, in order, paired with its comment count |
| Feeds.Annotated | posts/views.py:45 | annotating a page keeps its posts, their order and its position, and pairs each post with its comment count |
| Feeds.IndexListing | posts/views.py:14-19 | the home listing is every post, once per row, newest first |
| Feeds.GroupListing | posts/views.py:27-32 | the group listing is exactly the posts of the group, newest first |
| Feeds.ProfileListing | posts/views.py:40-46 | the profile listing is exactly the posts of the author, newest first |
| Feeds.FollowedAuthors | posts/views.py:117-118 | an author is listed exactly when the viewer has an edge to them |
| Feeds.FollowListing | posts/views.py:117-119 | the personal listing is exactly the posts whose author the viewer follows, newest first |
| Feeds.FollowListingEmpty | posts/views.py:117-119 | a viewer who follows no one has an empty personal listing |
| Feeds.NotFollowedNotShown | posts/views.py:119 | a post by an author the viewer does not follow is never in the personal listing |
| Feeds.FollowedPostsShown | posts/views.py:117-119 | every post by a followed author is in the personal listing |
| Feeds.NewestFollowedLeads | posts/views.py:117-119 | a followed post strictly newer than every other post is the first row of the personal listing |
| Feeds.PostPageOrdered | posts/views.py:20-22 | a page cut from a newest-first listing is newest first and holds only listed posts |
| Feeds.ListingPage | posts/views.py:20-22 | a listing's page: at most `size` posts, newest first, only listed posts, numbered by PageNumber |
| Feeds.ListingPageIsPage | posts/views.py:20-22 | a listing's page is exactly the reference page of its number |
| Feeds.Index | posts/views.py:12-23 | page of the home feed: at most 10 posts, newest first, each with its comment count; the count covers every post |
| Feeds.FindGroup | posts/views.py:26 | `get_object_or_404(Group, slug=slug)`: with unique slugs, the group with the slug, or not found exactly when none has it |
| Feeds.GroupPage | posts/views.py:27-35 | page of a group's feed: at most 10 posts of that group, newest first |
| Feeds.GroupPosts | posts/views.py:25-36 | with unique slugs: not found exactly when no group has the slug; otherwise the group with that slug and a page of its posts |
| Feeds.Following | posts/views.py:47-50 | the `following` flag is non-empty exactly when the viewer is signed in and follows the author |
| Feeds.ProfilePosts | posts/views.py:40-53 | page of a profile: at most 5 posts of the author, newest first, each with its comment count |
| Feeds.Profile | posts/views.py:38-54 | not found exactly for an unknown username; otherwise the author's page and the following flag |
| Feeds.FollowIndex | posts/views.py:115-123 | page of the personal feed: at most 10 posts, newest first, all by followed authors |
| Feeds.FollowIndexEmpty | posts/views.py:117-122 | a viewer who follows no one sees one empty page, whatever page is asked for |
| Feeds.FollowIndexNewestFirst | posts/views.py:117-122 | a followed post strictly newer than every other post heads the personal feed opened without a page number |
| Feeds.IndexIsPage | posts/views.py:14-22 | the home feed's page is the reference page PageNumber(number) of the home listing |
| Feeds.GroupPostsIsPage | posts/views.py:27-35 | a found group's page is the reference page PageNumber(number) of the group listing |
| Feeds.ProfileIsPage | posts/views.py:40-53 | a known author's page is the reference page PageNumber(number) of the author's listing |
| Feeds.FollowIndexIsPage | posts/views.py:117-122 | the personal feed's page is the reference page PageNumber(number) of the personal listing |
| Feeds.IndexComplete | posts/views.py:14-22 | every post is on some page of the home feed |
| Feeds.GroupPostsComplete | posts/views.py:27-35 | every post of a group is on some page of the group's feed |
| Feeds.ProfileComplete | posts/views.py:40-53 | every post of a known author is on some page of their profile |
| Feeds.FollowIndexComplete | posts/views.py:117-122 | every post by a followed author is on some page of the personal feed |
| FollowTable.AddFollow | posts/views.py:128-131 | insert-if-absent: afterwards the edge is present, exactly once if no edge was stored twice, and every other edge is as it was |
| FollowTable.RemoveFollow | posts/views.py:136-138 | not found exactly when the edge is absent; otherwise the edge is gone, every other edge is as it was, and the table is one row shorter if no edge was stored twice |
| FollowTable.FollowTwice | posts/views.py:128-131 | following twice leaves the same table as following once |
| FollowTable.UnfollowThenFollow | posts/views.py:130-138 | unfollowing then following again restores the same edges, each as often as before |
| FollowTable.AtMostOneEdge | posts/views.py:48 | with no edge stored twice, the viewer-to-author query returns at most one edge |
| Views.FindPost | posts/views.py:80 | `get_object_or_404(Post, pk=id)`: the row holding the id, or not found exactly when no post has it |
| Views.FindPostFindsRow | posts/views.py:97 | with unique ids, looking up a row's id finds that row |
| Views.WithoutRowRemovesPost | posts/views.py:99 | deleting a row removes exactly one copy of that post and keeps every other post |
| Views.WithoutRowRemovesId | posts/views.py:99 | deleting a row keeps ids unique and removes exactly the deleted post's id |
| Views.SameIds | posts/views.py:85-87 | an update that keeps every row's id keeps the id set and its uniqueness |
| Views.CascadeComments | posts/migrations/0005_auto_20200227_2334.py:23 | `on_delete=CASCADE`: the comments on the deleted post go, every other comment stays as often as before |
| Views.CascadeCounts | posts/migrations/0005_auto_20200227_2334.py:23 | after the cascade the deleted post has no comments and every other post's count is unchanged |
| Views.Store.NewPost | posts/views.py:63-76 | a submitted valid form appends one post by the viewer with a fresh id and the current time, then redirects to the index; otherwise the form is shown and nothing changes |
| Views.Store.EditPost | posts/views.py:78-93 | not found for an unknown id; a non-author is redirected to the post with nothing changed; the author's valid form replaces only group, text and image; otherwise the form is shown |
| Views.Store.DeletePost | posts/views.py:95-100 | not found for an unknown id; the author's request removes the post and cascades its comments; anyone else changes nothing; both redirect to the named profile |
| Views.Store.AddComment | posts/views.py:102-113 | not found for an unknown post; otherwise appends one comment by the viewer on that post and redirects to the post |
| Views.Store.Follow | posts/views.py:125-132 | not found for an unknown user; otherwise the table is AddFollow's, with the edge stored exactly once |
| Views.Store.Unfollow | posts/views.py:134-139 | not found for an unknown user or a missing edge, with nothing changed; otherwise the table is RemoveFollow's; the edge is absent afterwards |
| Views.FollowScenarioFeeds | posts/tests.py:160-173 | the follow test's checks: after following, the feed shows the author's post; after a second post, it shows that post; a user who follows no one does not see it |
| Views.FollowScenarioOrder | posts/views.py:117-122 | on the same tables: the feed is empty before following, and the newer post comes first after the second post |
| Views.FollowScenario | posts/tests.py:160-173 | the test's steps replayed on a store (post, follow, post): the follower's feeds after following and at the end show the first and the second post respectively, and the non-follower's feed does not show the second |

## Left out

- Rendering, templates and HTTP status codes are presentation. Views answer a `Response`, and the read-only views return the data they would render.
- `@cache_page(20)` on `index` (`posts/views.py:12`) is a time-based framework cache and is left out.
- Views.Store: `@login_required` and sessions are not modelled. A method's viewer must be a known user, which is its precondition; only `profile` takes an optional viewer.
- Form validation is not modelled. Whether a form was submitted and whether it is valid are boolean inputs; `posts/forms.py` and the model field constraints are not part of this model.
- Image upload and file storage are not modelled. An image is an optional name.
- The clock is not modelled. The publication time of a post and the creation time of a comment are a `now` parameter.
- Views.Store.AddComment: models only a submitted, valid form; the GET path (the view returns nothing) and the invalid-form path (the redirect uses an unbound `post`) are not modelled.
- Feeds.Following: an anonymous viewer gets an empty edge list, where the source sets `following = False` (`posts/views.py:50`); the template reads both as false.
- The debug `print` at `posts/views.py:106` is output only and is left out.
- The `post` view (`posts/views.py:56-61`) only renders one post and its comments, and changes nothing; it is not modelled.
- The unused `username` URL argument of `post_edit` and `add_comment` is not an argument of the models.
- Tie-breaking among posts with equal publication dates is not modelled, because the ORM does not fix it. Listings are only stated to be in non-increasing date order. The model sorts a listing once and cuts every page from that one order. In the source, each page is a separate query over the partial order, so a post that shares its publication date with others may appear on two pages or on none across a page boundary; the model does not capture that.
- Paging.PageNumber: the page parameter arrives as an optional integer; parsing the query string is not modelled, and a non-integer parameter is represented by `None`.
- Feeds.GroupPosts: group slugs are taken to be unique, as `get_object_or_404(Group, slug=slug)` needs; `posts/models.py`, which would declare the slug field, is not part of this model. With two groups sharing a slug the view would fail with a server error, which the model does not represent.
- Views.Store.Unfollow: with duplicate edges, `get_object_or_404` would fail with a server error. The store invariant rules duplicates out, so this case does not arise in the model.
- Deleting users and the cascade of their posts, comments and follow edges is not modelled, because no view deletes users.
- URL routing (`posts/urls.py`), admin configuration (`posts/admin.py`), and the e-mail sending and sign-up views in `users/views.py` are left out. They are not part of the posts views.
- The select-related and prefetch hints of the queries affect only performance and are not modelled.
- Concurrent requests are not modelled. Each view is one atomic step on the store.

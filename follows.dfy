/**
 * The follow table as `profile_follow` and `profile_unfollow` change it: an
 * insert that happens only when the edge is absent, and a delete of the one
 * matching edge that fails with not-found when there is none.
 */
module FollowTable {
  import opened Wrappers
  import opened Entities
  import opened Tables

  /** No edge is stored twice. */
  predicate Unique(follows: seq<FollowEdge>) {
    forall e :: e in follows ==> multiset(follows)[e] == 1
  }

  /**
   * The table after `user` follows `author`: the edge is inserted unless it
   * is already there. Afterwards the edge is present, the table holds it
   * exactly once if it held no edge twice before, and every other edge is
   * as it was.
   */
  function AddFollow(follows: seq<FollowEdge>, user: Username, author: Username): (r: seq<FollowEdge>)
    ensures FollowEdge(user, author) in r
    ensures FollowEdge(user, author) in follows ==> r == follows
    ensures forall e :: e != FollowEdge(user, author) ==> multiset(r)[e] == multiset(follows)[e]
    ensures Unique(follows) ==> Unique(r) && multiset(r)[FollowEdge(user, author)] == 1
  {
    var edge := FollowEdge(user, author);
    if edge in follows then follows else follows + [edge]
  }

  /**
   * The table after `user` unfollows `author`: not found when the edge is
   * absent; otherwise the edge is gone and every other edge is as it was.
   */
  function RemoveFollow(follows: seq<FollowEdge>, user: Username, author: Username): (r: Option<seq<FollowEdge>>)
    ensures r.None? <==> FollowEdge(user, author) !in follows
    ensures r.Some? ==> FollowEdge(user, author) !in r.value
    ensures r.Some? ==> forall e :: e != FollowEdge(user, author) ==> multiset(r.value)[e] == multiset(follows)[e]
    ensures r.Some? && Unique(follows) ==> Unique(r.value) && |r.value| == |follows| - 1
  {
    var edge := FollowEdge(user, author);
    if edge !in follows then None
    else
      var rest := Filter(follows, (e: FollowEdge) => e != edge);
      assert Unique(follows) ==> multiset(rest) == multiset(follows) - multiset{edge};
      Some(rest)
  }

  /** Following twice leaves the same table as following once. */
  lemma FollowTwice(follows: seq<FollowEdge>, user: Username, author: Username)
    ensures AddFollow(AddFollow(follows, user, author), user, author) == AddFollow(follows, user, author)
  {
  }

  /**
   * Unfollowing and then following again restores the same edges, each as
   * often as before.
   */
  lemma UnfollowThenFollow(follows: seq<FollowEdge>, user: Username, author: Username)
    requires Unique(follows) && FollowEdge(user, author) in follows
    ensures RemoveFollow(follows, user, author).Some?
    ensures multiset(AddFollow(RemoveFollow(follows, user, author).value, user, author)) == multiset(follows)
  {
    var edge := FollowEdge(user, author);
    var removed := RemoveFollow(follows, user, author).value;
    var again := AddFollow(removed, user, author);
    assert multiset(again)[edge] == 1 == multiset(follows)[edge] by {
      assert edge in multiset(follows);
    }
  }

  /** With no edge stored twice, a viewer follows an author through at most one edge. */
  lemma AtMostOneEdge(follows: seq<FollowEdge>, user: Username, author: Username)
    requires Unique(follows)
    ensures |Filter(follows, (e: FollowEdge) => e.user == user && e.author == author)| <= 1
  {
    var edge := FollowEdge(user, author);
    var r := Filter(follows, (e: FollowEdge) => e.user == user && e.author == author);
    var n := multiset(follows)[edge];
    assert multiset(r) == multiset{}[edge := n];
    if n == 1 {
      assert multiset(r) == multiset{edge};
    }
    assert |r| == |multiset(r)|;
  }
}

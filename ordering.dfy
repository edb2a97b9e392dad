/** The `.order_by("-pub_date")` of every listing: newest post first. */
module Ordering {
  import opened Entities

  /** No post comes before a post published later than it. */
  predicate NewestFirst(s: seq<Post>) {
    forall i, j :: 0 <= i < j < |s| ==> s[i].pubDate >= s[j].pubDate
  }

  /** A post no older than any post of a newest-first sequence may lead it. */
  lemma LeadNewestFirst(x: Post, s: seq<Post>)
    requires NewestFirst(s)
    requires forall y :: y in s ==> y.pubDate <= x.pubDate
    ensures NewestFirst([x] + s)
  {
    var t := [x] + s;
    forall i, j | 0 <= i < j < |t| ensures t[i].pubDate >= t[j].pubDate {
      assert t[j] == s[j - 1];
      if i > 0 {
        assert t[i] == s[i - 1];
      } else {
        assert s[j - 1] in s;
      }
    }
  }

  /** The first post of a newest-first sequence is no older than any of its posts. */
  lemma HeadIsNewest(s: seq<Post>)
    requires NewestFirst(s) && s != []
    ensures forall y :: y in s ==> y.pubDate <= s[0].pubDate
  {
    forall y | y in s ensures y.pubDate <= s[0].pubDate {
      var k :| 0 <= k < |s| && s[k] == y;
    }
  }

  /** Puts `p` into the newest-first sequence `s`. */
  function InsertByDate(p: Post, s: seq<Post>): (r: seq<Post>)
    requires NewestFirst(s)
    ensures NewestFirst(r)
    ensures multiset(r) == multiset(s) + multiset{p}
  {
    if s == [] || s[0].pubDate <= p.pubDate then
      LeadNewestFirst(p, s);
      [p] + s
    else
      assert s == [s[0]] + s[1..];
      var rest := InsertByDate(p, s[1..]);
      InsertLeadHolds(p, s, rest);
      [s[0]] + rest
  }

  /** The step of InsertByDate that keeps `s[0]` in front. */
  lemma InsertLeadHolds(p: Post, s: seq<Post>, rest: seq<Post>)
    requires NewestFirst(s) && s != [] && p.pubDate < s[0].pubDate
    requires NewestFirst(rest) && multiset(rest) == multiset(s[1..]) + multiset{p}
    ensures NewestFirst([s[0]] + rest)
  {
    HeadIsNewest(s);
    forall y | y in rest ensures y.pubDate <= s[0].pubDate {
      assert y in multiset(rest);
      assert y == p || y in multiset(s[1..]);
      assert y == p || y in s;
    }
    LeadNewestFirst(s[0], rest);
  }

  /**
   * The posts of `s` ordered newest first. Posts published at the same time
   * may come in any order: the database does not fix one.
   */
  function SortNewestFirst(s: seq<Post>): (r: seq<Post>)
    ensures NewestFirst(r)
    ensures multiset(r) == multiset(s)
    ensures |r| == |s|
  {
    if s == [] then []
    else
      assert s == [s[0]] + s[1..];
      InsertByDate(s[0], SortNewestFirst(s[1..]))
  }

  /**
   * In a newest-first listing, a post published strictly later than every
   * other post of the listing is the first one.
   */
  lemma NewestLeads(r: seq<Post>, p: Post)
    requires NewestFirst(r)
    requires p in r
    requires forall q :: q in r && q != p ==> q.pubDate < p.pubDate
    ensures r[0] == p
  {
    assert r[0] in r;
  }
}

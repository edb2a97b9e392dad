/** Table queries shared by the views: the ORM's `.filter(...)`. */
module Tables {

  /**
   * The rows of `s` that `keep` accepts. Every accepted row is kept as many
   * times as it occurs in `s`, every rejected row is dropped.
   */
  function Filter<T(!new)>(s: seq<T>, keep: T -> bool): (r: seq<T>)
    ensures |r| <= |s|
    ensures forall x :: multiset(r)[x] == if keep(x) then multiset(s)[x] else 0
    ensures forall x :: x in r <==> x in s && keep(x)
  {
    if s == [] then []
    else
      assert s == [s[0]] + s[1..];
      var rest := Filter(s[1..], keep);
      if keep(s[0]) then [s[0]] + rest else rest
  }

  /** Filtering a table with one more row keeps what it kept and adds that row if accepted. */
  lemma {:induction false} FilterAppend<T(!new)>(s: seq<T>, x: T, keep: T -> bool)
    ensures Filter(s + [x], keep) == Filter(s, keep) + if keep(x) then [x] else []
  {
    if s == [] {
      assert s + [x] == [x];
    } else {
      assert (s + [x])[0] == s[0] && (s + [x])[1..] == s[1..] + [x];
      FilterCons(s + [x], keep);
      FilterAppend(s[1..], x, keep);
      FilterCons(s, keep);
      AppendAssoc(if keep(s[0]) then [s[0]] else [], Filter(s[1..], keep), if keep(x) then [x] else []);
    }
  }

  /** Filtering a non-empty table decides its first row, then filters the rest. */
  lemma FilterCons<T(!new)>(s: seq<T>, keep: T -> bool)
    requires s != []
    ensures Filter(s, keep) == (if keep(s[0]) then [s[0]] else []) + Filter(s[1..], keep)
  {
  }

  lemma AppendAssoc<T>(a: seq<T>, b: seq<T>, c: seq<T>)
    ensures a + (b + c) == (a + b) + c
  {
  }
}

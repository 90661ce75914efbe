/** The last two steps of scrape_process: the optional sort by the length of MyPost
    (lines 88-91) and the renumbering of PostNo (lines 94-95). */
module Ranking {
  import opened Text
  import opened Aggregator

  /** "Shortest First" sorts ascending; "Longest First" passes reverse=True. */
  datatype Order = Ascending | Descending

  /** The key as the sort compares it: len(MyPost), negated for reverse=True. Python's
      reverse=True compares as if every comparison were reversed and still keeps equal
      elements in their original order, which is a stable ascending sort on the negated key. */
  function Rank(o: Order, p: Post): int {
    if o == Ascending then |p.myPost| else -|p.myPost|
  }

  predicate Ordered(o: Order, s: seq<Post>) {
    forall i, j :: 0 <= i < j < |s| ==> Rank(o, s[i]) <= Rank(o, s[j])
  }

  /** Places `x` after every element of `s` that does not rank above it. */
  function Insert(o: Order, x: Post, s: seq<Post>): (r: seq<Post>)
    ensures |r| == |s| + 1
    decreases |s|
  {
    if s == [] || Rank(o, s[|s| - 1]) <= Rank(o, x) then s + [x]
    else Insert(o, x, s[..|s| - 1]) + [s[|s| - 1]]
  }

  /** list.sort with the length key: each record, in order, is inserted into the sorted
      records before it. */
  function SortBy(o: Order, s: seq<Post>): (r: seq<Post>)
    ensures |r| == |s|
    decreases |s|
  {
    if s == [] then [] else Insert(o, s[|s| - 1], SortBy(o, s[..|s| - 1]))
  }

  /** Insertion adds `x` and loses nothing. */
  lemma {:induction false} InsertPermutes(o: Order, x: Post, s: seq<Post>)
    ensures multiset(Insert(o, x, s)) == multiset(s) + multiset{x}
    decreases |s|
  {
    if s != [] && Rank(o, x) < Rank(o, s[|s| - 1]) {
      var init, last := s[..|s| - 1], s[|s| - 1];
      InsertPermutes(o, x, init);
      assert s == init + [last];
    }
  }

  /** The sorted records are the records, each as often: a permutation. */
  lemma {:induction false} SortPermutes(o: Order, s: seq<Post>)
    ensures multiset(SortBy(o, s)) == multiset(s)
    decreases |s|
  {
    if s != [] {
      var init, last := s[..|s| - 1], s[|s| - 1];
      calc {
        multiset(SortBy(o, s));
        multiset(Insert(o, last, SortBy(o, init)));
      == { InsertPermutes(o, last, SortBy(o, init)); }
        multiset(SortBy(o, init)) + multiset{last};
      == { SortPermutes(o, init); }
        multiset(init) + multiset{last};
      == { assert s == init + [last]; }
        multiset(s);
      }
    }
  }

  /** What insertion does to the images of the records under any `f`: adds that of `x`. */
  lemma {:induction false} InsertMapPermutes<B>(o: Order, f: Post -> B, x: Post, s: seq<Post>)
    ensures multiset(Map(f, Insert(o, x, s))) == multiset(Map(f, s)) + multiset{f(x)}
    decreases |s|
  {
    if s == [] || Rank(o, s[|s| - 1]) <= Rank(o, x) {
      InsertMapAppends(o, f, x, s);
    } else {
      InsertMapPermutes(o, f, x, s[..|s| - 1]);
      InsertMapPasses(o, f, x, s);
    }
  }

  lemma InsertMapAppends<B>(o: Order, f: Post -> B, x: Post, s: seq<Post>)
    requires s == [] || Rank(o, s[|s| - 1]) <= Rank(o, x)
    ensures multiset(Map(f, Insert(o, x, s))) == multiset(Map(f, s)) + multiset{f(x)}
  {
    assert Insert(o, x, s) == s + [x];
    MapAppend(f, s, [x]);
  }

  lemma InsertMapPasses<B>(o: Order, f: Post -> B, x: Post, s: seq<Post>)
    requires s != [] && Rank(o, x) < Rank(o, s[|s| - 1])
    requires multiset(Map(f, Insert(o, x, s[..|s| - 1]))) == multiset(Map(f, s[..|s| - 1])) + multiset{f(x)}
    ensures multiset(Map(f, Insert(o, x, s))) == multiset(Map(f, s)) + multiset{f(x)}
  {
    var init, last := s[..|s| - 1], s[|s| - 1];
    assert Insert(o, x, s) == Insert(o, x, init) + [last];
    assert s == init + [last];
    SnocBoth(f, Insert(o, x, init), init, last, f(x));
  }

  /** Appending the same record on both sides keeps images that differ by one element apart
      by that element only. */
  lemma SnocBoth<B>(f: Post -> B, t: seq<Post>, u: seq<Post>, y: Post, z: B)
    requires multiset(Map(f, t)) == multiset(Map(f, u)) + multiset{z}
    ensures multiset(Map(f, t + [y])) == multiset(Map(f, u + [y])) + multiset{z}
  {
    MapAppend(f, t, [y]);
    MapAppend(f, u, [y]);
  }

  /** The same for the sort: what any `f` gives on the records, such as MyPost with Tags,
      it gives on the sorted records, each as often. */
  lemma {:induction false} SortMapPermutes<B>(o: Order, f: Post -> B, s: seq<Post>)
    ensures multiset(Map(f, SortBy(o, s))) == multiset(Map(f, s))
    decreases |s|
  {
    if s != [] {
      var init, last := s[..|s| - 1], s[|s| - 1];
      calc {
        multiset(Map(f, SortBy(o, s)));
      == { InsertMapPermutes(o, f, last, SortBy(o, init)); }
        multiset(Map(f, SortBy(o, init))) + multiset{f(last)};
      == { SortMapPermutes(o, f, init); }
        multiset(Map(f, init)) + multiset{f(last)};
        multiset(Map(f, init) + [f(last)]);
      == { assert s == init + [last]; MapAppend(f, init, [last]); }
        multiset(Map(f, s));
      }
    }
  }

  lemma OrderedPrefix(o: Order, s: seq<Post>, n: nat)
    requires n <= |s| && Ordered(o, s)
    ensures Ordered(o, s[..n])
  {
    assert forall i :: 0 <= i < n ==> s[..n][i] == s[i];
  }

  /** Inserting into an ordered sequence keeps it ordered. */
  lemma {:induction false} InsertOrdered(o: Order, x: Post, s: seq<Post>)
    requires Ordered(o, s)
    ensures Ordered(o, Insert(o, x, s))
    decreases |s|
  {
    if s != [] && Rank(o, x) < Rank(o, s[|s| - 1]) {
      var init, last := s[..|s| - 1], s[|s| - 1];
      OrderedPrefix(o, s, |s| - 1);
      InsertOrdered(o, x, init);
      assert s == init + [last];
      InsertBelow(o, x, init, last);
      OrderedSnoc(o, Insert(o, x, init), last);
    }
  }

  /** Appending a record that ranks at least as high as all others keeps the order. */
  lemma OrderedSnoc(o: Order, t: seq<Post>, y: Post)
    requires Ordered(o, t) && forall i :: 0 <= i < |t| ==> Rank(o, t[i]) <= Rank(o, y)
    ensures Ordered(o, t + [y])
  {
  }

  /** When `x` ranks below the last record, it is inserted among the others, all of which
      rank no higher than that last record. */
  lemma InsertBelow(o: Order, x: Post, init: seq<Post>, last: Post)
    requires Ordered(o, init + [last]) && Rank(o, x) < Rank(o, last)
    ensures forall i :: 0 <= i < |Insert(o, x, init)| ==> Rank(o, Insert(o, x, init)[i]) <= Rank(o, last)
  {
    var s := init + [last];
    assert s[|s| - 1] == last;
    var t := Insert(o, x, init);
    InsertPermutes(o, x, init);
    forall i | 0 <= i < |t|
      ensures Rank(o, t[i]) <= Rank(o, last)
    {
      assert t[i] in multiset(init) + multiset{x};
      if t[i] != x {
        assert t[i] in init;
        var k :| 0 <= k < |init| && init[k] == t[i];
        assert s[k] == t[i];
      }
    }
  }

  /** The sorted records are ordered by the key: non-decreasing length for "Shortest
      First", non-increasing length for "Longest First". */
  lemma {:induction false} SortOrdered(o: Order, s: seq<Post>)
    ensures Ordered(o, SortBy(o, s))
    decreases |s|
  {
    if s != [] {
      SortOrdered(o, s[..|s| - 1]);
      InsertOrdered(o, s[|s| - 1], SortBy(o, s[..|s| - 1]));
    }
  }

  /** The records of `s` whose key is `k`, in their order in `s`. */
  function Tier(o: Order, s: seq<Post>, k: int): seq<Post>
    decreases |s|
  {
    if s == [] then []
    else Tier(o, s[..|s| - 1], k) + (if Rank(o, s[|s| - 1]) == k then [s[|s| - 1]] else [])
  }

  lemma TierSnoc(o: Order, s: seq<Post>, y: Post, k: int)
    ensures Tier(o, s + [y], k) == Tier(o, s, k) + (if Rank(o, y) == k then [y] else [])
  {
    assert (s + [y])[..|s|] == s;
  }

  /** Insertion passes only over records that rank strictly above `x`, so `x` stays after
      every record of its own key. */
  lemma {:induction false} InsertStable(o: Order, x: Post, s: seq<Post>, k: int)
    ensures Tier(o, Insert(o, x, s), k) == Tier(o, s, k) + (if Rank(o, x) == k then [x] else [])
    decreases |s|
  {
    var xs := if Rank(o, x) == k then [x] else [];
    if s == [] || Rank(o, s[|s| - 1]) <= Rank(o, x) {
      TierSnoc(o, s, x, k);
    } else {
      var init, last := s[..|s| - 1], s[|s| - 1];
      var ls := if Rank(o, last) == k then [last] else [];
      calc {
        Tier(o, Insert(o, x, s), k);
      == { TierSnoc(o, Insert(o, x, init), last, k); }
        Tier(o, Insert(o, x, init), k) + ls;
      == { InsertStable(o, x, init, k); }
        Tier(o, init, k) + xs + ls;
      == { assert xs == [] || ls == []; }
        Tier(o, init, k) + ls + xs;
      == { assert s == init + [last]; TierSnoc(o, init, last, k); }
        Tier(o, s, k) + xs;
      }
    }
  }

  /** The sort is stable: the records of any one length come out in the order they came
      in, for "Longest First" as well. */
  lemma {:induction false} SortStable(o: Order, s: seq<Post>, k: int)
    ensures Tier(o, SortBy(o, s), k) == Tier(o, s, k)
    decreases |s|
  {
    if s != [] {
      var init, last := s[..|s| - 1], s[|s| - 1];
      SortStable(o, init, k);
      InsertStable(o, last, SortBy(o, init), k);
      assert s == init + [last];
      TierSnoc(o, init, last, k);
    }
  }

  /** Records that are already in order are left where they are. */
  lemma {:induction false} SortOfOrdered(o: Order, s: seq<Post>)
    requires Ordered(o, s)
    ensures SortBy(o, s) == s
    decreases |s|
  {
    if s != [] {
      var init, last := s[..|s| - 1], s[|s| - 1];
      calc {
        SortBy(o, s);
        Insert(o, last, SortBy(o, init));
      == { OrderedPrefix(o, s, |s| - 1); SortOfOrdered(o, init); }
        Insert(o, last, init);
      == { assert init == [] || Rank(o, init[|init| - 1]) <= Rank(o, last) by {
             assert init != [] ==> init[|init| - 1] == s[|s| - 2];
           }
         }
        init + [last];
      == { assert init + [last] == s; }
        s;
      }
    }
  }

  /** "Longest First" on posts of lengths 5, 20 and 5, found in that order: the long one
      comes first, then the two short ones in the order they were found. */
  lemma LongestFirstExample(p: Post, q: Post, r: Post)
    requires |p.myPost| == 5 && |q.myPost| == 20 && |r.myPost| == 5
    ensures SortBy(Descending, [p, q, r]) == [q, p, r]
  {
    assert [p, q, r][..2] == [p, q] && [p, q][..1] == [p] && [p][..0] == [];
    assert SortBy(Descending, [p]) == [p];
    assert SortBy(Descending, [p, q]) == Insert(Descending, q, [p]) == [q, p] by {
      assert [p][..0] == [];
    }
    assert Insert(Descending, r, [q, p]) == [q, p, r];
  }

  /** No two records of `s` agree on `f`. */
  ghost predicate Distinct<B>(f: Post -> B, s: seq<Post>) {
    forall i, j :: 0 <= i < j < |s| ==> f(s[i]) != f(s[j])
  }

  lemma {:induction false} InsertDistinct<B>(o: Order, f: Post -> B, x: Post, s: seq<Post>)
    requires Distinct(f, s) && forall y :: y in s ==> f(y) != f(x)
    ensures Distinct(f, Insert(o, x, s))
    decreases |s|
  {
    if s != [] && Rank(o, x) < Rank(o, s[|s| - 1]) {
      var init, last := s[..|s| - 1], s[|s| - 1];
      assert s == init + [last];
      assert forall i :: 0 <= i < |init| ==> init[i] == s[i];
      InsertDistinct(o, f, x, init);
      InsertApart(o, f, x, init, last);
      DistinctSnoc(f, Insert(o, x, init), last);
    }
  }

  lemma DistinctSnoc<B>(f: Post -> B, t: seq<Post>, y: Post)
    requires Distinct(f, t) && forall i :: 0 <= i < |t| ==> f(t[i]) != f(y)
    ensures Distinct(f, t + [y])
  {
  }

  /** The records `x` is inserted among all differ from `last` on `f`. */
  lemma InsertApart<B>(o: Order, f: Post -> B, x: Post, init: seq<Post>, last: Post)
    requires Distinct(f, init + [last]) && f(last) != f(x)
    ensures forall i :: 0 <= i < |Insert(o, x, init)| ==> f(Insert(o, x, init)[i]) != f(last)
  {
    var s := init + [last];
    assert s[|s| - 1] == last;
    var t := Insert(o, x, init);
    InsertPermutes(o, x, init);
    forall i | 0 <= i < |t|
      ensures f(t[i]) != f(last)
    {
      assert t[i] in multiset(init) + multiset{x};
      if t[i] != x {
        assert t[i] in init;
        var k :| 0 <= k < |init| && init[k] == t[i];
        assert s[k] == t[i];
      }
    }
  }

  /** Sorting keeps records that differ on `f` (such as the key of MyPost) apart. */
  lemma {:induction false} SortDistinct<B>(o: Order, f: Post -> B, s: seq<Post>)
    requires Distinct(f, s)
    ensures Distinct(f, SortBy(o, s))
    decreases |s|
  {
    if s != [] {
      var init, last := s[..|s| - 1], s[|s| - 1];
      assert forall i :: 0 <= i < |init| ==> init[i] == s[i];
      SortDistinct(o, f, init);
      var t := SortBy(o, init);
      SortPermutes(o, init);
      forall y | y in t
        ensures f(y) != f(last)
      {
        assert y in multiset(init);
        var k :| 0 <= k < |init| && init[k] == y;
        assert s[k] == y;
      }
      InsertDistinct(o, f, last, t);
    }
  }

  /** The records with PostNo rewritten to str(position + 1). */
  function Renumbered(s: seq<Post>): (r: seq<Post>)
    ensures |r| == |s|
  {
    seq(|s|, i requires 0 <= i < |s| => s[i].(postNo := Decimal(i + 1)))
  }

  /** The loop of lines 94-95, overwriting PostNo record by record. */
  method Renumber(posts: seq<Post>) returns (r: seq<Post>)
    ensures r == Renumbered(posts)
  {
    r := posts;
    for idx := 0 to |r|
      invariant |r| == |posts|
      invariant forall i :: 0 <= i < idx ==> r[i] == posts[i].(postNo := Decimal(i + 1))
      invariant forall i :: idx <= i < |r| ==> r[i] == posts[i]
    {
      r := r[idx := r[idx].(postNo := Decimal(idx + 1))];
    }
  }

  /** After renumbering, record i carries PostNo str(i+1), so no two records share a
      number, and MyPost and Tags are untouched. */
  lemma RenumberedNumbers(s: seq<Post>)
    ensures var r := Renumbered(s);
      && (forall i :: 0 <= i < |r| ==> r[i].postNo == Decimal(i + 1))
      && (forall i :: 0 <= i < |r| ==> r[i].myPost == s[i].myPost && r[i].tags == s[i].tags)
      && (forall i, j :: 0 <= i < j < |r| ==> r[i].postNo != r[j].postNo)
  {
    var r := Renumbered(s);
    forall i, j | 0 <= i < j < |r|
      ensures r[i].postNo != r[j].postNo
    {
      DecimalInjective(i + 1, j + 1);
    }
  }

  /** Records already numbered by position are left as they are. */
  lemma RenumberedNumbered(s: seq<Post>)
    requires forall i :: 0 <= i < |s| ==> s[i].postNo == Decimal(i + 1)
    ensures Renumbered(s) == s
  {
    assert forall i :: 0 <= i < |s| ==> Renumbered(s)[i] == s[i];
  }
}

/** scrape_process as a whole (lines 32-99): collect the records, sort them as the
    sort mode asks, renumber them. */
module Pipeline {
  import opened Text
  import opened Aggregator
  import opened Ranking

  /** Lines 88-91: "Shortest First" and "Longest First" sort by the length of MyPost;
      any other mode keeps the order in which the records were found. */
  function Arrange(sortMode: string, rs: seq<Post>): (r: seq<Post>)
    ensures |r| == |rs|
  {
    if sortMode == "Shortest First" then SortBy(Ascending, rs)
    else if sortMode == "Longest First" then SortBy(Descending, rs)
    else rs
  }

  /** What scrape_process returns for the given feed answers. */
  function Outcome(feeds: seq<Feed>, limit: int, key: string -> int, sortMode: string): seq<Post> {
    Renumbered(Arrange(sortMode, Run(Stream(feeds), limit, key).results))
  }

  /** The record without its number: MyPost and Tags. */
  function Body(p: Post): Item {
    Item(p.myPost, p.tags)
  }

  /** Lines 32-99 without the user interface: collect, sort, renumber. Every call to the
      feed is made with fewer than `limit` records collected, and query q is
      searched iff fewer than `limit` records were collected before it. */
  method ScrapeProcess(feeds: seq<Feed>, limit: int, key: string -> int, sortMode: string)
    returns (results: seq<Post>, ghost calls: seq<Call>)
    ensures results == Outcome(feeds, limit, key, sortMode)
    ensures forall c :: c in calls ==> c.count < limit
    ensures forall q :: 0 <= q < |feeds| && CountBefore(feeds, q, limit, key) < limit ==>
      Search(q, CountBefore(feeds, q, limit, key)) in calls
    ensures forall c :: c in calls && c.Search? ==>
      c.query < |feeds| && c.count == CountBefore(feeds, c.query, limit, key)
  {
    results, calls := Aggregate(feeds, limit, key);
    if sortMode == "Shortest First" {
      results := SortBy(Ascending, results);
    } else if sortMode == "Longest First" {
      results := SortBy(Descending, results);
    }
    results := Renumber(results);
  }

  lemma ArrangePermutes(sortMode: string, rs: seq<Post>)
    ensures multiset(Arrange(sortMode, rs)) == multiset(rs)
  {
    SortPermutes(Ascending, rs);
    SortPermutes(Descending, rs);
  }

  /** Sorting and renumbering keep the properties of the collected records: they pass
      the filter and have pairwise different keys. */
  lemma ArrangedShape(sortMode: string, rs: seq<Post>, key: string -> int)
    requires forall i :: 0 <= i < |rs| ==> Qualifies(rs[i].myPost)
    requires Distinct((p: Post) => key(p.myPost), rs)
    ensures var r := Renumbered(Arrange(sortMode, rs));
      && (forall i :: 0 <= i < |r| ==> Qualifies(r[i].myPost))
      && (forall i, j :: 0 <= i < j < |r| ==> key(r[i].myPost) != key(r[j].myPost))
  {
    var f := (p: Post) => key(p.myPost);
    var a := Arrange(sortMode, rs);
    ArrangePermutes(sortMode, rs);
    SortDistinct(Ascending, f, rs);
    SortDistinct(Descending, f, rs);
    assert Distinct(f, a);
    RenumberedNumbers(a);
    forall i | 0 <= i < |a|
      ensures Qualifies(a[i].myPost)
    {
      assert a[i] in multiset(rs);
      var k :| 0 <= k < |rs| && rs[k] == a[i];
    }
  }

  /** The result holds at most `limit` records (none for a limit below 1), numbered
      "1", "2", ... in order; each MyPost passes the filter and no two share a key. */
  lemma OutcomeShape(feeds: seq<Feed>, limit: int, key: string -> int, sortMode: string)
    ensures var r := Outcome(feeds, limit, key, sortMode);
      && (|r| <= limit || r == [])
      && (forall i :: 0 <= i < |r| ==> r[i].postNo == Decimal(i + 1))
      && (forall i, j :: 0 <= i < j < |r| ==> r[i].postNo != r[j].postNo)
      && (forall i :: 0 <= i < |r| ==> Qualifies(r[i].myPost))
      && (forall i, j :: 0 <= i < j < |r| ==> key(r[i].myPost) != key(r[j].myPost))
  {
    var st := Run(Stream(feeds), limit, key);
    CollectConsistent(Map(Prepare, Stream(feeds)), limit, key);
    var a := Arrange(sortMode, st.results);
    RenumberedNumbers(a);
    ArrangedShape(sortMode, st.results, key);
  }

  /** Renumbering leaves MyPost and Tags of every record as they were. */
  lemma RenumberedBodies(s: seq<Post>)
    ensures Map(Body, Renumbered(s)) == Map(Body, s)
  {
    RenumberedNumbers(s);
    forall i | 0 <= i < |s|
      ensures Map(Body, Renumbered(s))[i] == Map(Body, s)[i]
    {
      MapAt(Body, Renumbered(s), i);
      MapAt(Body, s, i);
    }
  }

  /** Sorting and renumbering neither add, drop nor alter a post: the result carries the
      collected MyPost and Tags pairs, each as often as they were collected. */
  lemma OutcomeContents(feeds: seq<Feed>, limit: int, key: string -> int, sortMode: string)
    ensures multiset(Map(Body, Outcome(feeds, limit, key, sortMode)))
         == multiset(Map(Body, Run(Stream(feeds), limit, key).results))
  {
    ArrangedBodies(sortMode, Run(Stream(feeds), limit, key).results);
  }

  lemma ArrangedBodies(sortMode: string, rs: seq<Post>)
    ensures multiset(Map(Body, Renumbered(Arrange(sortMode, rs)))) == multiset(Map(Body, rs))
  {
    RenumberedBodies(Arrange(sortMode, rs));
    SortMapPermutes(Ascending, Body, rs);
    SortMapPermutes(Descending, Body, rs);
  }

  /** Records of equal bodies fall into the same tiers: the records of any one length
      carry the same MyPost and Tags, in the same order. */
  lemma {:induction false} TierBodies(o: Order, u: seq<Post>, v: seq<Post>, k: int)
    requires |u| == |v| && forall i :: 0 <= i < |u| ==> Body(u[i]) == Body(v[i])
    ensures Map(Body, Tier(o, u, k)) == Map(Body, Tier(o, v, k))
    decreases |u|
  {
    if u != [] {
      var n := |u| - 1;
      TierBodies(o, u[..n], v[..n], k);
      var tu, tv := Tier(o, u[..n], k), Tier(o, v[..n], k);
      var eu := if Rank(o, u[n]) == k then [u[n]] else [];
      var ev := if Rank(o, v[n]) == k then [v[n]] else [];
      assert Tier(o, u, k) == tu + eu;
      assert Tier(o, v, k) == tv + ev;
      MapAppend(Body, tu, eu);
      MapAppend(Body, tv, ev);
      assert Map(Body, eu) == Map(Body, ev);
    }
  }

  /** Renumbering changes no tier but for the numbers. */
  lemma RenumberedTiers(o: Order, s: seq<Post>, k: int)
    ensures Map(Body, Tier(o, Renumbered(s), k)) == Map(Body, Tier(o, s, k))
  {
    RenumberedNumbers(s);
    TierBodies(o, Renumbered(s), s, k);
  }

  /** The sorted modes are stable: the records of any one length keep the order in
      which they were found. */
  lemma ArrangedStable(o: Order, rs: seq<Post>, k: int)
    ensures Map(Body, Tier(o, Renumbered(SortBy(o, rs)), k)) == Map(Body, Tier(o, rs, k))
  {
    RenumberedTiers(o, SortBy(o, rs), k);
    SortStable(o, rs, k);
  }

  /** "Shortest First" gives non-decreasing and "Longest First" non-increasing lengths of
      MyPost, and both keep the records of one length in the order they were found; any
      other mode returns the records in the order they were found, which already carry
      the right numbers, so the renumbering changes nothing. */
  lemma OutcomeOrder(feeds: seq<Feed>, limit: int, key: string -> int, sortMode: string)
    ensures var r := Outcome(feeds, limit, key, sortMode);
      var rs := Run(Stream(feeds), limit, key).results;
      && (sortMode == "Shortest First" ==> forall i, j :: 0 <= i < j < |r| ==> |r[i].myPost| <= |r[j].myPost|)
      && (sortMode == "Shortest First" ==> forall k :: Map(Body, Tier(Ascending, r, k)) == Map(Body, Tier(Ascending, rs, k)))
      && (sortMode == "Longest First" ==> forall i, j :: 0 <= i < j < |r| ==> |r[i].myPost| >= |r[j].myPost|)
      && (sortMode == "Longest First" ==> forall k :: Map(Body, Tier(Descending, r, k)) == Map(Body, Tier(Descending, rs, k)))
      && (sortMode != "Shortest First" && sortMode != "Longest First" ==> r == rs)
  {
    var st := Run(Stream(feeds), limit, key);
    CollectConsistent(Map(Prepare, Stream(feeds)), limit, key);
    ArrangedOrder(sortMode, st.results);
  }

  lemma ArrangedOrder(sortMode: string, rs: seq<Post>)
    requires forall i :: 0 <= i < |rs| ==> rs[i].postNo == Decimal(i + 1)
    ensures var r := Renumbered(Arrange(sortMode, rs));
      && (sortMode == "Shortest First" ==> forall i, j :: 0 <= i < j < |r| ==> |r[i].myPost| <= |r[j].myPost|)
      && (sortMode == "Shortest First" ==> forall k :: Map(Body, Tier(Ascending, r, k)) == Map(Body, Tier(Ascending, rs, k)))
      && (sortMode == "Longest First" ==> forall i, j :: 0 <= i < j < |r| ==> |r[i].myPost| >= |r[j].myPost|)
      && (sortMode == "Longest First" ==> forall k :: Map(Body, Tier(Descending, r, k)) == Map(Body, Tier(Descending, rs, k)))
      && (sortMode != "Shortest First" && sortMode != "Longest First" ==> r == rs)
  {
    var a := Arrange(sortMode, rs);
    RenumberedNumbers(a);
    if sortMode == "Shortest First" {
      SortOrdered(Ascending, rs);
      forall k ensures Map(Body, Tier(Ascending, Renumbered(a), k)) == Map(Body, Tier(Ascending, rs, k)) {
        ArrangedStable(Ascending, rs, k);
      }
    } else if sortMode == "Longest First" {
      SortOrdered(Descending, rs);
      forall k ensures Map(Body, Tier(Descending, Renumbered(a), k)) == Map(Body, Tier(Descending, rs, k)) {
        ArrangedStable(Descending, rs, k);
      }
    } else {
      RenumberedNumbered(rs);
    }
  }
}

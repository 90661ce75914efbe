/** The collecting part of scrape_process: the walk over queries, pages and posts, with
    cleaning, the quality filter, de-duplication on a key of the cleaned text and the
    global limit. The feed client is replaced by what it answers for each query. */
module Aggregator {
  import opened Text
  import opened Normalizer
  import opened Hashtags

  /** How a query's pagination goes on once its listed pages are used up. */
  datatype PageEnd =
    | Exhausted  // next() returns an empty page
    | NextFails  // next() raises
    | NoNext     // the page object has no next()

  /** What the feed answers for one query: search_tweet raises, or it returns
      pages[0] and the k-th call of next() returns pages[k]. A missing first page
      is an empty result. */
  datatype Feed =
    | SearchFails
    | Pages(pages: seq<seq<string>>, end: PageEnd)

  /** One result record: PostNo, MyPost and Tags. */
  datatype Post = Post(postNo: string, myPost: string, tags: string)

  /** A call the loop makes to the feed, with the number of posts collected when it is made. */
  datatype Call =
    | Search(query: nat, count: nat)
    | Next(query: nat, page: nat, count: nat)

  /** Index of the first empty page (the `while tweets` loop stops there), or the number
      of pages when none is empty. */
  function FirstEmpty(pages: seq<seq<string>>): (n: nat)
    ensures n <= |pages|
    ensures forall j :: 0 <= j < n ==> pages[j] != []
    ensures n < |pages| ==> pages[n] == []
    decreases |pages|
  {
    if pages == [] || pages[0] == [] then 0 else 1 + FirstEmpty(pages[1..])
  }

  /** The posts of the pages, page after page. */
  function Flatten(pages: seq<seq<string>>): seq<string>
    decreases |pages|
  {
    if pages == [] then [] else Flatten(pages[..|pages| - 1]) + pages[|pages| - 1]
  }

  /** The raw texts the loop reaches for one query when no limit stops it: nothing when
      the search fails, otherwise every post of the pages before the first empty one.
      A failing or missing next() ends the query with the posts already read. */
  function QueryPosts(f: Feed): seq<string> {
    match f
    case SearchFails => []
    case Pages(pages, _) => Flatten(pages[..FirstEmpty(pages)])
  }

  /** All raw texts in processing order: query by query, page by page, post by post. */
  function Stream(feeds: seq<Feed>): seq<string>
    decreases |feeds|
  {
    if feeds == [] then [] else Stream(feeds[..|feeds| - 1]) + QueryPosts(feeds[|feeds| - 1])
  }

  /** all_results and seen_content_hashes; global_count is the number of results. */
  datatype State = State(results: seq<Post>, seen: set<int>)

  /** The quality filter of the loop: a cleaned text is kept only when it is not empty
      and has at least 5 characters. */
  predicate Qualifies(clean: string) {
    !(clean == [] || |clean| < 5)
  }

  /** The Tags field: the hashtags of the raw (uncleaned) text, joined by ", ". */
  function Tags(raw: string): string {
    Join(", ", ExtractHashtags(raw))
  }

  /** What the loop derives from one raw text: clean_text and the joined tags. */
  datatype Item = Item(clean: string, tags: string)

  function Prepare(raw: string): Item {
    Item(Clean(raw), Tags(raw))
  }

  /** A hashtag inside a `www.` link: the link rewrite removes it from the text that is
      cleaned, while the tags are read from the raw text and keep it. */
  lemma TagInsideLink()
    ensures Sub(WwwLinks, "www.x#t") == [] && Tags("www.x#t") == "#t"
  {
    LinkWithTagExample();
    TagInLinkExample();
  }

  /** `f` applied to every element, in order. */
  function Map<A, B>(f: A -> B, xs: seq<A>): (ys: seq<B>)
    ensures |ys| == |xs|
    decreases |xs|
  {
    if xs == [] then [] else Map(f, xs[..|xs| - 1]) + [f(xs[|xs| - 1])]
  }

  /** What one post does to the state (lines 55-74): nothing once the limit is reached,
      when the cleaned text fails the filter, or when its key was already seen;
      otherwise the key is recorded and a record numbered count+1 is appended. */
  function Accept(st: State, it: Item, limit: int, key: string -> int): State {
    if |st.results| >= limit || !Qualifies(it.clean) || key(it.clean) in st.seen then st
    else State(st.results + [Post(Decimal(|st.results| + 1), it.clean, it.tags)], st.seen + {key(it.clean)})
  }

  /** The state after the given posts, in order, starting from nothing. */
  function Collect(items: seq<Item>, limit: int, key: string -> int): State
    decreases |items|
  {
    if items == [] then State([], {})
    else Accept(Collect(items[..|items| - 1], limit, key), items[|items| - 1], limit, key)
  }

  /** The state after the given raw texts. */
  function Run(posts: seq<string>, limit: int, key: string -> int): State {
    Collect(Map(Prepare, posts), limit, key)
  }

  lemma {:induction false} MapAppend<A, B>(f: A -> B, xs: seq<A>, ys: seq<A>)
    ensures Map(f, xs + ys) == Map(f, xs) + Map(f, ys)
    decreases |ys|
  {
    if ys == [] {
      assert xs + ys == xs;
    } else {
      var ys' := ys[..|ys| - 1];
      MapAppend(f, xs, ys');
      assert (xs + ys)[..|xs + ys| - 1] == xs + ys';
    }
  }

  /** One more item is one more Accept. */
  lemma CollectStep(prior: seq<Item>, items: seq<Item>, it: Item, limit: int, key: string -> int)
    ensures Collect(prior + (items + [it]), limit, key) == Accept(Collect(prior + items, limit, key), it, limit, key)
  {
    assert prior + (items + [it]) == (prior + items) + [it];
    assert ((prior + items) + [it])[..|prior + items|] == prior + items;
  }

  lemma MapStep<A, B>(f: A -> B, xs: seq<A>, i: nat)
    requires i < |xs|
    ensures Map(f, xs[..i + 1]) == Map(f, xs[..i]) + [f(xs[i])]
  {
    assert xs[..i + 1][..i] == xs[..i];
  }

  lemma FlattenStep(pages: seq<seq<string>>, p: nat)
    requires p < |pages|
    ensures Flatten(pages[..p + 1]) == Flatten(pages[..p]) + pages[p]
  {
    assert pages[..p + 1][..p] == pages[..p];
  }

  // ---------------------------------------------------------------------------------
  // The loop of scrape_process

  /** The body of the `for tweet in tweets` loop (lines 55-74) for one post. */
  method TakePost(raw: string, limit: int, key: string -> int,
                  count0: nat, results0: seq<Post>, seen0: set<int>)
    returns (count: nat, results: seq<Post>, seen: set<int>)
    requires count0 == |results0|
    ensures count == |results|
    ensures State(results, seen) == Accept(State(results0, seen0), Prepare(raw), limit, key)
  {
    count, results, seen := count0, results0, seen0;
    if count >= limit {
      return;
    }
    var clean := Clean(raw);
    if clean == [] || |clean| < 5 {
      return;
    }
    var h := key(clean);
    if h in seen {
      return;
    }
    seen := seen + {h};
    var tags := ExtractHashtags(raw);
    count := count + 1;
    results := results + [Post(Decimal(count), clean, Join(", ", tags))];
  }

  /** The `for tweet in tweets` loop over one page (lines 54-78), entered after the
      items `prior`: reads a prefix of the page, all of it unless the limit stopped it. */
  method TakePage(page: seq<string>, limit: int, key: string -> int,
                  count0: nat, results0: seq<Post>, seen0: set<int>, ghost prior: seq<Item>)
    returns (count: nat, results: seq<Post>, seen: set<int>, ghost items: seq<Item>)
    requires count0 == |results0| && State(results0, seen0) == Collect(prior, limit, key)
    ensures count == |results| && |items| <= |page| && items == Map(Prepare, page[..|items|])
    ensures State(results, seen) == Collect(prior + items, limit, key)
    ensures |items| == |page| || count >= limit
  {
    count, results, seen, items := count0, results0, seen0, [];
    assert prior + items == prior;
    for i := 0 to |page|
      invariant count == |results| && |items| == i
      invariant items == Map(Prepare, page[..i])
      invariant State(results, seen) == Collect(prior + items, limit, key)
    {
      if count >= limit {
        break;
      }
      ghost var it := Prepare(page[i]);
      MapStep(Prepare, page, i);
      CollectStep(prior, items, it, limit, key);
      count, results, seen := TakePost(page[i], limit, key, count, results, seen);
      items := items + [it];
    }
  }

  /** One round of the `while tweets` loop (lines 54-85) on the non-empty page p, entered
      after the texts `read` of the pages before it: the page's posts, then, below the
      limit, the move to the next page. `stop` is a `break`: the limit was reached, or
      next() failed or is missing after the last page. */
  method StepPage(q: nat, pages: seq<seq<string>>, end: PageEnd, p: nat, limit: int, key: string -> int,
                  count0: nat, results0: seq<Post>, seen0: set<int>,
                  ghost prior: seq<Item>, ghost read0: seq<string>, ghost items0: seq<Item>)
    returns (count: nat, results: seq<Post>, seen: set<int>, p': nat, page': seq<string>, stop: bool,
             ghost made: seq<Call>, ghost read: seq<string>, ghost items: seq<Item>)
    requires p < FirstEmpty(pages) && read0 == Flatten(pages[..p]) && items0 == Map(Prepare, read0)
    requires count0 == |results0| && State(results0, seen0) == Collect(prior + items0, limit, key)
    ensures count == |results| && items == Map(Prepare, read)
    ensures State(results, seen) == Collect(prior + items, limit, key)
    ensures read <= Flatten(pages[..FirstEmpty(pages)])
    ensures stop ==> count >= limit || read == Flatten(pages[..FirstEmpty(pages)])
    ensures !stop ==> p' == p + 1 && page' == (if p' < |pages| then pages[p'] else []) && read == Flatten(pages[..p'])
    ensures made == [] || (made == [Next(q, p + 1, count)] && count < limit)
  {
    count, results, seen, read, items := ReadPage(pages, p, limit, key, count0, results0, seen0, prior, read0, items0);
    made := [];
    p', page', stop := p, [], true;
    if count >= limit {
      return;
    }
    if p + 1 < |pages| {
      made := [Next(q, p + 1, count)];
      p', page', stop := p + 1, pages[p + 1], false;
    } else {
      match end
      case Exhausted =>
        made := [Next(q, p + 1, count)];
        p', stop := p + 1, false;
      case NextFails =>
        made := [Next(q, p + 1, count)];
      case NoNext =>
    }
  }

  /** The posts of the non-empty page p (lines 54-78), read after the texts `read0` of
      the pages before it: all of them unless the limit stopped the loop. */
  method ReadPage(pages: seq<seq<string>>, p: nat, limit: int, key: string -> int,
                  count0: nat, results0: seq<Post>, seen0: set<int>,
                  ghost prior: seq<Item>, ghost read0: seq<string>, ghost items0: seq<Item>)
    returns (count: nat, results: seq<Post>, seen: set<int>, ghost read: seq<string>, ghost items: seq<Item>)
    requires p < FirstEmpty(pages) && read0 == Flatten(pages[..p]) && items0 == Map(Prepare, read0)
    requires count0 == |results0| && State(results0, seen0) == Collect(prior + items0, limit, key)
    ensures count == |results| && items == Map(Prepare, read)
    ensures State(results, seen) == Collect(prior + items, limit, key)
    ensures read <= Flatten(pages[..FirstEmpty(pages)])
    ensures count < limit ==> read == Flatten(pages[..p + 1])
    ensures count < limit && p + 1 == FirstEmpty(pages) ==> read == Flatten(pages[..FirstEmpty(pages)])
  {
    ghost var more;
    count, results, seen, more := TakePage(pages[p], limit, key, count0, results0, seen0, prior + items0);
    read, items := read0 + pages[p][..|more|], items0 + more;
    ReadMore(Prepare, read0, items0, pages[p][..|more|], more, prior, limit, key);
    FlattenRead(pages, p, |more|);
  }

  /** Reading more texts appends what is derived from them. */
  lemma ReadMore(f: string -> Item, read0: seq<string>, items0: seq<Item>, taken: seq<string>, more: seq<Item>,
                 prior: seq<Item>, limit: int, key: string -> int)
    requires items0 == Map(f, read0) && more == Map(f, taken)
    ensures items0 + more == Map(f, read0 + taken)
    ensures Collect(prior + (items0 + more), limit, key) == Collect(prior + items0 + more, limit, key)
  {
    assert prior + items0 + more == prior + (items0 + more);
    MapAppend(f, read0, taken);
  }

  /** The texts before page p followed by the first n posts of page p are a prefix of
      the query's posts, and all of them up to page p when n is the whole page. */
  lemma FlattenRead(pages: seq<seq<string>>, p: nat, n: nat)
    requires p < FirstEmpty(pages) && n <= |pages[p]|
    ensures Flatten(pages[..p]) + pages[p][..n] <= Flatten(pages[..FirstEmpty(pages)])
    ensures n == |pages[p]| ==> Flatten(pages[..p]) + pages[p][..n] == Flatten(pages[..p + 1])
  {
    FlattenStep(pages, p);
    FlattenPrefix(pages, p + 1, FirstEmpty(pages));
    assert n == |pages[p]| ==> pages[p][..n] == pages[p];
    assert Flatten(pages[..p]) + pages[p][..n] <= Flatten(pages[..p + 1]);
  }

  /** The `while tweets` loop of one query (lines 53-85), from its first page on. */
  method TakePages(q: nat, pages: seq<seq<string>>, end: PageEnd, limit: int, key: string -> int,
                   count0: nat, results0: seq<Post>, seen0: set<int>, ghost prior: seq<Item>)
    returns (count: nat, results: seq<Post>, seen: set<int>, ghost calls: seq<Call>,
             ghost read: seq<string>, ghost items: seq<Item>)
    requires count0 == |results0| && State(results0, seen0) == Collect(prior, limit, key)
    ensures count == |results| && read <= Flatten(pages[..FirstEmpty(pages)]) && items == Map(Prepare, read)
    ensures State(results, seen) == Collect(prior + items, limit, key)
    ensures read == Flatten(pages[..FirstEmpty(pages)]) || count >= limit
    ensures forall c :: c in calls ==> c.count < limit && c.Next?
  {
    count, results, seen, calls, read, items := count0, results0, seen0, [], [], [];
    assert prior + items == prior;
    var page := if pages == [] then [] else pages[0];
    var p := 0;
    ghost var stopped := false;  // set just before `break`; it lets the exit after the last page be proved on its own
    while page != []
      invariant !stopped
      invariant p <= FirstEmpty(pages)
      invariant page == (if p < |pages| then pages[p] else [])
      invariant count == |results|
      invariant read == Flatten(pages[..p]) && items == Map(Prepare, read)
      invariant State(results, seen) == Collect(prior + items, limit, key)
      invariant forall c :: c in calls ==> c.count < limit && c.Next?
      decreases FirstEmpty(pages) - p
    {
      var stop;
      ghost var made, p0 := [], p;
      count, results, seen, p, page, stop, made, read, items :=
        StepPage(q, pages, end, p, limit, key, count, results, seen, prior, read, items);
      NextLogged(calls, made, q, p0 + 1, count, limit);
      calls := calls + made;
      if stop {
        stopped := true;
        break;
      }
    }
    if !stopped {
      ReachedFirstEmpty(pages, p);
    }
  }

  /** The `while tweets` loop ends without a `break` exactly at the first empty page. */
  lemma ReachedFirstEmpty(pages: seq<seq<string>>, p: nat)
    requires p <= FirstEmpty(pages) && (p < |pages| ==> pages[p] == [])
    ensures p == FirstEmpty(pages)
  {
  }

  /** The page loop's log stays a log of `next()` calls made below the limit. */
  lemma NextLogged(calls: seq<Call>, made: seq<Call>, q: nat, p: nat, count: nat, limit: int)
    requires forall c :: c in calls ==> c.count < limit && c.Next?
    requires made == [] || (made == [Next(q, p, count)] && count < limit)
    ensures forall c :: c in calls + made ==> c.count < limit && c.Next?
  {
  }

  /** One query (lines 44-85), entered with fewer than `limit` posts collected: the
      search, then its pages. Reads a prefix of the query's posts, all of them unless
      the limit stopped it; every call it makes to the feed is made below the limit. */
  method TakeQuery(q: nat, feed: Feed, limit: int, key: string -> int,
                   count0: nat, results0: seq<Post>, seen0: set<int>, ghost prior: seq<Item>)
    returns (count: nat, results: seq<Post>, seen: set<int>, ghost calls: seq<Call>,
             ghost read: seq<string>, ghost items: seq<Item>)
    requires count0 == |results0| < limit && State(results0, seen0) == Collect(prior, limit, key)
    ensures count == |results| && read <= QueryPosts(feed) && items == Map(Prepare, read)
    ensures State(results, seen) == Collect(prior + items, limit, key)
    ensures read == QueryPosts(feed) || count >= limit
    ensures forall c :: c in calls ==> c.count < limit
    ensures Search(q, count0) in calls && forall c :: c in calls && c.Search? ==> c == Search(q, count0)
  {
    calls := [Search(q, count0)];
    match feed {
      case SearchFails =>
        count, results, seen, read, items := count0, results0, seen0, [], [];
        assert prior + items == prior;
      case Pages(pages, end) =>
        ghost var more;
        count, results, seen, more, read, items := TakePages(q, pages, end, limit, key, count0, results0, seen0, prior);
        calls := calls + more;
    }
  }

  /** Lines 32-85 of scrape_process: walks the queries in order and collects the
      records. Every call to the feed is made with fewer than `limit` posts collected,
      so once the limit is reached no page and no query is fetched; each query is
      searched iff fewer than `limit` records were collected before it, and the search
      reports that number. */
  method Aggregate(feeds: seq<Feed>, limit: int, key: string -> int)
    returns (results: seq<Post>, ghost calls: seq<Call>)
    ensures results == Run(Stream(feeds), limit, key).results
    ensures forall c :: c in calls ==> c.count < limit
    ensures forall q :: 0 <= q < |feeds| && CountBefore(feeds, q, limit, key) < limit ==>
      Search(q, CountBefore(feeds, q, limit, key)) in calls
    ensures forall c :: c in calls && c.Search? ==>
      c.query < |feeds| && c.count == CountBefore(feeds, c.query, limit, key)
  {
    results := [];
    var seen: set<int> := {};
    var count := 0;
    calls := [];
    ghost var done: seq<string> := [];  // the raw texts examined so far
    ghost var items: seq<Item> := [];   // and what the loop derived from them
    var q := 0;
    while q < |feeds|
      invariant 0 <= q <= |feeds|
      invariant count == |results|
      invariant items == Map(Prepare, done)
      invariant State(results, seen) == Collect(items, limit, key)
      invariant done <= Stream(feeds[..q])
      invariant done == Stream(feeds[..q]) || count >= limit
      invariant forall c :: c in calls ==> c.count < limit
      invariant forall q' :: 0 <= q' < q && CountBefore(feeds, q', limit, key) < limit ==>
        Search(q', CountBefore(feeds, q', limit, key)) in calls
      invariant forall c :: c in calls && c.Search? ==>
        c.query < q && c.count == CountBefore(feeds, c.query, limit, key)
    {
      if count >= limit {
        forall q' | q <= q' < |feeds|
          ensures CountBefore(feeds, q', limit, key) >= limit
        {
          LimitStays(Prepare, feeds, q, q', done, items, limit, key);
        }
        break;
      }
      assert count == CountBefore(feeds, q, limit, key);
      ghost var logged := calls;
      ghost var made, read, more;
      count, results, seen, made, read, more := TakeQuery(q, feeds[q], limit, key, count, results, seen, items);
      calls := calls + made;
      SearchLogged(feeds, q, limit, key, logged, made);
      SearchesExact(feeds, q, limit, key, logged, made);
      QueryRead(Prepare, feeds, q, done, items, read, more);
      done, items := done + read, items + more;
      q := q + 1;
    }
    AllRead(Prepare, feeds, q, done, items, limit, key);
  }

  /** The log after query q: its own search joins the searches of the queries before it. */
  lemma SearchLogged(feeds: seq<Feed>, q: nat, limit: int, key: string -> int, logged: seq<Call>, made: seq<Call>)
    requires q < |feeds|
    requires forall q' :: 0 <= q' < q && CountBefore(feeds, q', limit, key) < limit ==>
      Search(q', CountBefore(feeds, q', limit, key)) in logged
    requires Search(q, CountBefore(feeds, q, limit, key)) in made
    ensures forall q' :: 0 <= q' <= q && CountBefore(feeds, q', limit, key) < limit ==>
      Search(q', CountBefore(feeds, q', limit, key)) in logged + made
  {
    forall q' | 0 <= q' <= q && CountBefore(feeds, q', limit, key) < limit
      ensures Search(q', CountBefore(feeds, q', limit, key)) in logged + made
    {
      var c := Search(q', CountBefore(feeds, q', limit, key));
      if q' < q {
        assert c in logged;
      } else {
        assert c in made;
      }
    }
  }

  /** ... and every search in the log was made with the records collected before its query. */
  lemma SearchesExact(feeds: seq<Feed>, q: nat, limit: int, key: string -> int, logged: seq<Call>, made: seq<Call>)
    requires q < |feeds|
    requires forall c :: c in logged && c.Search? ==>
      c.query < q && c.count == CountBefore(feeds, c.query, limit, key)
    requires forall c :: c in made && c.Search? ==> c == Search(q, CountBefore(feeds, q, limit, key))
    ensures forall c :: c in logged + made && c.Search? ==>
      c.query <= q && c.count == CountBefore(feeds, c.query, limit, key)
  {
  }

  /** The number of records collected before query q is searched. */
  function CountBefore(feeds: seq<Feed>, q: nat, limit: int, key: string -> int): nat
    requires q <= |feeds|
  {
    |Run(Stream(feeds[..q]), limit, key).results|
  }

  /** Once the limit is reached during query q, it stays reached before every later query. */
  lemma LimitStays(f: string -> Item, feeds: seq<Feed>, q: nat, q': nat, done: seq<string>, items: seq<Item>,
                   limit: int, key: string -> int)
    requires q <= q' <= |feeds| && items == Map(f, done) && done <= Stream(feeds[..q])
    requires |Collect(items, limit, key).results| >= limit
    ensures |Collect(Map(f, Stream(feeds[..q'])), limit, key).results| >= limit
  {
    StreamGrows(feeds, q, q');
    var later := Stream(feeds[..q']);
    MapPrefixOf(f, done, later);
    SaturatedPrefix(items, Map(f, later), limit, key);
  }

  lemma StreamGrows(feeds: seq<Feed>, q: nat, q': nat)
    requires q <= q' <= |feeds|
    ensures Stream(feeds[..q]) <= Stream(feeds[..q'])
  {
    StreamPrefix(feeds[..q'], q);
    assert feeds[..q'][..q] == feeds[..q];
  }

  lemma MapPrefixOf<A, B>(f: A -> B, xs: seq<A>, ys: seq<A>)
    requires xs <= ys
    ensures Map(f, xs) <= Map(f, ys)
  {
    assert ys == xs + ys[|xs|..];
    MapAppend(f, xs, ys[|xs|..]);
  }

  lemma SaturatedPrefix(items: seq<Item>, all: seq<Item>, limit: int, key: string -> int)
    requires items <= all && |Collect(items, limit, key).results| >= limit
    ensures Collect(all, limit, key) == Collect(items, limit, key)
  {
    assert all == items + all[|items|..];
    CollectSaturated(items, all[|items|..], limit, key);
  }

  /** What one query adds to the texts of the queries before it. */
  lemma QueryRead(f: string -> Item, feeds: seq<Feed>, q: nat, done: seq<string>, items: seq<Item>,
                  read: seq<string>, more: seq<Item>)
    requires q < |feeds| && done == Stream(feeds[..q]) && items == Map(f, done)
    requires read <= QueryPosts(feeds[q]) && more == Map(f, read)
    ensures items + more == Map(f, done + read)
    ensures done + read <= Stream(feeds[..q + 1])
    ensures read == QueryPosts(feeds[q]) ==> done + read == Stream(feeds[..q + 1])
  {
    MapAppend(f, done, read);
    StreamStep(feeds, q);
  }

  /** When the loop ends, the state is that after all posts: either every query was read
      whole, or the limit was reached and the posts left unread change nothing. */
  lemma AllRead(f: string -> Item, feeds: seq<Feed>, q: nat, done: seq<string>, items: seq<Item>,
                limit: int, key: string -> int)
    requires q <= |feeds| && items == Map(f, done) && done <= Stream(feeds[..q])
    requires q == |feeds| || |Collect(items, limit, key).results| >= limit
    requires done == Stream(feeds[..q]) || |Collect(items, limit, key).results| >= limit
    ensures Collect(items, limit, key) == Collect(Map(f, Stream(feeds)), limit, key)
  {
    if |Collect(items, limit, key).results| >= limit {
      StreamPrefix(feeds, q);
      var all := Stream(feeds);
      MapPrefixOf(f, done, all);
      SaturatedPrefix(items, Map(f, all), limit, key);
    } else {
      assert feeds[..q] == feeds;
    }
  }

  lemma StreamStep(feeds: seq<Feed>, q: nat)
    requires q < |feeds|
    ensures Stream(feeds[..q + 1]) == Stream(feeds[..q]) + QueryPosts(feeds[q])
  {
    assert feeds[..q + 1][..q] == feeds[..q];
  }

  lemma {:induction false} FlattenPrefix(pages: seq<seq<string>>, j: nat, k: nat)
    requires j <= k <= |pages|
    ensures Flatten(pages[..j]) <= Flatten(pages[..k])
    decreases k
  {
    if j < k {
      FlattenPrefix(pages, j, k - 1);
      assert pages[..k][..k - 1] == pages[..k - 1];
    }
  }

  lemma {:induction false} StreamPrefix(feeds: seq<Feed>, q: nat)
    requires q <= |feeds|
    ensures Stream(feeds[..q]) <= Stream(feeds)
    decreases |feeds| - q
  {
    if q < |feeds| {
      StreamPrefix(feeds, q + 1);
      assert feeds[..q + 1][..q] == feeds[..q];
    } else {
      assert feeds[..q] == feeds;
    }
  }

  // ---------------------------------------------------------------------------------
  // What the collected results satisfy

  /** Once the limit is reached, the remaining posts change nothing: no later post is
      added, however many queries and pages are left. */
  lemma {:induction false} CollectSaturated(xs: seq<Item>, ys: seq<Item>, limit: int, key: string -> int)
    requires |Collect(xs, limit, key).results| >= limit
    ensures Collect(xs + ys, limit, key) == Collect(xs, limit, key)
    decreases |ys|
  {
    if ys == [] {
      assert xs + ys == xs;
    } else {
      var ys' := ys[..|ys| - 1];
      CollectSaturated(xs, ys', limit, key);
      assert (xs + ys)[..|xs + ys| - 1] == xs + ys';
    }
  }

  /** Results are only ever appended: the state after a prefix of the posts is a prefix
      of the state after more of them, and the seen keys only grow. */
  lemma {:induction false} CollectMonotone(items: seq<Item>, j: nat, k: nat, limit: int, key: string -> int)
    requires j <= k <= |items|
    ensures Collect(items[..j], limit, key).results <= Collect(items[..k], limit, key).results
    ensures Collect(items[..j], limit, key).seen <= Collect(items[..k], limit, key).seen
    decreases k
  {
    if j < k {
      CollectMonotone(items, j, k - 1, limit, key);
      assert items[..k][..k - 1] == items[..k - 1];
    }
  }

  /** The shape every collected state keeps. */
  ghost predicate Consistent(st: State, key: string -> int) {
    && (forall i :: 0 <= i < |st.results| ==> st.results[i].postNo == Decimal(i + 1))
    && (forall i :: 0 <= i < |st.results| ==> Qualifies(st.results[i].myPost))
    && st.seen == (set i | 0 <= i < |st.results| :: key(st.results[i].myPost))
    && (forall i, j :: 0 <= i < j < |st.results| ==> key(st.results[i].myPost) != key(st.results[j].myPost))
  }

  /** One post keeps the shape: the count stays within the limit, the new record (if
      any) is numbered after the others, passes the filter and brings a new key. */
  lemma AcceptConsistent(st: State, it: Item, limit: int, key: string -> int)
    requires Consistent(st, key) && (|st.results| <= limit || st.results == [])
    ensures var st' := Accept(st, it, limit, key);
      Consistent(st', key) && (|st'.results| <= limit || st'.results == [])
  {
    var st' := Accept(st, it, limit, key);
    if st' != st {
      var n := |st.results|;
      var k := key(it.clean);
      assert st'.results == st.results + [Post(Decimal(n + 1), it.clean, it.tags)];
      assert st'.seen == (set i | 0 <= i < n + 1 :: key(st'.results[i].myPost)) by {
        forall h | h in st'.seen ensures h in (set i | 0 <= i < n + 1 :: key(st'.results[i].myPost)) {
          if h != k {
            var i :| 0 <= i < n && key(st.results[i].myPost) == h;
            assert key(st'.results[i].myPost) == h;
          } else {
            assert key(st'.results[n].myPost) == h;
          }
        }
        forall i | 0 <= i < n + 1 ensures key(st'.results[i].myPost) in st'.seen {
          if i < n {
            assert st'.results[i] == st.results[i];
            assert key(st.results[i].myPost) in (set i | 0 <= i < n :: key(st.results[i].myPost));
          }
        }
      }
    }
  }

  lemma CollectLast(items: seq<Item>, limit: int, key: string -> int)
    requires items != []
    ensures Collect(items, limit, key)
         == Accept(Collect(items[..|items| - 1], limit, key), items[|items| - 1], limit, key)
  {
  }

  /** The count never exceeds the limit (and nothing is collected with a limit below 1);
      record i carries PostNo str(i+1); every MyPost passes the quality filter; the seen
      keys are exactly the keys of the records, and no two records share a key. */
  lemma {:induction false} CollectConsistent(items: seq<Item>, limit: int, key: string -> int)
    ensures var st := Collect(items, limit, key);
      && (|st.results| <= limit || st.results == [])
      && Consistent(st, key)
    decreases |items|
  {
    if items != [] {
      CollectConsistent(items[..|items| - 1], limit, key);
      CollectLast(items, limit, key);
      AcceptConsistent(Collect(items[..|items| - 1], limit, key), items[|items| - 1], limit, key);
    }
  }

  /** No qualifying post is lost below the limit: a post read while fewer than `limit`
      records were collected ends up with its key among the seen keys — it was added,
      or an earlier record has the same key. */
  lemma CollectComplete(items: seq<Item>, j: nat, limit: int, key: string -> int)
    requires j < |items| && Qualifies(items[j].clean)
    requires |Collect(items[..j], limit, key).results| < limit
    ensures key(items[j].clean) in Collect(items, limit, key).seen
  {
    CollectLast(items[..j + 1], limit, key);
    assert items[..j + 1][..j] == items[..j];
    CollectMonotone(items, j + 1, |items|, limit, key);
    assert items[..|items|] == items;
  }

  /** The same, as a record: some record carries the post's key. */
  lemma CollectFound(items: seq<Item>, j: nat, limit: int, key: string -> int)
    requires j < |items| && Qualifies(items[j].clean)
    requires |Collect(items[..j], limit, key).results| < limit
    ensures exists i :: (0 <= i < |Collect(items, limit, key).results|
      && key(Collect(items, limit, key).results[i].myPost) == key(items[j].clean))
  {
    CollectComplete(items, j, limit, key);
    CollectConsistent(items, limit, key);
  }

  /** Where record i comes from: the post j whose cleaned text and tags it carries,
      taken when i records were collected, with no earlier qualifying post of the same
      key (the first occurrence wins). */
  ghost predicate IsOrigin(items: seq<Item>, i: nat, j: nat, limit: int, key: string -> int)
    requires i < |Collect(items, limit, key).results| && j < |items|
  {
    && Collect(items, limit, key).results[i] == Post(Decimal(i + 1), items[j].clean, items[j].tags)
    && |Collect(items[..j], limit, key).results| == i
    && forall j' :: 0 <= j' < j && Qualifies(items[j'].clean) ==> key(items[j'].clean) != key(items[j].clean)
  }

  /** Every record comes from a post: the first qualifying one with its key. */
  lemma {:induction false} CollectOrigin(items: seq<Item>, i: nat, limit: int, key: string -> int)
    requires i < |Collect(items, limit, key).results|
    ensures exists j :: 0 <= j < |items| && IsOrigin(items, i, j, limit, key)
    decreases |items|
  {
    var n := |items| - 1;
    var init := items[..n];
    CollectLast(items, limit, key);
    if i < |Collect(init, limit, key).results| {
      CollectOrigin(init, i, limit, key);
      var j :| 0 <= j < n && IsOrigin(init, i, j, limit, key);
      OriginCarried(items, i, j, limit, key);
    } else {
      OriginNew(items, i, limit, key);
    }
  }

  /** A record already there before the last post keeps its origin. */
  lemma OriginCarried(items: seq<Item>, i: nat, j: nat, limit: int, key: string -> int)
    requires items != [] && j < |items| - 1
    requires i < |Collect(items[..|items| - 1], limit, key).results|
    requires IsOrigin(items[..|items| - 1], i, j, limit, key)
    ensures i < |Collect(items, limit, key).results| && IsOrigin(items, i, j, limit, key)
  {
    var init := items[..|items| - 1];
    KeepRecord(items, i, limit, key);
    assert init[..j] == items[..j];
    assert forall j' :: 0 <= j' <= j ==> init[j'] == items[j'];
  }

  /** The last post leaves the earlier records where they are. */
  lemma KeepRecord(items: seq<Item>, i: nat, limit: int, key: string -> int)
    requires items != [] && i < |Collect(items[..|items| - 1], limit, key).results|
    ensures var st := Collect(items, limit, key);
      i < |st.results| && st.results[i] == Collect(items[..|items| - 1], limit, key).results[i]
  {
    var n := |items| - 1;
    CollectMonotone(items, n, n + 1, limit, key);
    assert items[..n + 1] == items;
  }

  /** A record added by the last post has that post as its origin: its key was not seen,
      so no earlier qualifying post read below the limit had it. */
  lemma OriginNew(items: seq<Item>, i: nat, limit: int, key: string -> int)
    requires items != [] && i < |Collect(items, limit, key).results|
    requires i >= |Collect(items[..|items| - 1], limit, key).results|
    ensures IsOrigin(items, i, |items| - 1, limit, key)
  {
    var n := |items| - 1;
    var init := items[..n];
    var prev := Collect(init, limit, key);
    var it := items[n];
    CollectLast(items, limit, key);
    assert |prev.results| < limit && Qualifies(it.clean) && key(it.clean) !in prev.seen;
    forall j' | 0 <= j' < n && Qualifies(items[j'].clean)
      ensures key(items[j'].clean) != key(it.clean)
    {
      EarlierKeySeen(init, j', limit, key);
    }
  }

  /** A qualifying post read while the final count is below the limit has its key seen. */
  lemma EarlierKeySeen(items: seq<Item>, j: nat, limit: int, key: string -> int)
    requires j < |items| && Qualifies(items[j].clean)
    requires |Collect(items, limit, key).results| < limit
    ensures key(items[j].clean) in Collect(items, limit, key).seen
  {
    CollectMonotone(items, j, |items|, limit, key);
    assert items[..|items|] == items;
    CollectComplete(items, j, limit, key);
  }

  lemma {:induction false} MapAt<A, B>(f: A -> B, xs: seq<A>, k: nat)
    requires k < |xs|
    ensures Map(f, xs)[k] == f(xs[k])
    decreases |xs|
  {
    if k < |xs| - 1 {
      MapAt(f, xs[..|xs| - 1], k);
    }
  }

  lemma MapPrefix<A, B>(f: A -> B, xs: seq<A>, j: nat)
    requires j <= |xs|
    ensures Map(f, xs[..j]) == Map(f, xs)[..j]
  {
    var a, b := Map(f, xs[..j]), Map(f, xs[j..]);
    MapAppend(f, xs[..j], xs[j..]);
    assert xs[..j] + xs[j..] == xs;
    assert Map(f, xs) == a + b;
    assert (a + b)[..|a|] == a;
  }

  /** Every record is one of the posts read, cleaned and with the hashtags of its raw
      text, numbered by its position, and no earlier post that passed the filter had
      the same key: of several posts with one key, the first is kept. */
  lemma RunOrigin(posts: seq<string>, i: nat, limit: int, key: string -> int)
    requires i < |Run(posts, limit, key).results|
    ensures exists j :: (0 <= j < |posts|
      && Run(posts, limit, key).results[i] == Post(Decimal(i + 1), Clean(posts[j]), Tags(posts[j]))
      && forall j' :: 0 <= j' < j && Qualifies(Clean(posts[j'])) ==> key(Clean(posts[j'])) != key(Clean(posts[j])))
  {
    var items := Map(Prepare, posts);
    CollectOrigin(items, i, limit, key);
    var j :| 0 <= j < |items| && IsOrigin(items, i, j, limit, key);
    MapAt(Prepare, posts, j);
    forall j' | 0 <= j' < j ensures items[j'] == Prepare(posts[j']) {
      MapAt(Prepare, posts, j');
    }
  }

  /** No post that passes the filter is lost while fewer than `limit` records are
      collected: it is among the records, or a record with the same key is. */
  lemma RunComplete(posts: seq<string>, j: nat, limit: int, key: string -> int)
    requires j < |posts| && Qualifies(Clean(posts[j]))
    requires |Run(posts[..j], limit, key).results| < limit
    ensures exists i :: (0 <= i < |Run(posts, limit, key).results|
      && key(Run(posts, limit, key).results[i].myPost) == key(Clean(posts[j])))
  {
    var items := Map(Prepare, posts);
    MapPrefix(Prepare, posts, j);
    MapAt(Prepare, posts, j);
    CollectFound(items, j, limit, key);
    var st := Collect(items, limit, key);
    var i :| 0 <= i < |st.results| && key(st.results[i].myPost) == key(items[j].clean);
    assert st == Run(posts, limit, key);
  }
}

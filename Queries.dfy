/** The query list: `[q.strip() for q in query_text.split('\n') if q.strip()]`. */
module Queries {
  import opened Text

  /** The results of `f` on each element of `xs`, concatenated in order. */
  function FlatMap<A, B>(f: A -> seq<B>, xs: seq<A>): (ys: seq<B>)
    decreases |xs|
  {
    if xs == [] then [] else f(xs[0]) + FlatMap(f, xs[1..])
  }

  /** What one line contributes: its stripped text, unless that is empty. */
  function Kept(line: string): (qs: seq<string>)
    ensures |qs| <= 1
  {
    var q := Strip(line);
    if q != [] then [q] else []
  }

  function SplitQueries(text: string): seq<string> {
    FlatMap(Kept, Split(text, '\n'))
  }

  /** A query is one non-empty line with no whitespace at either end. */
  predicate IsQuery(q: string) {
    q != [] && !IsSpace(q[0]) && !IsSpace(q[|q| - 1]) && '\n' !in q
  }

  /** Everything in a concatenation comes from one of the elements. */
  lemma {:induction false} FlatMapMember<A, B>(f: A -> seq<B>, xs: seq<A>, y: B)
    requires y in FlatMap(f, xs)
    ensures exists k :: 0 <= k < |xs| && y in f(xs[k])
    decreases |xs|
  {
    if y !in f(xs[0]) {
      FlatMapMember(f, xs[1..], y);
      var k :| 0 <= k < |xs[1..]| && y in f(xs[1..][k]);
      assert y in f(xs[k + 1]);
    }
  }

  /** A line without a newline contributes at most one query, and that one is a query. */
  lemma KeptIsQuery(line: string)
    requires '\n' !in line
    ensures forall q :: q in Kept(line) ==> IsQuery(q)
  {
    StripRemovesSpace(line);
    var q := Strip(line);
    assert forall c :: c in q ==> c in line;
  }

  /** Every query is non-empty, trimmed and a single line. */
  lemma EveryQueryIsTrimmedLine(text: string)
    ensures forall q :: q in SplitQueries(text) ==> IsQuery(q)
  {
    var lines := Split(text, '\n');
    SplitPieces(text, '\n');
    forall q | q in SplitQueries(text)
      ensures IsQuery(q)
    {
      FlatMapMember(Kept, lines, q);
      var k :| 0 <= k < |lines| && q in Kept(lines[k]);
      KeptIsQuery(lines[k]);
    }
  }

  lemma {:induction false} FlatMapDistributes<A, B>(f: A -> seq<B>, a: seq<A>, b: seq<A>)
    ensures FlatMap(f, a + b) == FlatMap(f, a) + FlatMap(f, b)
    decreases |a|
  {
    if a == [] {
      assert a + b == b;
    } else {
      assert (a + b)[1..] == a[1..] + b;
      FlatMapDistributes(f, a[1..], b);
    }
  }

  lemma {:induction false} SplitAtSeparator(a: string, b: string)
    ensures Split(a + "\n" + b, '\n') == Split(a, '\n') + Split(b, '\n')
    decreases |a|
  {
    if '\n' !in a {
      SplitAtLastLine(a, b);
    } else {
      var i := IndexOf(a, '\n');
      SplitAtSeparator(a[i + 1..], b);
      SplitAtFirstLine(a, b, i);
    }
  }

  lemma SplitAtLastLine(a: string, b: string)
    requires '\n' !in a
    ensures Split(a + "\n" + b, '\n') == Split(a, '\n') + Split(b, '\n')
  {
    SplitAt(a, '\n', b);
    SplitWhole(a, '\n');
  }

  lemma SplitAtFirstLine(a: string, b: string, i: nat)
    requires i < |a| && a[i] == '\n' && '\n' !in a[..i]
    requires Split(a[i + 1..] + "\n" + b, '\n') == Split(a[i + 1..], '\n') + Split(b, '\n')
    ensures Split(a + "\n" + b, '\n') == Split(a, '\n') + Split(b, '\n')
  {
    var pre, mid := a[..i], a[i + 1..];
    var rest, tail := Split(mid, '\n'), Split(b, '\n');
    calc {
      Split(a + "\n" + b, '\n');
    == { CutAt(a, i, '\n', b); }
      Split(pre + "\n" + (mid + "\n" + b), '\n');
    == { SplitAt(pre, '\n', mid + "\n" + b); }
      [pre] + (rest + tail);
    == { assert [pre] + (rest + tail) == ([pre] + rest) + tail; }
      ([pre] + rest) + tail;
    == { CutAt(a, i, '\n', b); SplitAt(pre, '\n', mid); }
      Split(a, '\n') + tail;
    }
  }

  /** Cutting `a` around its element `x` at `i`, alone and followed by `x` and `b`. */
  lemma CutAt<T>(a: seq<T>, i: nat, x: T, b: seq<T>)
    requires i < |a| && a[i] == x
    ensures a == a[..i] + [x] + a[i + 1..]
    ensures a + [x] + b == a[..i] + [x] + (a[i + 1..] + [x] + b)
  {
    assert a == a[..i] + [x] + a[i + 1..];
  }

  /** Lines keep their order: the queries of two blocks of text, one after the other,
      are the queries of the first followed by those of the second. */
  lemma QueriesOfConcatenation(a: string, b: string)
    ensures SplitQueries(a + "\n" + b) == SplitQueries(a) + SplitQueries(b)
  {
    SplitAtSeparator(a, b);
    FlatMapDistributes(Kept, Split(a, '\n'), Split(b, '\n'));
  }

  /** One line gives its stripped self as the only query, or nothing when it is blank. */
  lemma QueriesOfOneLine(line: string)
    requires '\n' !in line
    ensures SplitQueries(line) == if Strip(line) == [] then [] else [Strip(line)]
  {
    SplitWhole(line, '\n');
    assert FlatMap(Kept, [line]) == Kept(line) + FlatMap(Kept, []);
  }
}

/** The Python string built-ins that app.py relies on: character classes of the
    `re` module, str.strip(), str.split(), str.join() and str() of a count. */
module Text {

  /** str.isspace(): the characters that `\s`, `\S` and str.strip() treat as whitespace. */
  predicate IsSpace(c: char) {
    || c == ' '
    || ('\t' <= c <= '\r')
    || ('\U{1C}' <= c <= '\U{1F}')
    || c == '\U{85}' || c == '\U{A0}' || c == '\U{1680}'
    || ('\U{2000}' <= c <= '\U{200A}')
    || c == '\U{2028}' || c == '\U{2029}' || c == '\U{202F}' || c == '\U{205F}' || c == '\U{3000}'
  }

  predicate IsNonSpace(c: char) {
    !IsSpace(c)
  }

  /** `\w`: letters, digits and the underscore (ASCII, the Latin-1 letters and the
      letters and digits of the Arabic block U+0600–U+06FF; other characters are not classified). */
  predicate IsWordChar(c: char) {
    || ('a' <= c <= 'z') || ('A' <= c <= 'Z') || ('0' <= c <= '9') || c == '_'
    || c == '\U{AA}' || c == '\U{B5}' || c == '\U{BA}'
    || ('\U{C0}' <= c <= '\U{D6}') || ('\U{D8}' <= c <= '\U{F6}') || ('\U{F8}' <= c <= '\U{FF}')
    || ('\U{620}' <= c <= '\U{64A}') || ('\U{660}' <= c <= '\U{669}')
    || c == '\U{66E}' || c == '\U{66F}' || ('\U{671}' <= c <= '\U{6D3}') || c == '\U{6D5}'
    || c == '\U{6E5}' || c == '\U{6E6}' || ('\U{6EE}' <= c <= '\U{6FC}') || c == '\U{6FF}'
  }

  /** The characters the regular expressions and the cleaning rely on being outside `\w`. */
  lemma PunctuationIsNotWord()
    ensures !IsWordChar('#') && !IsWordChar('@') && !IsWordChar(' ') && !IsWordChar('\t')
  {
  }

  predicate AllSpace(s: string) {
    forall k :: 0 <= k < |s| ==> IsSpace(s[k])
  }

  /** Length of the longest prefix of `s` made only of characters of the class `inClass`
      (the greedy `+`/`*` of a regular expression over one character class). */
  function Span(s: string, inClass: char -> bool): (n: nat)
    ensures n <= |s|
    ensures forall k :: 0 <= k < n ==> inClass(s[k])
    ensures n < |s| ==> !inClass(s[n])
    decreases |s|
  {
    if s == [] || !inClass(s[0]) then 0 else 1 + Span(s[1..], inClass)
  }

  /** Length of the match of `lead` followed by one or more characters of `inClass` at the
      start of `s`, or 0 when there is none. */
  function LeadThenSpan(lead: string, inClass: char -> bool, s: string): (n: nat)
    ensures n <= |s|
    ensures n > 0 ==> |lead| < n && lead <= s && n == |lead| + Span(s[|lead|..], inClass)
    ensures n == 0 ==> !(lead <= s) || Span(s[|lead|..], inClass) == 0
  {
    if lead <= s then
      var w := Span(s[|lead|..], inClass);
      if w == 0 then 0 else |lead| + w
    else 0
  }

  /** Number of whitespace characters at the end of `s`. */
  function TrailingSpace(s: string): (n: nat)
    ensures n <= |s|
    ensures forall k :: |s| - n <= k < |s| ==> IsSpace(s[k])
    ensures n < |s| ==> !IsSpace(s[|s| - n - 1])
    decreases |s|
  {
    if s == [] || !IsSpace(s[|s| - 1]) then 0 else 1 + TrailingSpace(s[..|s| - 1])
  }

  /** Where str.strip() starts: after the leading whitespace. */
  function StripStart(s: string): (i: nat)
    ensures i <= |s|
  {
    Span(s, IsSpace)
  }

  /** Where str.strip() ends: before the trailing whitespace of what follows the start. */
  function StripEnd(s: string): (j: nat)
    ensures StripStart(s) <= j <= |s|
  {
    |s| - TrailingSpace(s[StripStart(s)..])
  }

  /** str.strip(): `s` without the whitespace at both ends. */
  function Strip(s: string): (r: string)
    ensures |r| <= |s|
  {
    s[StripStart(s)..StripEnd(s)]
  }

  /** What strip() removes on either side is whitespace, and what it keeps neither
      starts nor ends with whitespace: it removes exactly the whitespace at the ends. */
  lemma StripRemovesSpace(s: string)
    ensures AllSpace(s[..StripStart(s)]) && AllSpace(s[StripEnd(s)..])
    ensures Strip(s) == [] || (!IsSpace(Strip(s)[0]) && !IsSpace(Strip(s)[|Strip(s)| - 1]))
  {
    var i, j := StripStart(s), StripEnd(s);
    var t := s[i..];
    var n := TrailingSpace(t);
    assert forall k :: 0 <= k < i ==> s[..i][k] == s[k];
    assert forall k :: 0 <= k < |s| - j ==> s[j..][k] == t[|t| - n + k];
    if i < j {
      assert Strip(s)[0] == s[i];
      assert Strip(s)[|Strip(s)| - 1] == t[|t| - n - 1];
    }
  }

  /** Index of the first `c` in `s`. */
  function IndexOf(s: string, c: char): (i: nat)
    requires c in s
    ensures i < |s| && s[i] == c && c !in s[..i]
    decreases |s|
  {
    if s[0] == c then 0 else 1 + IndexOf(s[1..], c)
  }

  /** str.split(sep) for a one-character separator: the pieces between separators,
      in order; an empty string gives one empty piece. */
  function Split(s: string, sep: char): (pieces: seq<string>)
    ensures |pieces| >= 1
    decreases |s|
  {
    if sep !in s then [s]
    else
      var i := IndexOf(s, sep);
      [s[..i]] + Split(s[i + 1..], sep)
  }

  /** No piece holds the separator. */
  lemma {:induction false} SplitPieces(s: string, sep: char)
    ensures forall k :: 0 <= k < |Split(s, sep)| ==> sep !in Split(s, sep)[k]
    decreases |s|
  {
    if sep in s {
      var i := IndexOf(s, sep);
      SplitPieces(s[i + 1..], sep);
    }
  }

  /** Splitting at the first separator: the piece before it, then the split of the rest. */
  lemma SplitAt(pre: string, sep: char, post: string)
    requires sep !in pre
    ensures Split(pre + [sep] + post, sep) == [pre] + Split(post, sep)
  {
    var s := pre + [sep] + post;
    IndexAfterPiece(pre, sep, post);
    assert s[..|pre|] == pre && s[|pre| + 1..] == post;
  }

  /** A string with no separator is one piece. */
  lemma SplitWhole(s: string, sep: char)
    requires sep !in s
    ensures Split(s, sep) == [s]
  {
  }

  /** sep.join(xs). */
  function Join(sep: string, xs: seq<string>): string
    decreases |xs|
  {
    if xs == [] then []
    else if |xs| == 1 then xs[0]
    else xs[0] + sep + Join(sep, xs[1..])
  }

  /** Joining the pieces with the separator gives back the split string. */
  lemma {:induction false} JoinSplit(s: string, sep: char)
    ensures Join([sep], Split(s, sep)) == s
    decreases |s|
  {
    if sep in s {
      var i := IndexOf(s, sep);
      var pre, tail := s[..i], s[i + 1..];
      var rest := Split(tail, sep);
      assert |rest| >= 1;
      calc {
        Join([sep], Split(s, sep));
      == { assert s == pre + [sep] + tail; SplitAt(pre, sep, tail); }
        Join([sep], [pre] + rest);
      == { assert ([pre] + rest)[0] == pre && ([pre] + rest)[1..] == rest; }
        pre + [sep] + Join([sep], rest);
      == { JoinSplit(tail, sep); }
        pre + [sep] + tail;
      == { assert s == pre + [sep] + tail; }
        s;
      }
    }
  }

  /** Splitting pieces that hold no separator, once joined, gives back the pieces. */
  lemma {:induction false} SplitJoin(xs: seq<string>, sep: char)
    requires |xs| >= 1
    requires forall k :: 0 <= k < |xs| ==> sep !in xs[k]
    ensures Split(Join([sep], xs), sep) == xs
    decreases |xs|
  {
    if |xs| > 1 {
      var tail := Join([sep], xs[1..]);
      var s := xs[0] + [sep] + tail;
      assert Join([sep], xs) == s;
      assert sep in s by { assert s[|xs[0]|] == sep; }
      IndexAfterPiece(xs[0], sep, tail);
      assert s[..|xs[0]|] == xs[0];
      assert s[|xs[0]| + 1..] == tail;
      SplitJoin(xs[1..], sep);
    }
  }

  lemma IndexAfterPiece(a: string, c: char, b: string)
    requires c !in a
    ensures c in a + [c] + b && IndexOf(a + [c] + b, c) == |a|
  {
    var s := a + [c] + b;
    assert s[|a|] == c;
    assert s[..|a|] == a;
  }

  /** The character of a decimal digit. */
  function Digit(d: nat): (c: char)
    requires d < 10
    ensures '0' <= c <= '9' && c as int - '0' as int == d
  {
    ('0' as int + d) as char
  }

  predicate AllDigits(s: string) {
    forall k :: 0 <= k < |s| ==> '0' <= s[k] <= '9'
  }

  /** str(n) for a natural number: its decimal digits, with no leading zero. */
  function Decimal(n: nat): (r: string)
    ensures r != [] && AllDigits(r)
    ensures r[0] == '0' ==> n == 0
    decreases n
  {
    if n < 10 then [Digit(n)] else Decimal(n / 10) + [Digit(n % 10)]
  }

  /** int(s) for a string of decimal digits. */
  function ParseDecimal(s: string): nat
    requires AllDigits(s)
    decreases |s|
  {
    if s == [] then 0 else 10 * ParseDecimal(s[..|s| - 1]) + (s[|s| - 1] as int - '0' as int)
  }

  /** str() of a count reads back as that count, so distinct counts give distinct numbers. */
  lemma {:induction false} DecimalRoundTrip(n: nat)
    ensures ParseDecimal(Decimal(n)) == n
    decreases n
  {
    if n >= 10 {
      var r := Decimal(n);
      DecimalRoundTrip(n / 10);
      assert r[..|r| - 1] == Decimal(n / 10);
    }
  }

  /** Distinct counts are written differently. */
  lemma DecimalInjective(m: nat, n: nat)
    requires m != n
    ensures Decimal(m) != Decimal(n)
  {
    DecimalRoundTrip(m);
    DecimalRoundTrip(n);
  }
}

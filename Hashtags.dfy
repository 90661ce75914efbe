/** extract_hashtags: `re.findall(r'#\w+', text)`. */
module Hashtags {
  import opened Text

  /** Length of the `#\w+` match at the start of `s`, or 0 when there is none. */
  function TagLen(s: string): (n: nat)
    ensures n <= |s|
  {
    LeadThenSpan("#", IsWordChar, s)
  }

  /** findall: scan left to right; a match is taken whole (greedy) and the scan resumes
      after it, so matches never overlap; duplicates are kept. */
  function ExtractHashtags(s: string): (tags: seq<string>)
    decreases |s|
  {
    if s == [] then []
    else
      var n := TagLen(s);
      if n == 0 then ExtractHashtags(s[1..]) else [s[..n]] + ExtractHashtags(s[n..])
  }

  /** A hashtag: `#` followed by one or more word characters. */
  predicate IsTag(t: string) {
    |t| >= 2 && t[0] == '#' && forall k :: 1 <= k < |t| ==> IsWordChar(t[k])
  }

  /** Reference definition by position: every `#` of `s` that is followed by a word
      character opens a tag, which runs to the last of the word characters after it. */
  function TagsAt(s: string): seq<string>
    decreases |s|
  {
    if s == [] then []
    else (if TagLen(s) > 0 then [s[..TagLen(s)]] else []) + TagsAt(s[1..])
  }

  /** Word characters hold no `#`, so no tag opens inside a run of them. */
  lemma {:induction false} NoTagInsideWord(s: string, m: nat)
    requires m <= |s|
    requires forall k :: 0 <= k < m ==> IsWordChar(s[k])
    ensures TagsAt(s) == TagsAt(s[m..])
    decreases m
  {
    PunctuationIsNotWord();
    if m > 0 {
      assert !("#" <= s) by { assert s[0] != '#'; assert s[..1][0] == s[0]; }
      NoTagInsideWord(s[1..], m - 1);
      assert s[1..][m - 1..] == s[m..];
    }
  }

  /** The scan finds exactly the tags of the reference: one per `#` followed by a word
      character, in order of appearance, each as long as the word after it. */
  lemma {:induction false} ExtractFindsEveryTag(s: string)
    ensures ExtractHashtags(s) == TagsAt(s)
    decreases |s|
  {
    if s != [] {
      var n := TagLen(s);
      if n == 0 {
        ExtractFindsEveryTag(s[1..]);
      } else {
        ExtractFindsEveryTag(s[n..]);
        NoTagInsideWord(s[1..], n - 1);
        assert s[1..][n - 1..] == s[n..];
      }
    }
  }

  /** Every extracted tag starts with `#`, has at least one word character after it and
      is a piece of the text. */
  lemma {:induction false} ExtractedAreTags(s: string)
    ensures forall t :: t in ExtractHashtags(s) ==> IsTag(t) && |t| <= |s|
    decreases |s|
  {
    if s != [] {
      var n := TagLen(s);
      if n == 0 {
        ExtractedAreTags(s[1..]);
      } else {
        ExtractedAreTags(s[n..]);
        var t := s[..n];
        assert t[0] == '#' && forall k :: 1 <= k < n ==> t[k] == s[1..][k - 1];
      }
    }
  }

  /** Text with no `#` carries no tags. */
  lemma {:induction false} NoHashNoTags(s: string)
    requires '#' !in s
    ensures ExtractHashtags(s) == []
    decreases |s|
  {
    if s != [] {
      assert TagLen(s) == 0 by { assert s[0] != '#'; }
      NoHashNoTags(s[1..]);
    }
  }

  /** The tags are read from every position, links included: "www.x#t" has the tag "#t". */
  lemma TagInLinkExample()
    ensures ExtractHashtags("www.x#t") == ["#t"]
  {
    var t := "#t";
    assert t[..1] == "#" && t[1..] == "t" && "t"[1..] == [];
    assert Span("t", IsWordChar) == 1;
    assert TagLen(t) == 2 && t[..2] == t && t[2..] == [];
    assert ExtractHashtags(t) == [t];
    var s := "www.x#t";
    assert s[5..] == t;
    assert forall k :: 0 <= k < 5 ==> s[k..][0] != '#' && s[k..][1..] == s[k + 1..];
    assert forall k :: 0 <= k < 5 ==> !("#" <= s[k..]);
  }
}

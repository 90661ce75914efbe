/** clean_tweet_content: four `re.sub` rewrites applied in a fixed order, then strip(). */
module Normalizer {
  import opened Text

  /** The four rewrites, in the order they run. */
  datatype Rewrite =
    | Links     // `https?://\S+`  removed
    | WwwLinks  // `www\.\S+`      removed
    | Mentions  // `@\w+`          removed
    | Blanks    // `[ \t]+`        replaced by one space

  predicate IsBlank(c: char) {
    c == ' ' || c == '\t'
  }

  /** Length of the match of the rewrite's pattern anchored at the start of `s`
      (greedy, as `re` finds it), or 0 when the pattern does not match there. */
  function MatchLen(p: Rewrite, s: string): (n: nat)
    ensures n <= |s|
  {
    match p
    case Links =>
      // `s?` is tried with the `s` first; without it `://` would have to start
      // where the `s` stands, so the two alternatives never both apply.
      if "https://" <= s then LeadThenSpan("https://", IsNonSpace, s)
      else LeadThenSpan("http://", IsNonSpace, s)
    case WwwLinks => LeadThenSpan("www.", IsNonSpace, s)
    case Mentions => LeadThenSpan("@", IsWordChar, s)
    case Blanks => Span(s, IsBlank)
  }

  function Replacement(p: Rewrite): string {
    if p == Blanks then " " else ""
  }

  /** re.sub: scan left to right; where the pattern matches, emit the replacement and
      resume after the match, otherwise copy one character and move on. */
  function Sub(p: Rewrite, s: string): (r: string)
    ensures |r| <= |s|
    decreases |s|
  {
    if s == [] then []
    else
      var n := MatchLen(p, s);
      if n == 0 then [s[0]] + Sub(p, s[1..])
      else Replacement(p) + Sub(p, s[n..])
  }

  /** clean_tweet_content: never longer than the raw text. */
  function Clean(text: string): (r: string)
    ensures |r| <= |text|
  {
    Strip(Sub(Blanks, Sub(Mentions, Sub(WwwLinks, Sub(Links, text)))))
  }

  /** The cleaned post has no whitespace at either end. */
  lemma CleanTrimmed(text: string)
    ensures var r := Clean(text); r == [] || (!IsSpace(r[0]) && !IsSpace(r[|r| - 1]))
  {
    var c := Sub(Blanks, Sub(Mentions, Sub(WwwLinks, Sub(Links, text))));
    StripRemovesSpace(c);
    assert Clean(text) == Strip(c);
  }

  predicate NoTab(s: string) {
    forall k :: 0 <= k < |s| ==> s[k] != '\t'
  }

  predicate NoDoubleSpace(s: string) {
    forall k :: 0 <= k < |s| - 1 ==> !(s[k] == ' ' && s[k + 1] == ' ')
  }

  /** No `@` is immediately followed by a word character. */
  predicate NoMention(s: string) {
    forall k :: 0 <= k < |s| - 1 ==> !(s[k] == '@' && IsWordChar(s[k + 1]))
  }

  /** Collapsing blanks leaves no tab and no two spaces in a row; its first character
      is a space exactly when the input starts with a blank, and is copied otherwise. */
  lemma {:induction false} CollapseShape(s: string)
    ensures var r := Sub(Blanks, s);
      && NoTab(r) && NoDoubleSpace(r)
      && (s != [] ==> r != [] && r[0] == (if IsBlank(s[0]) then ' ' else s[0]))
    decreases |s|
  {
    if s != [] {
      var n := MatchLen(Blanks, s);
      if n == 0 {
        CollapseShape(s[1..]);
      } else {
        CollapseShape(s[n..]);
      }
    }
  }

  /** After the mention rewrite no `@` is followed by a word character, and an input that
      does not start with a word character gives an output that does not either. */
  lemma {:induction false} MentionsGone(s: string)
    ensures var r := Sub(Mentions, s);
      && NoMention(r)
      && (s != [] && !IsWordChar(s[0]) ==> r == [] || !IsWordChar(r[0]))
    decreases |s|
  {
    PunctuationIsNotWord();
    if s != [] {
      var n := MatchLen(Mentions, s);
      if n == 0 {
        MentionsGone(s[1..]);
        if s[0] == '@' && |s| > 1 {
          assert s[1..][0] == s[1];
        }
      } else {
        assert s[n..] != [] ==> s[n..][0] == s[1..][n - 1];
        MentionsGone(s[n..]);
      }
    }
  }

  /** Collapsing blanks cannot create a mention: it only ever writes a space. */
  lemma {:induction false} CollapseKeepsNoMention(s: string)
    requires NoMention(s)
    ensures NoMention(Sub(Blanks, s))
    decreases |s|
  {
    PunctuationIsNotWord();
    if s != [] {
      var n := MatchLen(Blanks, s);
      if n == 0 {
        assert NoMention(s[1..]) by {
          forall k | 0 <= k < |s[1..]| - 1 ensures !(s[1..][k] == '@' && IsWordChar(s[1..][k + 1])) {
            assert s[1..][k] == s[k + 1] && s[1..][k + 1] == s[k + 2];
          }
        }
        CollapseKeepsNoMention(s[1..]);
        CollapseShape(s[1..]);
      } else {
        assert NoMention(s[n..]) by {
          forall k | 0 <= k < |s[n..]| - 1 ensures !(s[n..][k] == '@' && IsWordChar(s[n..][k + 1])) {
            assert s[n..][k] == s[k + n] && s[n..][k + 1] == s[k + n + 1];
          }
        }
        CollapseKeepsNoMention(s[n..]);
      }
    }
  }

  /** The non-blank characters of `s`, in order. */
  function NonBlank(s: string): string
    decreases |s|
  {
    if s == [] then [] else (if IsBlank(s[0]) then [] else [s[0]]) + NonBlank(s[1..])
  }

  lemma {:induction false} NonBlankSkipsBlanks(s: string, n: nat)
    requires n <= |s|
    requires forall k :: 0 <= k < n ==> IsBlank(s[k])
    ensures NonBlank(s) == NonBlank(s[n..])
    decreases n
  {
    if n > 0 {
      NonBlankSkipsBlanks(s[1..], n - 1);
      assert s[1..][n - 1..] == s[n..];
    }
  }

  /** Collapsing blanks only rewrites runs of spaces and tabs: every other character,
      newlines included, is kept, in order. */
  lemma {:induction false} CollapseKeepsText(s: string)
    ensures NonBlank(Sub(Blanks, s)) == NonBlank(s)
    decreases |s|
  {
    if s != [] {
      var n := MatchLen(Blanks, s);
      if n == 0 {
        CollapseKeepsText(s[1..]);
        assert ([s[0]] + Sub(Blanks, s[1..]))[1..] == Sub(Blanks, s[1..]);
      } else {
        CollapseKeepsText(s[n..]);
        NonBlankSkipsBlanks(s, n);
        assert (" " + Sub(Blanks, s[n..]))[1..] == Sub(Blanks, s[n..]);
      }
    }
  }

  /** strip() returns a slice, so it keeps every property that holds of all adjacent pairs. */
  lemma StripKeepsShape(s: string)
    ensures NoTab(s) ==> NoTab(Strip(s))
    ensures NoDoubleSpace(s) ==> NoDoubleSpace(Strip(s))
    ensures NoMention(s) ==> NoMention(Strip(s))
  {
    var t := Strip(s);
    var i := StripStart(s);
    assert forall k :: 0 <= k < |t| ==> t[k] == s[i + k];
  }

  /** The cleaned post holds no tab and no two adjacent spaces; newlines are left alone. */
  lemma CleanCollapsed(text: string)
    ensures NoTab(Clean(text)) && NoDoubleSpace(Clean(text))
  {
    var m := Sub(Mentions, Sub(WwwLinks, Sub(Links, text)));
    var c := Sub(Blanks, m);
    CollapseShape(m);
    StripKeepsShape(c);
    assert Clean(text) == Strip(c);
  }

  /** The cleaned post never holds `@` immediately followed by a word character. */
  lemma CleanNoMention(text: string)
    ensures NoMention(Clean(text))
  {
    var m := Sub(Mentions, Sub(WwwLinks, Sub(Links, text)));
    MentionsGone(Sub(WwwLinks, Sub(Links, text)));
    CollapseKeepsNoMention(m);
    var c := Sub(Blanks, m);
    StripKeepsShape(c);
    assert Clean(text) == Strip(c);
  }

  // ---------------------------------------------------------------------------------
  // What the rewrites keep

  /** Where the pattern does not match, re.sub copies the character and moves on. */
  lemma SubCopies(p: Rewrite, s: string)
    requires s != [] && MatchLen(p, s) == 0
    ensures Sub(p, s) == [s[0]] + Sub(p, s[1..])
  {
  }

  /** A pattern whose fixed lead differs from the text at position k does not match there. */
  lemma LeadMismatch(lead: string, inClass: char -> bool, s: string, k: nat)
    requires k < |lead| && (k >= |s| || s[k] != lead[k])
    ensures !(lead <= s) && LeadThenSpan(lead, inClass, s) == 0
  {
  }

  lemma ConsAppend(a: string, x: string)
    requires a != []
    ensures [a[0]] + (a[1..] + x) == a + x
  {
    assert [a[0]] + a[1..] == a;
  }

  /** re.sub copies text at none of whose positions its pattern matches, whatever
      follows that text. */
  lemma {:induction false} SubKeepsUnmatched(p: Rewrite, a: string, b: string)
    requires forall k :: 0 <= k < |a| ==> MatchLen(p, (a + b)[k..]) == 0
    ensures Sub(p, a + b) == a + Sub(p, b)
    decreases |a|
  {
    if a == [] {
      assert a + b == b;
    } else {
      var t := a + b;
      assert t[0..] == t && t[1..] == a[1..] + b;
      forall k | 0 <= k < |a| - 1
        ensures MatchLen(p, (a[1..] + b)[k..]) == 0
      {
        assert (a[1..] + b)[k..] == t[k + 1..];
      }
      var x := Sub(p, b);
      calc {
        Sub(p, t);
      == { SubCopies(p, t); }
        [a[0]] + Sub(p, a[1..] + b);
      == { SubKeepsUnmatched(p, a[1..], b); }
        [a[0]] + (a[1..] + x);
      == { ConsAppend(a, x); }
        a + x;
      }
    }
  }

  /** The same for the whole text: no match anywhere, nothing rewritten. */
  lemma SubKeepsAll(p: Rewrite, s: string)
    requires forall k :: 0 <= k < |s| ==> MatchLen(p, s[k..]) == 0
    ensures Sub(p, s) == s
  {
    assert s + [] == s;
    SubKeepsUnmatched(p, s, []);
  }

  /** Neither link pattern matches where the text is empty or starts with whitespace. */
  lemma NoLinkAtSpace(p: Rewrite, s: string)
    requires p == Links || p == WwwLinks
    requires s == [] || IsSpace(s[0])
    ensures MatchLen(p, s) == 0
  {
    LeadMismatch("https://", IsNonSpace, s, 0);
    LeadMismatch("http://", IsNonSpace, s, 0);
    LeadMismatch("www.", IsNonSpace, s, 0);
  }

  /** Text without an `h` holds no link. */
  lemma LinkFree(s: string)
    requires 'h' !in s
    ensures Sub(Links, s) == s
  {
    forall k | 0 <= k < |s|
      ensures MatchLen(Links, s[k..]) == 0
    {
      LeadMismatch("https://", IsNonSpace, s[k..], 0);
      LeadMismatch("http://", IsNonSpace, s[k..], 0);
    }
    SubKeepsAll(Links, s);
  }

  /** Text without a blank is left as it is by the collapsing of blanks. */
  lemma BlankFree(s: string)
    requires forall k :: 0 <= k < |s| ==> !IsBlank(s[k])
    ensures Sub(Blanks, s) == s
  {
    forall k | 0 <= k < |s|
      ensures MatchLen(Blanks, s[k..]) == 0
    {
      assert s[k..][0] == s[k];
    }
    SubKeepsAll(Blanks, s);
  }

  /** Text before the first `@` is copied unchanged by the mention rewrite. */
  lemma MentionFreeLead(pre: string, s: string)
    requires '@' !in pre
    ensures Sub(Mentions, pre + s) == pre + Sub(Mentions, s)
  {
    forall k | 0 <= k < |pre|
      ensures MatchLen(Mentions, (pre + s)[k..]) == 0
    {
      assert (pre + s)[k..][0] == pre[k];
      LeadMismatch("@", IsWordChar, (pre + s)[k..], 0);
    }
    SubKeepsUnmatched(Mentions, pre, s);
  }

  /** Text without whitespace, without `@` and with no link starting anywhere in it
      comes out of cleaning unchanged. */
  lemma CleanKeepsPlain(text: string)
    requires forall k :: 0 <= k < |text| ==> IsNonSpace(text[k]) && text[k] != '@'
    requires forall k :: 0 <= k < |text| ==> MatchLen(Links, text[k..]) == 0
    requires forall k :: 0 <= k < |text| ==> MatchLen(WwwLinks, text[k..]) == 0
    ensures Clean(text) == text
  {
    SubKeepsAll(Links, text);
    SubKeepsAll(WwwLinks, text);
    MentionFreeLead(text, []);
    assert text + [] == text;
    BlankFree(text);
    assert StripStart(text) == 0 by {
      assert text != [] ==> IsNonSpace(text[0]);
    }
    assert TrailingSpace(text) == 0 by {
      assert text[0..] == text;
      assert text != [] ==> IsNonSpace(text[|text| - 1]);
    }
  }

  // ---------------------------------------------------------------------------------
  // The link rewrites leave no link behind

  /** A match of a lead of non-space characters followed by non-space characters lies
      inside the run of non-space characters that starts the text. */
  lemma RunCoversMatch(lead: string, u: string)
    requires forall i :: 0 <= i < |lead| ==> IsNonSpace(lead[i])
    requires LeadThenSpan(lead, IsNonSpace, u) > 0
    ensures |lead| < Span(u, IsNonSpace) && u[..|lead|] == lead
  {
    assert IsNonSpace(u[|lead|]) by { assert u[|lead|..][0] == u[|lead|]; }
    assert forall i :: 0 <= i < |lead| ==> u[i] == u[..|lead|][i];
    assert forall i :: 0 <= i <= |lead| ==> IsNonSpace(u[i]);
  }

  /** The fixed parts of the link patterns hold no whitespace. */
  lemma LinkLeadsNonSpace()
    ensures forall i :: 0 <= i < |"www."| ==> IsNonSpace("www."[i])
    ensures forall i :: 0 <= i < |"https://"| ==> IsNonSpace("https://"[i])
    ensures forall i :: 0 <= i < |"http://"| ==> IsNonSpace("http://"[i])
  {
  }

  /** So text agreeing with `u` on that run matches too. */
  lemma LeadInRun(lead: string, u: string, v: string)
    requires forall i :: 0 <= i < |lead| ==> IsNonSpace(lead[i])
    requires Span(u, IsNonSpace) <= |v| && u[..Span(u, IsNonSpace)] == v[..Span(u, IsNonSpace)]
    requires LeadThenSpan(lead, IsNonSpace, u) > 0
    ensures |lead| < |v| && v[..|lead| + 1] == u[..|lead| + 1]
    ensures LeadThenSpan(lead, IsNonSpace, v) > 0
  {
    var m := Span(u, IsNonSpace);
    RunCoversMatch(lead, u);
    assert v[..|lead| + 1] == u[..|lead| + 1] by {
      assert v[..|lead| + 1] == v[..m][..|lead| + 1];
      assert u[..|lead| + 1] == u[..m][..|lead| + 1];
    }
    assert v[..|lead|] == lead by { assert v[..|lead|] == v[..|lead| + 1][..|lead|]; }
    assert IsNonSpace(v[|lead|..][0]) by {
      assert v[|lead|..][0] == v[..|lead| + 1][|lead|] == u[..|lead| + 1][|lead|] == u[|lead|];
      assert u[|lead|] == u[..m][|lead|];
    }
  }

  lemma WwwLinkInRun(u: string, v: string)
    requires Span(u, IsNonSpace) <= |v| && u[..Span(u, IsNonSpace)] == v[..Span(u, IsNonSpace)]
    requires MatchLen(WwwLinks, u) > 0
    ensures MatchLen(WwwLinks, v) > 0
  {
    LinkLeadsNonSpace();
    LeadInRun("www.", u, v);
  }

  lemma HttpsLinkInRun(u: string, v: string)
    requires Span(u, IsNonSpace) <= |v| && u[..Span(u, IsNonSpace)] == v[..Span(u, IsNonSpace)]
    requires "https://" <= u && LeadThenSpan("https://", IsNonSpace, u) > 0
    ensures MatchLen(Links, v) > 0
  {
    LinkLeadsNonSpace();
    LeadInRun("https://", u, v);
    assert "https://" <= v;
  }

  lemma HttpLinkInRun(u: string, v: string)
    requires Span(u, IsNonSpace) <= |v| && u[..Span(u, IsNonSpace)] == v[..Span(u, IsNonSpace)]
    requires LeadThenSpan("http://", IsNonSpace, u) > 0
    ensures MatchLen(Links, v) > 0
  {
    LinkLeadsNonSpace();
    LeadInRun("http://", u, v);
    assert u[4] == ':' by { assert u[..7][4] == u[4]; }
    assert v[4] == u[4] by { assert v[..8][4] == v[4] && u[..8][4] == u[4]; }
    LeadMismatch("https://", IsNonSpace, v, 4);
  }

  /** Where the non-space run at the start of `u` is copied from `v`, a link pattern that
      matches `u` matches `v`. */
  lemma LinkInRun(p: Rewrite, u: string, v: string)
    requires p == Links || p == WwwLinks
    requires Span(u, IsNonSpace) <= |v| && u[..Span(u, IsNonSpace)] == v[..Span(u, IsNonSpace)]
    ensures MatchLen(p, v) == 0 ==> MatchLen(p, u) == 0
  {
    if MatchLen(p, u) > 0 {
      if p == WwwLinks {
        WwwLinkInRun(u, v);
      } else if "https://" <= u {
        HttpsLinkInRun(u, v);
      } else {
        HttpLinkInRun(u, v);
      }
    }
  }

  /** The run of non-space characters at the start of `r` is copied from the start of `t`. */
  predicate RunCopied(r: string, t: string) {
    Span(r, IsNonSpace) <= |t| && r[..Span(r, IsNonSpace)] == t[..Span(r, IsNonSpace)]
  }

  /** The non-space run at the start of what a link rewrite returns is copied from the
      start of its input: a removed link is followed by whitespace or by nothing. */
  lemma {:induction false} SubRun(p: Rewrite, t: string)
    requires p == Links || p == WwwLinks
    ensures RunCopied(Sub(p, t), t)
    decreases |t|
  {
    if t != [] {
      if MatchLen(p, t) == 0 {
        SubRun(p, t[1..]);
        SubCopies(p, t);
        assert t == [t[0]] + t[1..];
        RunCopiedCons(t[0], Sub(p, t[1..]), t[1..]);
      } else {
        MatchEndsAtSpace(p, t);
        var w := t[MatchLen(p, t)..];
        assert Sub(p, t) == Sub(p, w);
        SpaceFirst(p, w);
      }
    }
  }

  lemma RunCopiedCons(c: char, r: string, t: string)
    requires RunCopied(r, t)
    ensures RunCopied([c] + r, [c] + t)
  {
    if IsNonSpace(c) {
      var m := Span(r, IsNonSpace);
      assert ([c] + r)[1..] == r;
      assert ([c] + r)[..1 + m] == [c] + r[..m];
      assert ([c] + t)[..1 + m] == [c] + t[..m];
    }
  }

  /** A link match runs up to whitespace or to the end of the text. */
  lemma MatchEndsAtSpace(p: Rewrite, t: string)
    requires p == Links || p == WwwLinks
    requires MatchLen(p, t) > 0
    ensures var n := MatchLen(p, t); n == |t| || IsSpace(t[n])
  {
    if p == WwwLinks {
      LeadSpanEnds("www.", t);
    } else if "https://" <= t {
      LeadSpanEnds("https://", t);
    } else {
      LeadSpanEnds("http://", t);
    }
  }

  /** A match of `lead` and a non-space run ends at whitespace or at the end of the text. */
  lemma LeadSpanEnds(lead: string, t: string)
    requires LeadThenSpan(lead, IsNonSpace, t) > 0
    ensures var n := LeadThenSpan(lead, IsNonSpace, t); n == |t| || IsSpace(t[n])
  {
    var n := LeadThenSpan(lead, IsNonSpace, t);
    assert n < |t| ==> t[n] == t[|lead|..][n - |lead|];
  }

  /** A link rewrite keeps leading whitespace where it is. */
  lemma SpaceFirst(p: Rewrite, w: string)
    requires p == Links || p == WwwLinks
    requires w == [] || IsSpace(w[0])
    ensures Span(Sub(p, w), IsNonSpace) == 0
  {
    if w != [] {
      NoLinkAtSpace(p, w);
      SubCopies(p, w);
    }
  }

  /** The pattern matches at no position of `r`, nor at its end. */
  predicate Unmatched(p: Rewrite, r: string) {
    forall k :: 0 <= k <= |r| ==> MatchLen(p, r[k..]) == 0
  }

  lemma UnmatchedCons(p: Rewrite, c: char, r: string)
    requires Unmatched(p, r) && MatchLen(p, [c] + r) == 0
    ensures Unmatched(p, [c] + r)
  {
    assert ([c] + r)[0..] == [c] + r;
    assert forall k :: 1 <= k <= |r| + 1 ==> ([c] + r)[k..] == r[k - 1..];
  }

  /** After `https?://\S+` or `www\.\S+` is removed, the pattern matches nowhere in the
      result: removing a link never joins text into a new one. */
  lemma {:induction false} LinksGone(p: Rewrite, s: string)
    requires p == Links || p == WwwLinks
    ensures var r := Sub(p, s); forall k :: 0 <= k <= |r| ==> MatchLen(p, r[k..]) == 0
    decreases |s|
  {
    if s == [] {
      NoLinkAtSpace(p, Sub(p, s)[0..]);
    } else if MatchLen(p, s) == 0 {
      var r, r' := Sub(p, s), Sub(p, s[1..]);
      LinksGone(p, s[1..]);
      SubCopies(p, s);
      SubRun(p, s);
      LinkInRun(p, r, s);
      UnmatchedCons(p, s[0], r');
    } else {
      LinksGone(p, s[MatchLen(p, s)..]);
      assert Sub(p, s) == Sub(p, s[MatchLen(p, s)..]);
    }
  }

  // ---------------------------------------------------------------------------------
  // Cleaning twice: removing a mention can join a `www` to what follows it into a
  // `www.` link, which the next cleaning removes, so clean_tweet_content is not
  // idempotent.

  lemma NoLinkInExample()
    ensures Sub(Links, "www@a.b") == "www@a.b"
  {
    var s := "www@a.b";
    assert forall k :: 0 <= k < |s| ==> s[k] != 'h';
    LinkFree(s);
  }

  /** "www@" is not "www.", so the `www.` rewrite finds nothing in "www@a.b". */
  lemma NoWwwLinkInExample()
    ensures Sub(WwwLinks, "www@a.b") == "www@a.b"
  {
    LeadMismatch("www.", IsNonSpace, "www@a.b", 3);
    LeadMismatch("www.", IsNonSpace, "ww@a.b", 2);
    LeadMismatch("www.", IsNonSpace, "w@a.b", 1);
    LeadMismatch("www.", IsNonSpace, "@a.b", 0);
    LeadMismatch("www.", IsNonSpace, "a.b", 0);
    LeadMismatch("www.", IsNonSpace, ".b", 0);
    LeadMismatch("www.", IsNonSpace, "b", 0);
    SubCopies(WwwLinks, "b");
    SubCopies(WwwLinks, ".b");
    SubCopies(WwwLinks, "a.b");
    SubCopies(WwwLinks, "@a.b");
    SubCopies(WwwLinks, "w@a.b");
    SubCopies(WwwLinks, "ww@a.b");
    SubCopies(WwwLinks, "www@a.b");
  }

  /** The mention `@a` ends at the `.`, which is not a word character. */
  lemma MentionInExample()
    ensures Sub(Mentions, "@a.b") == ".b"
  {
    LeadMismatch("@", IsWordChar, ".b", 0);
    LeadMismatch("@", IsWordChar, "b", 0);
    assert "@a.b"[..1] == "@" && "@a.b"[1..] == "a.b";
    assert Span("a.b", IsWordChar) == 1 by { assert "a.b"[1..] == ".b"; }
    assert MatchLen(Mentions, "@a.b") == 2;
    assert "@a.b"[2..] == ".b";
    SubCopies(Mentions, "b");
    SubCopies(Mentions, ".b");
  }

  lemma MentionDroppedInExample()
    ensures Sub(Mentions, "www@a.b") == "www.b"
  {
    var w := "www";
    assert "www@a.b" == w + "@a.b";
    MentionFreeLead(w, "@a.b");
    MentionInExample();
  }

  lemma NoBlankInExample()
    ensures Sub(Blanks, "www.b") == "www.b"
  {
    var t := "www.b";
    assert forall k :: 0 <= k < |t| ==> !IsBlank(t[k]);
    BlankFree(t);
  }

  lemma StripOfExample()
    ensures Strip("www.b") == "www.b"
  {
    var t := "www.b";
    assert StripStart(t) == 0 by { assert !IsSpace(t[0]); }
    assert TrailingSpace(t) == 0 by { assert t[0..] == t && !IsSpace(t[4]); }
  }

  /** The whole of "www.b" is a `www.` link. */
  lemma WwwLinkInExample()
    ensures Sub(WwwLinks, "www.b") == []
  {
    var s := "www.b";
    assert s[..4] == "www.";
    assert s[4..] == "b" && "b"[1..] == [];
    assert Span("b", IsNonSpace) == 1;
    assert MatchLen(WwwLinks, s) == 5;
    assert s[5..] == [];
  }

  /** The `#t` of "www.x#t" is part of the `www.` link, which is removed whole. */
  lemma LinkWithTagExample()
    ensures Sub(WwwLinks, "www.x#t") == []
  {
    var s := "www.x#t";
    assert s[..4] == "www.";
    assert s[4..] == "x#t" && "x#t"[1..] == "#t" && "#t"[1..] == "t" && "t"[1..] == [];
    assert Span("x#t", IsNonSpace) == 3;
    assert MatchLen(WwwLinks, s) == 7;
    assert s[7..] == [];
  }

  lemma CleanOfExample()
    ensures Clean("www@a.b") == "www.b"
  {
    NoLinkInExample();
    NoWwwLinkInExample();
    MentionDroppedInExample();
    NoBlankInExample();
    StripOfExample();
  }

  lemma CleanOfLink()
    ensures Clean("www.b") == []
  {
    var t := "www.b";
    assert forall k :: 0 <= k < |t| ==> t[k] != 'h';
    LinkFree(t);
    WwwLinkInExample();
  }

  /** Cleaning is not idempotent: "www@a.b" cleans to "www.b", which cleans to "". */
  lemma CleanNotIdempotent()
    ensures Clean("www@a.b") == "www.b"
    ensures Clean(Clean("www@a.b")) == []
  {
    CleanOfExample();
    CleanOfLink();
  }
}

# Post scraper aggregation pipeline in Dafny

This project models the collecting core of a small post-scraping application (`app.py`).
It covers five steps:
- the operator's query text is split into queries, one per line;
- for each query, the pages of posts a search feed returns are walked;
- every post is cleaned (links, `www.` links and `@` mentions removed, runs of spaces and tabs collapsed, the ends trimmed);
- too short posts are dropped, duplicates are dropped on a key of the cleaned text (the first occurrence wins), and a global limit stops the run;
- a record `{PostNo, MyPost, Tags}` is built for each accepted post, the records are optionally sorted by the length of `MyPost`, and they are renumbered.

The modules follow the program's steps:

- `Text`: the Python built-ins the code relies on. These are `str.isspace`, `\w` (approximated, see below), `str.strip()`, `str.split('\n')`, `", ".join(...)` and `str()` of a count.
- `Normalizer`: `clean_tweet_content`. Each `re.sub` is a left-to-right scan (`Sub`) over one of four rewrites, and `strip()` follows.
- `Hashtags`: `extract_hashtags`. `re.findall(r'#\w+', ...)` is modelled as a scan, and a reference definition by position (`TagsAt`) is proved equal to it.
- `Queries`: the list comprehension at line 134.
- `Aggregator`: the nested loops of `scrape_process`. The imperative loop is a chain of methods: `Aggregate`, then `TakeQuery`, `TakePages`, `StepPage`, `ReadPage`, `TakePage` and finally `TakePost`, one per loop level. They are proved equal to a fold, `Run`, over the stream of posts, and the fold's properties are proved as lemmas.
  - The feed client is replaced by its answers. For each query the search fails (`SearchFails`), or it returns a list of pages together with how `next()` behaves after the last one: it returns an empty page, it raises, or it is missing.
  - Every call made to the feed is recorded, with the count at that moment, in a ghost log.
- `Ranking`: `list.sort(key=len(MyPost))`, with and without `reverse=True`, as a stable insertion sort. It also holds the renumbering loop.
- `Pipeline`: `scrape_process` as a whole: collect, sort as the mode asks, renumber.

Behaviour of the code worth knowing:

- **Cleaning is not idempotent.** `Normalizer.CleanNotIdempotent` proves that `"www@a.b"` cleans to `"www.b"`, which cleans to `""`: removing the mention creates a `www.` link. The properties that do hold are proved instead: no tab, no two adjacent spaces, no `@` followed by a word character, no `https?://` or `www.` link left by their rewrites, no whitespace at the ends, never longer than the input.
- **Hashtags outside links stay in `MyPost`.** `clean_tweet_content` removes only links, `www.` links and mentions, so a `#tag` outside them stays in `MyPost` as well as in `Tags`. A `#…` inside a link or `www.` token, such as a URL fragment, is removed from `MyPost` with the link, but `Tags` is read from the raw text and still lists it: `Aggregator.TagInsideLink` proves that `"www.x#t"` loses its link to the rewrite while its tags are `"#t"`.
- **`Tags` is one string.** It is `", ".join(tags)`, not a list.
- **`PostNo` is a string.** It is `str(count)`.

## Model

| member | source | states |
|---|---|---|
| Text.StripRemovesSpace | app.py:22 | strip() removes exactly the whitespace at both ends: the characters removed before and after are all whitespace, and the kept text neither starts nor ends with whitespace |
| Text.Strip | app.py:22 | `strip()` keeps a contiguous part of the text and is never longer than it; `StripRemovesSpace` states what it removes |
| Text.SplitPieces | app.py:134 | no piece of `split('\n')` contains a newline |
| Text.JoinSplit | app.py:134 | joining the pieces of `split(sep)` with `sep` gives back the text, so splitting loses nothing |
| Text.SplitJoin | app.py:134 | splitting pieces that contain no separator, after joining them with it, gives back the pieces |
| Text.Split | app.py:134 | `split(sep)` always gives at least one piece, also for the empty text; `SplitPieces`, `JoinSplit` and `SplitJoin` state what the pieces are |
| Text.Join | app.py:72 | no contract of its own: `sep.join(xs)` puts `sep` between consecutive strings and gives the empty string for none; `JoinSplit` and `SplitJoin` prove it the inverse of `Split` |
| Text.DecimalRoundTrip | app.py:70 | `str(n)` reads back as `n` |
| Text.DecimalInjective | app.py:95 | different counts give different `PostNo` strings |
| Text.Decimal | app.py:70 | `str(n)` is a non-empty string of digits with no leading zero unless `n` is 0; `DecimalRoundTrip` proves it reads back as `n` |
| Normalizer.Clean | app.py:17-22 | the cleaned text is never longer than the raw text |
| Normalizer.MatchLen | app.py:18-21 | the length of the match of one rewrite's pattern at the start of the text, 0 for none, never longer than the text; `NoLinkAtSpace` and the shape lemmas state which text it matches |
| Normalizer.Sub | app.py:18-21 | `re.sub` of one rewrite as a left-to-right scan over non-overlapping matches, never longer than its input; `SubKeepsUnmatched`, `LinksGone`, `MentionsGone` and `CollapseShape` state what it keeps and what it removes |
| Normalizer.CleanTrimmed | app.py:22 | the cleaned text has no whitespace at either end |
| Normalizer.CollapseShape | app.py:21 | after `[ \t]+` → `' '` there is no tab and no two adjacent spaces, and the first character is a space exactly when the input starts with a blank |
| Normalizer.CollapseKeepsText | app.py:21 | collapsing only rewrites runs of spaces and tabs: every other character, newlines included, is kept in order |
| Normalizer.MentionsGone | app.py:20 | after `@\w+` → `''` no `@` is followed by a word character |
| Normalizer.CollapseKeepsNoMention | app.py:21 | collapsing blanks cannot create a mention |
| Normalizer.StripKeepsShape | app.py:22 | strip() keeps the absence of tabs, of double spaces and of mentions |
| Normalizer.CleanCollapsed | app.py:17-22 | the cleaned text holds no tab and no two adjacent spaces |
| Normalizer.CleanNoMention | app.py:17-22 | the cleaned text never holds `@` directly followed by a word character |
| Normalizer.LinkFree | app.py:18 | text without an `h` holds no `https?://` link and is left unchanged |
| Normalizer.MentionFreeLead | app.py:20 | text before the first `@` is copied unchanged by the mention rewrite |
| Normalizer.BlankFree | app.py:21 | text without spaces or tabs is left unchanged by the collapsing of blanks |
| Normalizer.SubKeepsUnmatched | app.py:18-21 | a rewrite copies unchanged every character at which its pattern does not match: a prefix with no match anywhere is kept, followed by the rewrite of the rest |
| Normalizer.SubKeepsAll | app.py:18-21 | text in which the pattern matches nowhere is left unchanged |
| Normalizer.NoLinkAtSpace | app.py:18-19 | no `https?://\S+` or `www\.\S+` match starts at whitespace or at the end of the text |
| Normalizer.LinksGone | app.py:18-19 | after `https?://\S+` → `''` (and after `www\.\S+` → `''`) the pattern matches at no position of the result |
| Normalizer.CleanKeepsPlain | app.py:17-22 | a text of non-whitespace characters without `@` and with no link or `www.` link anywhere is returned unchanged by the cleaning |
| Normalizer.CleanNotIdempotent | app.py:17-22 | cleaning twice can differ from cleaning once: `"www@a.b"` cleans to `"www.b"`, and that cleans to `""` |
| Hashtags.ExtractFindsEveryTag | app.py:24-25 | the findall scan yields exactly one tag per `#` that is followed by a word character, in order of appearance, each running to the end of the word characters; duplicates are kept |
| Hashtags.NoTagInsideWord | app.py:25 | no match starts inside a run of word characters, so matches never overlap |
| Hashtags.ExtractedAreTags | app.py:24-25 | every tag starts with `#`, has at least one word character after it (length ≥ 2) and is no longer than the text |
| Hashtags.NoHashNoTags | app.py:24-25 | text without `#` has no tags |
| Hashtags.ExtractHashtags | app.py:24-25 | no contract of its own: `findall` of `#\w+` as a left-to-right scan; `ExtractFindsEveryTag` proves it equal to the reference by position, `ExtractedAreTags` and `NoTagInsideWord` state its matches |
| Queries.KeptIsQuery | app.py:134 | one line contributes at most one query, and that query is its non-empty stripped text |
| Queries.EveryQueryIsTrimmedLine | app.py:134 | every query is non-empty, has no whitespace at either end and holds no newline |
| Queries.SplitAtSeparator | app.py:134 | splitting `a + "\n" + b` gives the pieces of `a` followed by those of `b` |
| Queries.QueriesOfConcatenation | app.py:134 | the queries of two blocks of lines are those of the first followed by those of the second, so line order is kept |
| Queries.QueriesOfOneLine | app.py:134 | a single line gives its stripped text as the only query, or no query when it is blank |
| Queries.SplitQueries | app.py:134 | no contract of its own: the stripped non-blank lines, in order; `EveryQueryIsTrimmedLine`, `QueriesOfOneLine` and `QueriesOfConcatenation` state what it yields |
| Aggregator.FirstEmpty | app.py:53 | the `while tweets` loop stops at the first empty page: every page before it is non-empty |
| Aggregator.TakePost | app.py:55-74 | one iteration of the post loop leaves `global_count == len(all_results)`. Its state is the `Accept` step: nothing changes at the limit, for a cleaned text shorter than 5, or for a seen key; otherwise the key is recorded and the record `{str(count+1), clean_text, ", ".join(tags of the raw text)}` is appended |
| Aggregator.TakePage | app.py:54-78 | the post loop over one page reads a prefix of the page, all of it unless the limit stopped it, and its state is the fold over what it read |
| Aggregator.ReadPage | app.py:54-78 | the posts of page p, read after the earlier pages, extend the prefix of the query's posts that has been read |
| Aggregator.StepPage | app.py:53-85 | one round of the page loop. Below the limit it moves to the next page; if `next()` raises or is missing it stops, keeping the posts read. it makes at most one call, `next()` for page p+1, and only below the limit |
| Aggregator.TakePages | app.py:53-85 | the page loop of a query reads all posts before the first empty page unless the limit stops it; its state is the fold over what it read |
| Aggregator.TakeQuery | app.py:44-85 | a failed search skips only that query; otherwise the query's pages are walked; every feed call is made below the limit, and the query's one search is logged with the count it started with |
| Aggregator.Aggregate | app.py:32-85 | the loop's results equal the fold `Run` over all posts in query, page, post order, and every call to the feed (search or `next()`) is made with fewer than `limit` records, so nothing is fetched once the limit is reached; query q is searched iff fewer than `limit` records were collected from the queries before it, and the search is logged with that number |
| Aggregator.LimitStays | app.py:39-40 | once `limit` records are collected during a query, every later query starts with at least `limit` records, so it is never searched |
| Aggregator.CollectSaturated | app.py:55 | once `limit` records exist, any further posts change nothing |
| Aggregator.CollectMonotone | app.py:74 | records are only ever appended and seen keys only grow |
| Aggregator.AcceptConsistent | app.py:55-74 | one post keeps the invariant: count ≤ limit, record i numbered `str(i+1)`, every `MyPost` of length ≥ 5, seen keys = keys of the records, no two records share a key |
| Aggregator.CollectConsistent | app.py:39-74 | the invariant holds after any sequence of posts |
| Aggregator.CollectComplete | app.py:57-64 | a qualifying post read below the limit ends with its key among the seen keys |
| Aggregator.CollectFound | app.py:57-64 | a qualifying post read below the limit has a record carrying its key |
| Aggregator.CollectOrigin | app.py:57-74 | every record comes from a post that was read: it carries that post's cleaned text and tags, was added when i records existed, and no earlier qualifying post had the same key (first wins) |
| Aggregator.RunOrigin | app.py:39-74 | record i is `{str(i+1), clean(post j), ", ".join(hashtags(post j))}` for a post j, and no earlier qualifying post had its key |
| Aggregator.RunComplete | app.py:39-64 | no qualifying post read below the limit is lost: some record carries its key |
| Aggregator.Accept | app.py:55-74 | no contract of its own: one post of the loop body as a step on (records, seen keys); `AcceptConsistent` proves it keeps the invariant and `TakePost` is proved equal to it |
| Aggregator.Collect | app.py:54-74 | no contract of its own: `Accept` folded over the prepared posts, starting from no records; `CollectConsistent`, `CollectOrigin`, `CollectComplete`, `CollectSaturated` and `CollectMonotone` state its properties |
| Aggregator.Run | app.py:39-85 | no contract of its own: `Collect` over the cleaned text and tags of each raw post; `RunOrigin` and `RunComplete` state what it keeps, and `Aggregate` is proved equal to it over `Stream` |
| Aggregator.Stream | app.py:39-85 | no contract of its own: the raw texts query by query, page by page, post by post, up to the first empty page of each query and none for a failed search; `Aggregate` proves the loops' results equal `Run` over it |
| Aggregator.TagInsideLink | app.py:17-25 | a `#…` inside a `www.` token is removed with the link from the cleaned text but still listed in the tags, which come from the raw text |
| Ranking.SortBy | app.py:88-91 | the sort returns as many records as it is given |
| Ranking.SortPermutes | app.py:88-91 | the sorted records are a permutation of the records |
| Ranking.SortMapPermutes | app.py:88-91 | the images of the sorted records under any function (such as MyPost with Tags) are those of the records, each as often |
| Ranking.SortOrdered | app.py:88-91 | "Shortest First" gives non-decreasing and "Longest First" non-increasing lengths of `MyPost` |
| Ranking.SortStable | app.py:88-91 | records of equal length keep their discovery order, for `reverse=True` too |
| Ranking.InsertStable | app.py:88-91 | an inserted record stays after every record of its own length |
| Ranking.SortOfOrdered | app.py:88-91 | records already in order are left where they are |
| Ranking.SortDistinct | app.py:88-91 | sorting keeps records whose keys differ apart |
| Ranking.LongestFirstExample | app.py:90-91 | "Longest First" on lengths 5, 20, 5 gives the 20 first, then the two 5s in their original order |
| Ranking.Renumber | app.py:94-95 | the renumbering loop sets `PostNo` of record i to `str(i+1)` and leaves everything else of every record unchanged |
| Ranking.RenumberedNumbers | app.py:94-95 | after renumbering, record i has `PostNo == str(i+1)`, no two records share a number, and `MyPost` and `Tags` are unchanged |
| Ranking.RenumberedNumbered | app.py:70 | records already numbered by position are left as they are |
| Ranking.Renumbered | app.py:94-95 | the renumbered list has as many records as the list; `RenumberedNumbers` states what changes and `Renumber` is proved equal to it |
| Pipeline.ScrapeProcess | app.py:32-99 | the whole process returns `Outcome`: the collected records, arranged as the sort mode asks, renumbered; every feed call is made below the limit, and query q is searched iff fewer than `limit` records were collected before it |
| Pipeline.ArrangedShape | app.py:88-95 | sorting and renumbering keep every `MyPost` passing the filter and all keys distinct |
| Pipeline.OutcomeShape | app.py:32-99 | the result has at most `limit` records (none when limit < 1), numbered "1".."N" in order with no repeats; every `MyPost` has length ≥ 5; no two records share a key |
| Pipeline.RenumberedBodies | app.py:94-95 | renumbering keeps each record's `MyPost` and `Tags` |
| Pipeline.ArrangedBodies | app.py:88-95 | sorting and renumbering neither add, drop nor alter a (MyPost, Tags) pair |
| Pipeline.OutcomeContents | app.py:88-95 | the returned records carry exactly the collected (MyPost, Tags) pairs, each as often |
| Pipeline.TierBodies | app.py:88-95 | two lists with the same (MyPost, Tags) at each index have the same records of each `MyPost` length, in the same order |
| Pipeline.RenumberedTiers | app.py:94-95 | renumbering keeps, for every length, the records of that length in their order |
| Pipeline.ArrangedStable | app.py:88-95 | sorting and renumbering keep, for every `MyPost` length, the records of that length in discovery order |
| Pipeline.ArrangedOrder | app.py:88-95 | the order each mode promises, stable: records of equal `MyPost` length keep their order; any other mode keeps records that are already numbered unchanged |
| Pipeline.OutcomeOrder | app.py:88-95 | "Shortest First" gives non-decreasing and "Longest First" non-increasing `MyPost` lengths, with records of equal length in discovery order; any other mode returns exactly the collected records in discovery order |
| Pipeline.Arrange | app.py:88-91 | the arranged list has as many records as the collected list; `ArrangedOrder`, `ArrangedStable` and `ArrangedBodies` state its order and contents |
| Pipeline.Outcome | app.py:32-99 | no contract of its own: the collected records, arranged by the sort mode and renumbered; `OutcomeShape`, `OutcomeContents` and `OutcomeOrder` state its properties and `ScrapeProcess` is proved equal to it |

## Left out

- The Streamlit user interface (page setup, sidebar, text area, buttons, status text, `st.error`, the final messages, the data table, the JSON download) is presentation only.
- The progress bar value `min(global_count / limit, 1.0)` is left out: it is floating point and only displayed.
- The twikit client is left out. That covers cookies and authentication, `search_tweet` with its `product` and `count` arguments, and `tweets.next()` (network calls into a library). Each query's answers are an input `Feed` instead.
- `hasattr(tweets, 'next')`: a page object without `next()` is modelled only after the pages listed for a query (`NoNext`); earlier pages always have it.
- `asyncio` and `await`: the awaited calls run one after another, so the model reads the inputs in order.
- Python's `hash()` is per-process randomised and not visible. It is a parameter `key: string -> int`. Two cleaned texts with the same key count as duplicates, as they do in the code.
- The outer `except Exception` that returns `[]` (lines 101-103) is left out. It catches run-time failures of the client and the UI that the model does not have. The per-query `except` around the search is modelled (`SearchFails`).
- `\w` is approximated by `Text.IsWordChar`: ASCII letters, digits and `_`, the Latin-1 letters `ª µ º À–Ö Ø–ö ø–ÿ`, and the letters and digits of the Arabic block U+0600–U+06FF. Python's Unicode `\w` covers every script and more than these blocks: the Arabic Supplement, the Arabic presentation forms, and the Latin-1 digits and fractions `² ³ ¹ ¼ ½ ¾` are word characters there but not in the model. `\s`/`\S` and `strip()` use the exact `str.isspace` set.
- `limit` comes from a number input bounded to 10..500. The model accepts any integer.
- Ranking.SortBy: `list.sort` sorts the list in place (Timsort). The model returns the sorted sequence and the pipeline reassigns it. Timsort's steps are not modelled, only what it promises: sorted, stable and a permutation.
- Ranking.Renumber: the loop overwrites `PostNo` in the dictionaries held by the list. The model updates a sequence of record values, so aliasing of the dictionaries is not modelled.
- The log of calls to the feed is ghost. It exists only to state which searches and `next()` calls are made: none once the limit is reached, and a search for exactly the queries reached below it.
- Each query's answers are a finite list of pages. A feed whose `next()` keeps returning non-empty pages none of whose posts qualify, below the limit, makes the page loop (lines 53-85) run forever; that run is not modelled, and `TakePages` always terminates.

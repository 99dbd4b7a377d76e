# randomwebsitebot — a Dafny model of its deterministic core

randomwebsitebot picks a random website, reads the page's title and its author's Twitter handle,
asks a discussion aggregator for a discussions link and tags, and posts the URL with a screenshot
to Twitter and Mastodon every twelve hours. Most of it is network and HTML glue. This project
models the logic in between, in both revisions of the code: the newer `src/rwb/` and the older
`src/`.

The model covers:

- **the post text** (`format.dfy`, `rwb_bot.dfy`, `bot.dfy`). `__hashtags` renders the tags as
  sorted hashtags, with `c` renamed to `cprogramming`. `__build_status` / `build_status` cut a
  title longer than 50 characters and write the sections in a fixed order: title, URL,
  `Discussions: …`, hashtags, and `by @…` (or, in the older revision, `via @…`). Each section
  is followed by a blank line, and the text is stripped at the end. The two `BuildStatus` methods
  keep the source's `+=` steps under a chain of `if`s. They are proved equal to `Compose` of
  `Sections`, the order-of-sections specification. Lemmas about that specification show that
  the post has no whitespace at its ends and always holds the URL, less any whitespace around it. They also show that, in the
  plain case, it is exactly the sections joined by blank lines.
- **the handle normaliser** (`metadata.dfy`, `rwb_bot.dfy`, `bot.dfy`). It turns the content
  of a `twitter:creator` / `twitter:site` meta tag into a bare handle: remove `@`, split on `/`,
  keep the non-empty parts, take the last one, strip, remove `@`, reject it if it holds a space.
  The step-by-step methods are proved equal to the functions `CreatorHandle` (newer) and `Handle`
  (older). Those functions are proved never to hold a `/` or a space. They raise `IndexError`
  exactly when `parts[-1]` meets an empty list. The two revisions are proved to agree.
- **the gates**: the sign-in page title, `__url_blacklisted`, and the discussion-aggregator
  reply whose counts are all absent or zero.
- **the 12-hour schedule** (`schedule.dfy`). The wake time of `__sleep_until_next_time` is
  proved to be the next 00:00 or 12:00 UTC strictly after now. The skip condition in `main` is
  proved to be the first two minutes after each such time.
- **the Reddit source** (`reddit.dfy`): the nine-flag / two-threshold / non-empty-URL
  acceptance test, and the loop of at most five draws with a one-second pause between draws.

Python values are modelled in `python.dfy`: `None` as `Option`, a raised exception as
`Result.Raise`, and truthiness as predicates. The `str` operations and `sorted` are modelled in
`text.dfy`, with strings as `seq<char>` and `sorted` as code-point lexicographic order.

Three details of the code that the model keeps as written:

- The post is stripped at both ends (`str.strip()`), not only at the end.
- A handle is rejected only when it holds the character `' '`. Other whitespace inside a handle
  is kept.
- In the newer revision the ellipsis is the three characters `â€¦` (U+00E2 U+20AC U+00A6),
  exactly as written in `src/rwb/bot.py:361`. A cut title is therefore 51 characters long. The
  older revision uses the single character `…`, which gives 49.

## Model

| member | source | states |
|---|---|---|
| Format.Rewrite | src/rwb/bot.py:346-347 | the `replacements.get(t, t)` lookup changes a tag exactly when it is `c`, and turns `c` into `cprogramming` |
| Format.TagsOrEmpty | src/rwb/bot.py:345 | `tags or []`: `None` counts as no tags, which `Hashtags` states for its result |
| Format.Rendered | src/rwb/bot.py:347 | one rendered tag per tag, in order, each `#` followed by the rewritten tag |
| Format.Hashtags | src/rwb/bot.py:344-347 | `None` counts as no tags; one hashtag per tag, each starting with `#`, in ascending string order, holding exactly the rendered tags (as a multiset); the older `__hashtags` at src/bot.py:242-246 is the same |
| Format.HashtagMembership | src/rwb/bot.py:346-347 | a string is a hashtag iff it is `"#" + t` for some tag `t` after the `c` → `cprogramming` rewrite |
| Format.CRendersAsCprogramming | src/rwb/bot.py:346-347 | for every tag list holding `c`, the hashtags include `#cprogramming` |
| Format.NeverHashC | src/rwb/bot.py:346-347 | no tag list gives the hashtag `#c` |
| Format.HashtagsAreTheSortedTags | src/rwb/bot.py:347 | any ascending arrangement of the rendered tags equals `Hashtags`, so the result is what `sorted` returns |
| RwbBot.HashtagsOfCAndRust | src/rwb/bot.py:346-347 | the tags `c`, `rust` give `#cprogramming`, `#rust` |
| Format.Truncate | src/rwb/bot.py:359-361 | a title of at most 50 characters is unchanged; a longer one is its first 48 characters followed by the ellipsis |
| RwbBot.CutTitleLength | src/rwb/bot.py:359-361 | with the newer ellipsis a cut title is 51 characters long |
| Bot.CutTitleLength | src/bot.py:254-256 | with the single-character ellipsis a cut title is 49 characters long |
| Format.Sections | src/rwb/bot.py:363-376 | the sections in written order; the URL is always one of them and it is the only one that may be empty (the others are left out when empty); `ComposeWritten` ties it to the `if` chain |
| Format.Compose | src/rwb/bot.py:378 | the composed post has no whitespace at either end |
| Format.ComposeWritten | src/rwb/bot.py:363-378 | composing the sections equals stripping the text written paragraph by paragraph: title if non-empty, URL, discussions line, hashtag line and attribution if non-empty |
| Format.LinkLine | src/rwb/bot.py:369-370 | the discussions line is empty iff the link is absent or empty; otherwise it is `Discussions: ` followed by the link |
| Format.TagLine | src/rwb/bot.py:372-373 | the hashtags joined by single spaces; `TagLineEmpty` states when it is empty |
| Format.TagLineEmpty | src/rwb/bot.py:372-373 | the joined hashtag line is empty exactly when there is no hashtag |
| Format.ComposeIsJoined | src/rwb/bot.py:363-378 | when the first section does not start and the last does not end with whitespace, the post is exactly the sections joined by blank lines |
| Format.TerminatedIsJoined | src/rwb/bot.py:363-376 | the text written before stripping is the sections joined by blank lines, plus one final blank line |
| Format.UrlKept | src/rwb/bot.py:367 | the URL, without its surrounding whitespace, always occurs in the post |
| RwbBot.Attribution | src/rwb/bot.py:375-376 | the attribution line is empty iff the creator handle is absent or empty; otherwise it is `by @` followed by the handle |
| RwbBot.BuildStatus | src/rwb/bot.py:350-378 | `__build_status`: the `+=` steps produce exactly `Compose(Sections(...))` with the newer ellipsis and the `by @` attribution; the creator handle defaults to `None` |
| RwbBot.TitleAndUrlOnly | src/rwb/bot.py:363-378 | a title of 1 to 50 characters that does not start with whitespace, a non-empty URL that does not end with whitespace, no discussions, no or empty tags and no creator give `title + "\n\n" + url` |
| Bot.BuildStatus | src/bot.py:249-275 | `build_status`: the `+=` steps with the `if`/`elif` attribution produce exactly `Compose(Sections(...))` with the single-character ellipsis; both handles default to `None` |
| Bot.Attribution | src/bot.py:270-273 | the `if`/`elif` attribution line; its precedence is stated by `AttributionPrecedence` |
| Bot.AttributionPrecedence | src/bot.py:270-273 | a present creator makes the site handle irrelevant; a `via @` line appears iff there is no creator but a site handle; no line iff neither |
| Bot.AttributionWithoutSite | src/bot.py:270-273 | without a site handle the older attribution is the newer one |
| Metadata.Candidate | src/rwb/bot.py:304-309 | on a non-empty string the pipeline raises `IndexError` iff the string is only `/`s; otherwise its value holds no `/` |
| Metadata.CandidateOfSegment | src/rwb/bot.py:304-309 | a string ending in `/` and a `/`-free segment with non-whitespace ends gives that segment minus a leading `@` |
| RwbBot.CreatorHandle | src/rwb/bot.py:301-312 | the handle never holds `/` or a space; it raises only `IndexError`, and exactly when what is left after the first `@` is non-empty and all `/` |
| RwbBot.CreatorHandleOfProfileUrl | src/rwb/bot.py:301-312 | for a profile URL, the handle is the last segment minus `@` (so `.../@foo` gives `foo`), or empty when that holds a space (so `.../foo/bar baz` gives `""`) |
| RwbBot.NormaliseCreator | src/rwb/bot.py:301-312 | the step-by-step rebinding of `twitter_by` computes `CreatorHandle` |
| RwbBot.PageTitle | src/rwb/bot.py:290-292 | the page title is stripped, and empty when the page has no `<title>` |
| RwbBot.GetWebsiteInfo | src/rwb/bot.py:283-314 | a response that is not OK and the sign-in title give `("", "", False)`; otherwise the stripped title and the creator handle, or the pipeline's exception; a success has a stripped title that is not the sign-in title and a clean handle |
| Bot.Handle | src/bot.py:186-220 | an absent handle is `None`; a present one holds no `/` or space; it raises only `IndexError`, exactly when what is left after the first `@` is non-empty and all `/` |
| Bot.HandleAgreesWithNewerRevision | src/bot.py:186-220 | the older and newer pipelines raise on the same contents; the older `None` is the newer `""`; a present handle is the same string in both |
| Bot.NormaliseHandle | src/bot.py:200-209 | the step-by-step rebinding of `twitter_by` (and likewise `twitter_via`) computes `Handle` |
| Bot.GetWebsiteInfo | src/bot.py:177-222 | a response that is not OK gives `(None, None, None, False)`; a page with no title raises `AttributeError`; otherwise the stripped title with the creator then site handle, unless either raises, creator first |
| Metadata.Silent | src/rwb/bot.py:334-338 | true iff `total_comments`, `total_discussions` and `articles_count` are each absent or zero; `DiscussionGate` states what follows from it |
| Metadata.DiscussionGate | src/rwb/bot.py:334-341 | all three counts absent or zero give `(None, None)` whatever else the reply holds; otherwise `(discussions_url, tags)`; the older gate at src/bot.py:232-239 is the same |
| RwbBot.UrlBlacklisted | src/rwb/bot.py:381-385 | a URL is refused iff it is empty |
| RwbBot.RandomWebsiteFromReddit | src/rwb/bot.py:260-263 | with thresholds 50 and 10, a URL is non-empty and is the URL of the first acceptable draw (unflagged, at least 50 points and 10 comments, non-empty URL); `None` iff no draw is acceptable |
| Reddit.Disqualified | src/rwb/reddit.py:45-56 | true iff any of the nine flags is set; the older src/reddit.py:34-45 is the same; `GetRandomUrl` skips such draws |
| Reddit.Acceptable | src/rwb/reddit.py:45-62 | no flag, score and comments at least the thresholds, a non-empty URL; the older src/reddit.py:34-51 is the same; `ThresholdsInclusive` states its thresholds |
| Reddit.ThresholdsInclusive | src/rwb/reddit.py:57-60 | an unflagged post with a URL passes when score and comments equal the thresholds, and fails one below either |
| Reddit.GetRandomUrl | src/rwb/reddit.py:38-66 | at most five draws, one pause before each but the first; the result is the URL of the first acceptable draw, and `None` iff none of the five is acceptable, after all five draws; the thresholds default to 10 and 10 (src/rwb/reddit.py:26-27); the older loop at src/reddit.py:27-55 is the same |
| Schedule.HourOfDay | src/rwb/bot.py:439 | `now.hour` in UTC lies in 0..23 |
| Schedule.MinuteOfHour | src/rwb/bot.py:466 | `now.minute` lies in 0..59 |
| Schedule.HourStart | src/rwb/bot.py:440-446 | `datetime(now.year, now.month, now.day, hour)` is the whole hour at or before now, less than an hour before it |
| Schedule.SkipPreRunSleep | src/rwb/bot.py:464-466 | the `main` condition `hour % 12 == 0 and minute < 2`; `SkipWindow` states when it holds |
| Schedule.WakeTime | src/rwb/bot.py:437-447 | `later` is a multiple of twelve hours, strictly after now and at most twelve hours later |
| Schedule.WakeTimeIsNextBoundary | src/rwb/bot.py:440-447 | no 00:00 or 12:00 UTC lies strictly between now and `later` |
| Schedule.WakeTimeOnTheHour | src/rwb/bot.py:440-447 | `later` is at hour 0 or 12 with zero minutes and seconds |
| Schedule.Delay | src/rwb/bot.py:449 | the sleep is strictly positive and at most twelve hours |
| Schedule.SkipWindow | src/rwb/bot.py:464-467 | `hour % 12 == 0 and minute < 2` holds iff now is less than two minutes past a 00:00 or 12:00 UTC |
| Text.Strip | src/rwb/bot.py:307 | `str.strip()`: the result has no whitespace at its ends and only characters of the input |
| Text.StripIsSlice | src/rwb/bot.py:307 | `str.strip()` is a slice of the input with only whitespace outside it |
| Text.StripIdempotent | src/rwb/bot.py:292 | stripping twice is stripping once |
| Text.StripKeepsCore | src/rwb/bot.py:378 | stripping a text keeps the stripped version of any part of it |
| Text.RemovePrefix | src/rwb/bot.py:309 | `str.removeprefix`: the prefix and the result make up the input when the prefix is there; otherwise the input is unchanged |
| Text.Join | src/rwb/bot.py:373 | `sep.join(parts)`; `JoinSplit` shows it undoes `Split`, and `JoinStarts` that it starts with the first part |
| Text.JoinStarts | src/rwb/bot.py:373 | a join of a non-empty list starts with its first part |
| Text.Split | src/rwb/bot.py:304 | `str.split(c)`: at least one piece, none holding `c` |
| Text.JoinSplit | src/rwb/bot.py:304 | joining the pieces with `c` gives back the input |
| Text.NonEmpty | src/rwb/bot.py:305 | the kept pieces are non-empty and come from the input, and every non-empty input piece is kept |
| Text.SplitOnlySeparators | src/rwb/bot.py:304-306 | a string made only of `/` leaves no non-empty piece, so `parts[-1]` fails |
| Text.LastNonEmptyPiece | src/rwb/bot.py:304-306 | otherwise the last kept piece is the text after the last `/` once trailing `/`s are dropped |
| Text.LexLe | src/rwb/bot.py:347 | Python's `<=` on `str`: lexicographic by code point, a prefix first; `LexLeReflexive`, `LexLeTotal`, `LexLeAntisymmetric` and `LexLeTransitive` show it is a total order |
| Text.LexLeTotal | src/rwb/bot.py:347 | any two strings are comparable |
| Text.LexLeAntisymmetric | src/rwb/bot.py:347 | two strings each at most the other are equal |
| Text.LexLeTransitive | src/rwb/bot.py:347 | the order is transitive |
| Text.Sorted | src/rwb/bot.py:347 | every element is at most every later one in `LexLe` |
| Text.Sort | src/rwb/bot.py:347 | the result is ascending and a permutation of the input |
| Text.SortedUnique | src/rwb/bot.py:347 | two ascending permutations of the same strings are equal |

## Left out

- Network I/O: the HTTP requests, the Twitter, Mastodon and Reddit clients, screenshots and
  uploads. A fetch's outcome comes in as a parameter (`None` for a response that is not OK), and so does the
  sequence of posts that `sub.random()` would return.
- A transport error or timeout in `requests.get` raises out of `__get_website_info` /
  `get_website_info` (it is caught only in `main`); the model's `page` parameter covers only the
  response that is not OK and the page that was fetched.
- HTML parsing: the title text and meta-tag contents come in as strings. The empty string stands
  for an absent tag or content, because `.get("content", "")` gives the same value.
- The random choice of a website source, `base64` and `mimetypes`, environment variables, the
  dev-mode switch and logging.
- `time.sleep`: the Reddit loop counts its pauses instead. The schedule uses whole seconds since
  the epoch rather than `datetime` and a float `total_seconds()`. Leap seconds do not occur.
- The endless loops and exception handlers of `main`, `__execute` and `execute`. So is the older
  `main`'s fixed two-hour sleep, which holds no logic beyond the constant.
- `__get_discussions` / `get_discussions` beyond the count gate: the request, the newer
  revision's handling of request failures, and JSON decoding. Counts come in as optional
  integers.
- `src/rwb/test_bot.py`, which only calls the live adapters.

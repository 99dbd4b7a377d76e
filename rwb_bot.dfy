/**
 * The deterministic parts of the newer bot revision: composing a post, reading a page's title
 * and creator handle, the URL gate and the Reddit source's thresholds. Fetching, parsing,
 * screenshots and publishing happen outside; their results come in as parameters.
 */
module RwbBot {
  import opened Python
  import opened Text
  import opened Format
  import opened Metadata
  import Reddit

  /**
   * The ellipsis this revision appends to a cut title: the three characters U+00E2 U+20AC
   * U+00A6, which is how the UTF-8 bytes of `…` read when decoded as Windows-1252.
   */
  const Ellipsis := "\U{E2}\U{20AC}\U{A6}"

  /** The attribution line for a creator handle: none when the handle is absent or empty. */
  function Attribution(byAccount: Option<string>): (line: string)
    ensures line == [] <==> !TruthyOptText(byAccount)
    ensures line != [] ==> "by @" <= line && line[4..] == byAccount.value
  {
    if TruthyOptText(byAccount) then "by @" + byAccount.value else ""
  }

  /**
   * `__build_status`: the post text is built section by section, each section followed by a
   * blank line, and stripped at the end. It is the composition of `Sections`, so the sections
   * keep their fixed order; it has no whitespace at either end and always holds the URL.
   */
  method BuildStatus(title: string, url: string, discussionsUrl: Option<string>,
                     tags: Option<seq<string>>, byAccount: Option<string> := None)
    returns (status: string)
    ensures status == Compose(Sections(title, Ellipsis, url, discussionsUrl, tags, Attribution(byAccount)))
  {
    var hashtags := Hashtags(tags);

    var t := title;
    if |t| > MaxTitleLen {
      t := t[..MaxTitleLen - 2] + Ellipsis;
    }
    assert t == Truncate(title, Ellipsis);

    // `text` grows by one paragraph (a line and a blank line) per section written
    var text := "";
    ParagraphFirst(t);
    if t != [] {
      text := text + t + "\n\n";
    }
    assert text == Paragraph(t);
    text := text + url + "\n\n";
    ghost var before := text;
    ParagraphAppended(before, LinkLine(discussionsUrl));
    if TruthyOptText(discussionsUrl) {
      text := text + ("Discussions: " + discussionsUrl.value) + "\n\n";
    }
    assert text == before + Paragraph(LinkLine(discussionsUrl));
    before := text;
    ParagraphAppended(before, TagLine(tags));
    if hashtags != [] {
      text := text + Join(hashtags, " ") + "\n\n";
    }
    assert text == before + Paragraph(TagLine(tags)) by {
      TagLineEmpty(tags);
    }
    before := text;
    ParagraphAppended(before, Attribution(byAccount));
    if TruthyOptText(byAccount) {
      text := text + ("by @" + byAccount.value) + "\n\n";
    }
    assert text == before + Paragraph(Attribution(byAccount));
    ComposeWritten(title, Ellipsis, url, discussionsUrl, tags, Attribution(byAccount));
    status := Strip(text);
  }

  /** In this revision a cut title is 51 characters long. */
  lemma CutTitleLength(title: string)
    requires |title| > MaxTitleLen
    ensures |Truncate(title, Ellipsis)| == 51
  {
  }

  /**
   * A short title that does not start with whitespace, a URL that does not end with it, no discussions, no tags (absent or an
   * empty list) and no creator make a post of two paragraphs: the title, a blank line, the URL.
   */
  lemma TitleAndUrlOnly(title: string, url: string, tags: Option<seq<string>>)
    requires 0 < |title| <= MaxTitleLen && !IsWhitespace(title[0])
    requires url != [] && !IsWhitespace(url[|url| - 1])
    requires TagsOrEmpty(tags) == []
    ensures Compose(Sections(title, Ellipsis, url, None, tags, Attribution(None))) == title + "\n\n" + url
  {
    var sections := Sections(title, Ellipsis, url, None, tags, Attribution(None));
    assert Optional(TagLine(tags)) == [] by {
      assert |Hashtags(tags)| == 0;
    }
    assert sections == [title, url];
    ComposeIsJoined(sections);
    assert sections[..1] == [title];
  }

  /** The tags `c` and `rust` give the hashtags `#cprogramming` and `#rust`, in that order. */
  lemma HashtagsOfCAndRust()
    ensures Hashtags(Some(["c", "rust"])) == ["#cprogramming", "#rust"]
  {
    var s := ["#cprogramming", "#rust"];
    var rendered := Rendered(["c", "rust"]);
    assert |rendered| == 2 && rendered[0] == s[0] && rendered[1] == s[1];
    assert rendered == s;
    assert LexLe(s[0], s[1]) by {
      assert s[0][0] == s[1][0] && s[0][1] < s[1][1];
    }
    HashtagsAreTheSortedTags(Some(["c", "rust"]), s);
  }

  /**
   * What the creator pipeline yields for the content of a `twitter:creator` meta tag (empty
   * when the tag or its content is absent): one leading `@` removed, and if anything is left,
   * the last non-empty `/`-segment, stripped, with one more leading `@` removed, and emptied
   * if it holds a space. The result never holds a `/` or a space; it raises `IndexError`
   * exactly when what is left after the first `@` is non-empty and made only of `/`.
   */
  function CreatorHandle(content: string): (r: Result<string>)
    ensures r.Ok? ==> '/' !in r.value && ' ' !in r.value
    ensures r.Raise? ==> r.fault == IndexError
    ensures r.Raise? <==> RemovePrefix(content, "@") != [] && OnlyOf(RemovePrefix(content, "@"), '/')
  {
    var s := RemovePrefix(content, "@");
    if s == [] then Ok([])
    else match Candidate(s)
      case Raise(f) => Raise(f)
      case Ok(h) => Ok(if ' ' in h then [] else h)
  }

  /**
   * For a profile URL such as `https://twitter.com/@name`, the handle is the last path segment
   * with its `@` removed, or empty when that holds a space.
   */
  lemma CreatorHandleOfProfileUrl(prefix: string, segment: string)
    requires prefix != [] && prefix[0] != '@' && prefix[|prefix| - 1] == '/'
    requires segment != [] && '/' !in segment
    requires !IsWhitespace(segment[0]) && !IsWhitespace(segment[|segment| - 1])
    ensures var name := RemovePrefix(segment, "@");
      CreatorHandle(prefix + segment) == Ok(if ' ' in name then [] else name)
  {
    var content := prefix + segment;
    assert !("@" <= content) by {
      assert content[0] == prefix[0] != '@' == "@"[0];
    }
    CandidateOfSegment(prefix, segment);
  }

  /**
   * The creator normalisation of `__get_website_info`, step by step as the source rebinds its
   * locals: remove `@`, split on `/`, keep the non-empty parts, take the last one (raising
   * `IndexError` when there is none), strip, remove `@`, and clear it if it holds a space.
   */
  method NormaliseCreator(content: string) returns (r: Result<string>)
    ensures r == CreatorHandle(content)
  {
    var handle := RemovePrefix(content, "@");
    if handle != [] {
      ghost var s := handle;
      var parts := Split(handle, '/');
      parts := NonEmpty(parts);
      if OnlyOf(s, '/') {
        SplitOnlySeparators(s, '/');
        assert parts == [];
      } else {
        LastNonEmptyPiece(s, '/');
        assert parts != [] && parts[|parts| - 1] == AfterLast(TrimTrailing(s, '/'), '/');
      }
      if parts == [] {
        assert Candidate(s) == Raise(IndexError);
        return Raise(IndexError);  // parts[-1]
      }
      handle := parts[|parts| - 1];
      handle := Strip(handle);
      handle := RemovePrefix(handle, "@");
      assert Candidate(s) == Ok(handle);
      if ' ' in handle {
        handle := "";
      }
    }
    return Ok(handle);
  }

  /**
   * A fetched page as the inspector sees it: the text of its `<title>` (`None` when it has
   * none) and the content of its `twitter:creator` meta tag (empty when absent).
   */
  datatype Page = Page(title: Option<string>, creator: string)

  /** `(title, twitter_by, success)`. */
  datatype WebsiteInfo = WebsiteInfo(title: string, handle: string, success: bool)

  /**
   * `__get_website_info` after the fetch: `None` stands for a response that is not OK.
   * Such a response and the sign-in page both give `("", "", False)`; otherwise the stripped
   * title (empty without a `<title>`) comes with the normalised creator handle, unless the
   * handle pipeline raises.
   */
  method GetWebsiteInfo(page: Option<Page>) returns (r: Result<WebsiteInfo>)
    ensures page.None? ==> r == Ok(WebsiteInfo("", "", false))
    ensures page.Some? && PageTitle(page.value) == SignInTitle ==> r == Ok(WebsiteInfo("", "", false))
    ensures page.Some? && PageTitle(page.value) != SignInTitle ==>
      match CreatorHandle(page.value.creator)
      case Raise(f) => r == Raise(f)
      case Ok(h) => r == Ok(WebsiteInfo(PageTitle(page.value), h, true))
    ensures r.Ok? && r.value.success ==>
      r.value.title != SignInTitle && Strip(r.value.title) == r.value.title &&
      '/' !in r.value.handle && ' ' !in r.value.handle
  {
    if page.None? {
      return Ok(WebsiteInfo("", "", false));
    }
    var title := "";
    if page.value.title.Some? {
      title := Strip(page.value.title.value);
    }
    assert title == PageTitle(page.value);
    if title == SignInTitle {
      return Ok(WebsiteInfo("", "", false));
    }
    var handle := NormaliseCreator(page.value.creator);
    if handle.Raise? {
      return Raise(handle.fault);
    }
    StripIdempotent(title);
    return Ok(WebsiteInfo(title, handle.value, true));
  }

  /** `h.title.text.strip()` when there is a title, else `""`. */
  function PageTitle(p: Page): (title: string)
    ensures Strip(title) == title
    ensures p.title.None? ==> title == []
  {
    if p.title.Some? then
      StripIdempotent(p.title.value);
      Strip(p.title.value)
    else ""
  }

  /** `__url_blacklisted`: only the empty URL is refused. */
  function UrlBlacklisted(url: string): (blacklisted: bool)
    ensures blacklisted <==> url == []
  {
    !TruthyText(url)
  }

  /** The thresholds with which the bot asks Reddit for a website. */
  const RedditMinScore := 50
  const RedditMinComments := 10

  /**
   * `__get_random_website_reddit`: the URL of the first of the five draws from
   * `InternetIsBeautiful` that is unflagged, has at least 50 points and 10 comments and links
   * somewhere, or `None` when none of them qualifies.
   */
  method RandomWebsiteFromReddit(draws: seq<Reddit.Post>) returns (url: Option<string>)
    requires |draws| == Reddit.MaxDraws
    ensures url.Some? ==> exists j :: (0 <= j < |draws| && draws[j].url == url.value &&
      draws[j].score >= RedditMinScore && draws[j].numComments >= RedditMinComments &&
      !Reddit.Disqualified(draws[j]))
    ensures url.Some? ==> url.value != [] && exists j :: (0 <= j < |draws| && url.value == draws[j].url &&
      Reddit.Acceptable(draws[j], RedditMinScore, RedditMinComments) &&
      forall k :: 0 <= k < j ==> !Reddit.Acceptable(draws[k], RedditMinScore, RedditMinComments))
    ensures url.None? <==> forall j :: 0 <= j < |draws| ==>
      !Reddit.Acceptable(draws[j], RedditMinScore, RedditMinComments)
  {
    var taken, pauses;
    url, taken, pauses := Reddit.GetRandomUrl(draws, RedditMinScore, RedditMinComments);
    if url.Some? {
      var j := taken - 1;
      assert url.value == draws[j].url && Reddit.Acceptable(draws[j], RedditMinScore, RedditMinComments);
    }
  }
}

/**
 * The deterministic parts of the older bot revision: composing a post with a `by` or `via`
 * attribution, and reading a page's title and its creator and site handles. Fetching, parsing,
 * screenshots and publishing happen outside; their results come in as parameters.
 */
module Bot {
  import opened Python
  import opened Text
  import opened Format
  import opened Metadata
  import RwbBot

  /** The ellipsis this revision appends to a cut title: the single character U+2026. */
  const Ellipsis := "\U{2026}"

  /**
   * The attribution line: `by @<by>` when the creator handle is present and not empty,
   * otherwise `via @<via>` when the site handle is, otherwise none.
   */
  function Attribution(byAccount: Option<string>, viaAccount: Option<string>): string {
    if TruthyOptText(byAccount) then "by @" + byAccount.value
    else if TruthyOptText(viaAccount) then "via @" + viaAccount.value
    else ""
  }

  /**
   * The creator takes precedence: when it is present the site handle plays no part, and a
   * `via` line appears exactly when there is no creator but a site handle.
   */
  lemma AttributionPrecedence(byAccount: Option<string>, via1: Option<string>, via2: Option<string>)
    ensures TruthyOptText(byAccount) ==> Attribution(byAccount, via1) == Attribution(byAccount, via2)
    ensures "via @" <= Attribution(byAccount, via1) <==> !TruthyOptText(byAccount) && TruthyOptText(via1)
    ensures Attribution(byAccount, via1) == [] <==> !TruthyOptText(byAccount) && !TruthyOptText(via1)
  {
    var a := Attribution(byAccount, via1);
    if TruthyOptText(byAccount) {
      assert a[0] == 'b' != "via @"[0];
    }
  }

  /** Without a site handle the attribution is the one of the newer revision. */
  lemma AttributionWithoutSite(byAccount: Option<string>)
    ensures Attribution(byAccount, None) == RwbBot.Attribution(byAccount)
  {
  }

  /**
   * `build_status`: the post text is built section by section, each section followed by a
   * blank line, and stripped at the end; the attribution comes from an `if`/`elif` on the two
   * handles. It is the composition of `Sections`, so the sections keep their fixed order.
   */
  method BuildStatus(title: string, url: string, discussionsUrl: Option<string>,
                     tags: Option<seq<string>>, byAccount: Option<string> := None,
                     viaAccount: Option<string> := None)
    returns (status: string)
    ensures status == Compose(Sections(title, Ellipsis, url, discussionsUrl, tags, Attribution(byAccount, viaAccount)))
  {
    var hashtags := Hashtags(tags);

    var t := title;
    if |t| > MaxTitleLen {
      t := t[..MaxTitleLen - 2] + Ellipsis;
    }
    assert t == Truncate(title, Ellipsis);

    // `text` grows by one paragraph (a line and a blank line) per section written
    var text := "";
    ParagraphFirst(t);
    if t != [] {
      text := text + t + "\n\n";
    }
    assert text == Paragraph(t);
    text := text + url + "\n\n";
    ghost var before := text;
    ParagraphAppended(before, LinkLine(discussionsUrl));
    if TruthyOptText(discussionsUrl) {
      text := text + ("Discussions: " + discussionsUrl.value) + "\n\n";
    }
    assert text == before + Paragraph(LinkLine(discussionsUrl));
    before := text;
    ParagraphAppended(before, TagLine(tags));
    if hashtags != [] {
      text := text + Join(hashtags, " ") + "\n\n";
    }
    assert text == before + Paragraph(TagLine(tags)) by {
      TagLineEmpty(tags);
    }
    before := text;
    ParagraphAppended(before, Attribution(byAccount, viaAccount));
    if TruthyOptText(byAccount) {
      text := text + ("by @" + byAccount.value) + "\n\n";
    } else if TruthyOptText(viaAccount) {
      text := text + ("via @" + viaAccount.value) + "\n\n";
    }
    assert text == before + Paragraph(Attribution(byAccount, viaAccount));
    ComposeWritten(title, Ellipsis, url, discussionsUrl, tags, Attribution(byAccount, viaAccount));
    status := Strip(text);
  }

  /** In this revision a cut title is 49 characters long. */
  lemma CutTitleLength(title: string)
    requires |title| > MaxTitleLen
    ensures |Truncate(title, Ellipsis)| == 49
  {
  }

  /**
   * What the handle pipeline yields for the content of a `twitter:creator` or `twitter:site`
   * meta tag (empty when the tag or its content is absent): nothing when the content is empty
   * once one leading `@` is removed; otherwise the last non-empty `/`-segment, stripped, with
   * one more leading `@` removed, and nothing if it holds a space. A present handle never holds
   * a `/` or a space; the pipeline raises `IndexError` exactly when what is left after the
   * first `@` is non-empty and made only of `/`.
   */
  function Handle(content: string): (r: Result<Option<string>>)
    ensures r.Ok? && r.value.Some? ==> '/' !in r.value.value && ' ' !in r.value.value
    ensures r.Raise? ==> r.fault == IndexError
    ensures r.Raise? <==> RemovePrefix(content, "@") != [] && OnlyOf(RemovePrefix(content, "@"), '/')
  {
    var s := RemovePrefix(content, "@");
    if s == [] then Ok(None)
    else match Candidate(s)
      case Raise(f) => Raise(f)
      case Ok(h) => Ok(if ' ' in h then None else Some(h))
  }

  /**
   * The two revisions read a handle alike: they raise on the same contents, and where the
   * older one finds no handle the newer one gives the empty handle.
   */
  lemma HandleAgreesWithNewerRevision(content: string)
    ensures Handle(content).Raise? <==> RwbBot.CreatorHandle(content).Raise?
    ensures Handle(content) == Ok(None) ==> RwbBot.CreatorHandle(content) == Ok([])
    ensures Handle(content).Ok? && Handle(content).value.Some? ==>
      RwbBot.CreatorHandle(content) == Ok(Handle(content).value.value)
  {
  }

  /**
   * The normalisation of one handle in `get_website_info`, step by step as the source rebinds
   * its locals: remove `@` (nothing when that leaves the empty string), split on `/`, keep the
   * non-empty parts, take the last one (raising `IndexError` when there is none), strip,
   * remove `@`, and drop it if it holds a space.
   */
  method NormaliseHandle(content: string) returns (r: Result<Option<string>>)
    ensures r == Handle(content)
  {
    var s := RemovePrefix(content, "@");
    if s == [] {
      return Ok(None);
    }
    var parts := Split(s, '/');
    parts := NonEmpty(parts);
    if OnlyOf(s, '/') {
      SplitOnlySeparators(s, '/');
      assert parts == [];
    } else {
      LastNonEmptyPiece(s, '/');
      assert parts != [] && parts[|parts| - 1] == AfterLast(TrimTrailing(s, '/'), '/');
    }
    if parts == [] {
      assert Candidate(s) == Raise(IndexError);
      return Raise(IndexError);  // parts[-1]
    }
    var handle := parts[|parts| - 1];
    handle := Strip(handle);
    handle := RemovePrefix(handle, "@");
    assert Candidate(s) == Ok(handle);
    if ' ' in handle {
      return Ok(None);
    }
    return Ok(Some(handle));
  }

  /**
   * A fetched page as this revision sees it: the text of its `<title>` (`None` when it has
   * none) and the contents of its `twitter:creator` and `twitter:site` meta tags (empty when
   * absent).
   */
  datatype Page = Page(title: Option<string>, creator: string, site: string)

  /** `(title, twitter_by, twitter_via, success)`. */
  datatype WebsiteInfo = WebsiteInfo(
    title: Option<string>, byAccount: Option<string>, viaAccount: Option<string>, success: bool)

  /**
   * `get_website_info` after the fetch: `None` stands for a response that is not OK and
   * gives `(None, None, None, False)`. A page without a `<title>` raises `AttributeError`;
   * otherwise the stripped title comes with the creator and site handles, normalised in that
   * order, unless one of them raises.
   */
  method GetWebsiteInfo(page: Option<Page>) returns (r: Result<WebsiteInfo>)
    ensures page.None? ==> r == Ok(WebsiteInfo(None, None, None, false))
    ensures page.Some? && page.value.title.None? ==> r == Raise(AttributeError)
    ensures page.Some? && page.value.title.Some? ==>
      match (Handle(page.value.creator), Handle(page.value.site))
      case (Raise(f), _) => r == Raise(f)
      case (Ok(_), Raise(f)) => r == Raise(f)
      case (Ok(b), Ok(v)) => r == Ok(WebsiteInfo(Some(Strip(page.value.title.value)), b, v, true))
    ensures r.Ok? && r.value.success ==>
      r.value.title.Some? && Strip(r.value.title.value) == r.value.title.value &&
      (r.value.byAccount.Some? ==> '/' !in r.value.byAccount.value && ' ' !in r.value.byAccount.value) &&
      (r.value.viaAccount.Some? ==> '/' !in r.value.viaAccount.value && ' ' !in r.value.viaAccount.value)
  {
    if page.None? {
      return Ok(WebsiteInfo(None, None, None, false));
    }
    if page.value.title.None? {
      return Raise(AttributeError);  // h.title.text
    }
    var title := Strip(page.value.title.value);
    var byAccount := NormaliseHandle(page.value.creator);
    if byAccount.Raise? {
      return Raise(byAccount.fault);
    }
    var viaAccount := NormaliseHandle(page.value.site);
    if viaAccount.Raise? {
      return Raise(viaAccount.fault);
    }
    StripIdempotent(page.value.title.value);
    return Ok(WebsiteInfo(Some(title), byAccount.value, viaAccount.value, true));
  }
}

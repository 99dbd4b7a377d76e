/**
 * The status formatter shared by both revisions of the bot: hashtags from discussion tags,
 * title truncation, and the order in which the sections of a post are laid out.
 */
module Format {
  import opened Python
  import opened Text

  /** `{"c": "cprogramming"}.get(tag, tag)`: the one tag that is renamed before posting. */
  function Rewrite(tag: string): (r: string)
    ensures r != tag <==> tag == "c"
    ensures tag == "c" ==> r == "cprogramming"
  {
    if tag == "c" then "cprogramming" else tag
  }

  /** `["#" + t for t in (replacements.get(t, t) for t in tags)]`, before sorting. */
  function Rendered(tags: seq<string>): (r: seq<string>)
    ensures |r| == |tags|
    ensures forall i :: 0 <= i < |r| ==> "#" <= r[i] && r[i][1..] == Rewrite(tags[i])
  {
    seq(|tags|, i requires 0 <= i < |tags| => "#" + Rewrite(tags[i]))
  }

  /** `tags or []`. */
  function TagsOrEmpty(tags: Option<seq<string>>): seq<string> {
    if tags.Some? then tags.value else []
  }

  /**
   * `__hashtags(tags)`: one hashtag per tag (`None` counts as no tags), each starting with
   * `#`, in ascending string order, and holding exactly the rendered tags.
   */
  function Hashtags(tags: Option<seq<string>>): (r: seq<string>)
    ensures |r| == |TagsOrEmpty(tags)|
    ensures Sorted(r)
    ensures multiset(r) == multiset(Rendered(TagsOrEmpty(tags)))
    ensures forall i :: 0 <= i < |r| ==> "#" <= r[i]
  {
    var rendered := Rendered(TagsOrEmpty(tags));
    var r := Sort(rendered);
    assert |r| == |multiset(r)| == |rendered|;
    forall i | 0 <= i < |r| ensures "#" <= r[i] {
      assert r[i] in multiset(rendered);
      var j :| 0 <= j < |rendered| && rendered[j] == r[i];
    }
    r
  }

  /** The hashtags are the rendered tags and nothing else: `"c"` shows as `#cprogramming`. */
  lemma HashtagMembership(tags: seq<string>, h: string)
    ensures h in Hashtags(Some(tags)) <==> exists t :: t in tags && h == "#" + Rewrite(t)
  {
    var r := Hashtags(Some(tags));
    var rendered := Rendered(tags);
    assert h in r <==> h in multiset(rendered);
    if h in rendered {
      var j :| 0 <= j < |rendered| && rendered[j] == h;
      assert tags[j] in tags;
    }
    if t :| t in tags && h == "#" + Rewrite(t) {
      var j :| 0 <= j < |tags| && tags[j] == t;
      assert rendered[j] == h;
    }
  }

  /** A tag `c` shows as `#cprogramming`, whatever the other tags. */
  lemma CRendersAsCprogramming(tags: seq<string>)
    requires "c" in tags
    ensures "#cprogramming" in Hashtags(Some(tags))
  {
    RenderedC(tags);
    assert "#cprogramming" in multiset(Hashtags(Some(tags)));
  }

  /** No tag list gives the hashtag `#c`: the tag `c` is always renamed. */
  lemma NeverHashC(tags: seq<string>)
    ensures "#c" !in Hashtags(Some(tags))
  {
    RenderedC(tags);
    assert "#c" !in multiset(Hashtags(Some(tags)));
  }

  lemma RenderedC(tags: seq<string>)
    ensures "c" in tags ==> "#cprogramming" in multiset(Rendered(tags))
    ensures "#c" !in multiset(Rendered(tags))
  {
    var rendered := Rendered(tags);
    if "c" in tags {
      var i :| 0 <= i < |tags| && tags[i] == "c";
      assert rendered[i] == "#cprogramming";
    }
    forall i | 0 <= i < |rendered| ensures rendered[i] != "#c" {
      assert rendered[i][1..] == Rewrite(tags[i]);
    }
  }

  /**
   * Any ascending arrangement of the rendered tags is `Hashtags`: the result does not depend
   * on the sorting algorithm, so it is what Python's `sorted` returns.
   */
  lemma HashtagsAreTheSortedTags(tags: Option<seq<string>>, s: seq<string>)
    requires Sorted(s) && multiset(s) == multiset(Rendered(TagsOrEmpty(tags)))
    ensures Hashtags(tags) == s
  {
    SortedUnique(Hashtags(tags), s);
  }

  /** The title length above which a title is cut. */
  const MaxTitleLen := 50

  /**
   * A title longer than `MaxTitleLen` keeps its first `MaxTitleLen - 2` characters followed by
   * `ellipsis`; a shorter one is kept whole.
   */
  function Truncate(title: string, ellipsis: string): (r: string)
    ensures |title| <= MaxTitleLen ==> r == title
    ensures |title| > MaxTitleLen ==>
      |r| == MaxTitleLen - 2 + |ellipsis| && r[..MaxTitleLen - 2] == title[..MaxTitleLen - 2] &&
      r[MaxTitleLen - 2..] == ellipsis
  {
    if |title| > MaxTitleLen then title[..MaxTitleLen - 2] + ellipsis else title
  }

  /**
   * The sections of a post, in the order they are written: title, URL, discussions line,
   * hashtag line, attribution line. Every section but the URL is left out when it is empty;
   * `attribution` is the full attribution line, or empty for none.
   */
  function Sections(title: string, ellipsis: string, url: string,
                    discussionsUrl: Option<string>, tags: Option<seq<string>>,
                    attribution: string): (r: seq<string>)
    ensures url in r
    ensures [] in r ==> url == []
  {
    Optional(Truncate(title, ellipsis)) + [url] + Optional(LinkLine(discussionsUrl))
    + Optional(TagLine(tags)) + Optional(attribution)
  }

  /** A section that is present only when it is not empty. */
  function Optional(line: string): (r: seq<string>)
    ensures [] !in r
  {
    if line != [] then [line] else []
  }

  /** `Discussions: <link>`, or empty when the link is absent or empty. */
  function LinkLine(discussionsUrl: Option<string>): (line: string)
    ensures line == [] <==> !TruthyOptText(discussionsUrl)
    ensures line != [] ==> "Discussions: " <= line && line[13..] == discussionsUrl.value
  {
    if TruthyOptText(discussionsUrl) then "Discussions: " + discussionsUrl.value else ""
  }

  /** The hashtags joined by single spaces. */
  function TagLine(tags: Option<seq<string>>): string {
    Join(Hashtags(tags), " ")
  }

  /** The hashtag line is empty exactly when there is no hashtag. */
  lemma TagLineEmpty(tags: Option<seq<string>>)
    ensures TagLine(tags) == [] <==> Hashtags(tags) == []
  {
    var h := Hashtags(tags);
    if h != [] {
      JoinStarts(h, " ");
      assert "#" <= h[0];
    }
  }

  /** What writing one optional section adds: the line and a blank line, or nothing. */
  function Paragraph(line: string): string {
    if line != [] then line + "\n\n" else ""
  }

  /** The text built by writing each section followed by a blank line. */
  function Terminated(sections: seq<string>): string {
    if sections == [] then []
    else Terminated(sections[..|sections| - 1]) + sections[|sections| - 1] + "\n\n"
  }

  lemma TerminatedSnoc(a: seq<string>, x: string)
    ensures Terminated(a + [x]) == Terminated(a) + x + "\n\n"
  {
    assert (a + [x])[..|a|] == a;
  }

  /** Writing a line and a blank line, or nothing for an empty line, adds its paragraph. */
  lemma ParagraphAppended(text: string, line: string)
    ensures line != [] ==> text + line + "\n\n" == text + Paragraph(line)
    ensures line == [] ==> text == text + Paragraph(line)
  {
    if line == [] {
      assert text + [] == text;
    }
  }

  /** Writing the first section into the empty text leaves its paragraph. */
  lemma ParagraphFirst(line: string)
    ensures line != [] ==> "" + line + "\n\n" == Paragraph(line)
    ensures line == [] ==> "" == Paragraph(line)
  {
    assert "" + line == line;
  }

  /** Writing an optional section adds its paragraph to the text. */
  lemma TerminatedOptional(sections: seq<string>, line: string)
    ensures Terminated(sections + Optional(line)) == Terminated(sections) + Paragraph(line)
  {
    if line != [] {
      TerminatedSnoc(sections, line);
    } else {
      assert sections + [] == sections;
      assert Terminated(sections) + [] == Terminated(sections);
    }
  }

  /**
   * The post composed from the sections is the stripped text written paragraph by paragraph:
   * the title when there is one, the URL, then the discussions, hashtag and attribution lines
   * when they are not empty.
   */
  lemma ComposeWritten(title: string, ellipsis: string, url: string,
                       discussionsUrl: Option<string>, tags: Option<seq<string>>, attribution: string)
    ensures Compose(Sections(title, ellipsis, url, discussionsUrl, tags, attribution))
         == Strip(Paragraph(Truncate(title, ellipsis)) + url + "\n\n" + Paragraph(LinkLine(discussionsUrl))
                  + Paragraph(TagLine(tags)) + Paragraph(attribution))
  {
    var s0 := Optional(Truncate(title, ellipsis));
    TerminatedOptional([], Truncate(title, ellipsis));
    assert [] + s0 == s0;
    assert Terminated(s0) == Paragraph(Truncate(title, ellipsis)) by {
      assert Terminated([]) + Paragraph(Truncate(title, ellipsis)) == Paragraph(Truncate(title, ellipsis));
    }
    var s1 := s0 + [url];
    TerminatedSnoc(s0, url);
    var s2 := s1 + Optional(LinkLine(discussionsUrl));
    TerminatedOptional(s1, LinkLine(discussionsUrl));
    var s3 := s2 + Optional(TagLine(tags));
    TerminatedOptional(s2, TagLine(tags));
    TerminatedOptional(s3, attribution);
  }

  lemma {:induction false} TerminatedAppend(a: seq<string>, b: seq<string>)
    ensures Terminated(a + b) == Terminated(a) + Terminated(b)
  {
    if b != [] {
      var b' := b[..|b| - 1];
      TerminatedAppend(a, b');
      assert (a + b)[..|a + b| - 1] == a + b';
    } else {
      assert a + b == a;
    }
  }

  /** The post text: the sections, each followed by a blank line, then `strip()`ped. */
  function Compose(sections: seq<string>): (r: string)
    ensures r == [] || (!IsWhitespace(r[0]) && !IsWhitespace(r[|r| - 1]))
  {
    Strip(Terminated(sections))
  }

  /** Written out, a non-empty list of sections is the sections joined by blank lines. */
  lemma {:induction false} TerminatedIsJoined(sections: seq<string>)
    requires sections != []
    ensures Terminated(sections) == Join(sections, "\n\n") + "\n\n"
  {
    var last := sections[|sections| - 1];
    var init := sections[..|sections| - 1];
    if |sections| == 1 {
      assert init == [];
      assert Terminated(sections) == [] + last + "\n\n";
      assert [] + last == last;
    } else {
      TerminatedIsJoined(init);
      assert Terminated(sections) == Terminated(init) + last + "\n\n";
    }
  }

  /**
   * When the first section does not start and the last does not end with whitespace, the post
   * is exactly its sections separated by blank lines: `strip()` removes only the final one.
   */
  lemma ComposeIsJoined(sections: seq<string>)
    requires sections != [] && sections[0] != [] && sections[|sections| - 1] != []
    requires !IsWhitespace(sections[0][0])
    requires !IsWhitespace(sections[|sections| - 1][|sections[|sections| - 1]| - 1])
    ensures Compose(sections) == Join(sections, "\n\n")
  {
    TerminatedIsJoined(sections);
    var x := Join(sections, "\n\n");
    JoinStarts(sections, "\n\n");
    assert x[0] == sections[0][0];
    StripBlankLine(x);
  }

  /** Written out, the section `u` sits between the text before it and the text after it. */
  lemma TerminatedAround(before: seq<string>, u: string, after: seq<string>)
    ensures Terminated(before + [u] + after) == Terminated(before) + u + ("\n\n" + Terminated(after))
  {
    TerminatedAppend(before + [u], after);
    TerminatedSnoc(before, u);
  }

  lemma Regrouped(a: seq<string>, b: seq<string>, c: seq<string>, d: seq<string>, e: seq<string>)
    ensures a + b + c + d + e == a + b + (c + d + e)
  {
  }

  /** The URL, less any whitespace around it, always appears in the composed post. */
  lemma UrlKept(title: string, ellipsis: string, url: string,
                discussionsUrl: Option<string>, tags: Option<seq<string>>,
                attribution: string)
    ensures IsInfix(Strip(url), Compose(Sections(title, ellipsis, url, discussionsUrl, tags, attribution)))
  {
    var sections := Sections(title, ellipsis, url, discussionsUrl, tags, attribution);
    var before := Optional(Truncate(title, ellipsis));
    var after := Optional(LinkLine(discussionsUrl)) + Optional(TagLine(tags)) + Optional(attribution);
    Regrouped(before, [url], Optional(LinkLine(discussionsUrl)), Optional(TagLine(tags)), Optional(attribution));
    TerminatedAround(before, url, after);
    StripKeepsCore(Terminated(before), url, "\n\n" + Terminated(after));
  }
}

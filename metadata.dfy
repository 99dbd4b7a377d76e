/**
 * Page metadata handling shared by both revisions of the bot: the string pipeline that turns
 * the content of a `twitter:creator` / `twitter:site` meta tag into a bare handle, the
 * sign-in page filter, and the gate on a discussion-aggregator reply.
 */
module Metadata {
  import opened Python
  import opened Text

  /**
   * What the handle pipeline makes of a non-empty string `s` (the meta content with one
   * leading `@` already removed): it raises `IndexError` exactly when `s` has no non-empty
   * `/`-segment; otherwise it gives the last non-empty segment, stripped and with one more
   * leading `@` removed, and that value never holds a `/`. Each revision then rejects a
   * value holding a space in its own way.
   */
  function Candidate(s: string): (r: Result<string>)
    requires s != []
    ensures r.Raise? <==> OnlyOf(s, '/')
    ensures r.Raise? ==> r.fault == IndexError
    ensures r.Ok? ==> '/' !in r.value
  {
    if OnlyOf(s, '/') then Raise(IndexError)
    else
      var segment := AfterLast(TrimTrailing(s, '/'), '/');
      var h := RemovePrefix(Strip(segment), "@");
      assert forall c :: c in h ==> c in Strip(segment) by {
        if "@" <= Strip(segment) {
          assert Strip(segment) == "@" + h;
        }
      }
      Ok(h)
  }

  /**
   * When `s` ends in a `/`-free segment with no whitespace at its ends, the candidate is that
   * segment with a leading `@` removed.
   */
  lemma CandidateOfSegment(prefix: string, segment: string)
    requires prefix != [] && prefix[|prefix| - 1] == '/'
    requires segment != [] && '/' !in segment
    requires !IsWhitespace(segment[0]) && !IsWhitespace(segment[|segment| - 1])
    ensures Candidate(prefix + segment) == Ok(RemovePrefix(segment, "@"))
  {
    var s := prefix + segment;
    assert segment[|segment| - 1] in segment;
    assert s[|s| - 1] == segment[|segment| - 1];
    assert TrimTrailing(s, '/') == s;
    AfterLastSuffix(prefix, segment, '/');
    assert Strip(segment) == segment by {
      assert LeadingSpace(segment) == 0;
      assert TrailingSpace(segment) == 0;
    }
  }

  /** The title of the identity-provider page that broken or login-walled links lead to. */
  const SignInTitle := "Sign in - Google Accounts"

  /**
   * The fields of a discussion-aggregator reply that the bot reads. A count is `None` when the
   * field is absent.
   */
  datatype Reply = Reply(
    totalComments: Option<int>,
    totalDiscussions: Option<int>,
    articlesCount: Option<int>,
    discussionsUrl: Option<string>,
    tags: Option<seq<string>>)

  /** The reply reports no comment, no discussion and no article. */
  predicate Silent(j: Reply) {
    !TruthyCount(j.totalComments) && !TruthyCount(j.totalDiscussions) && !TruthyCount(j.articlesCount)
  }

  /**
   * The discussions link and tags taken from a reply: nothing at all when every count is
   * absent or zero, whatever else the reply holds, and otherwise both fields as given.
   */
  function DiscussionGate(j: Reply): (r: (Option<string>, Option<seq<string>>))
    ensures Silent(j) ==> r == (None, None)
    ensures !Silent(j) ==> r == (j.discussionsUrl, j.tags)
  {
    if Silent(j) then (None, None) else (j.discussionsUrl, j.tags)
  }
}

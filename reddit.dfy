/**
 * Picking a website from a subreddit: a random post is drawn up to five times, and the URL of
 * the first draw that passes the acceptance filter is returned. Both revisions of the bot
 * share this logic unchanged.
 */
module Reddit {
  import opened Python

  /**
   * What the filter reads of a drawn post. The nine flags stand for the truthiness of
   * `banned_by`, `banned_at_utc`, `removed_by`, `removal_reason`, `is_reddit_media_domain`,
   * `is_video`, `is_self`, `media` and `over_18`; `url` is empty when the post has none.
   */
  datatype Post = Post(
    bannedBy: bool,
    bannedAtUtc: bool,
    removedBy: bool,
    removalReason: bool,
    isRedditMediaDomain: bool,
    isVideo: bool,
    isSelf: bool,
    media: bool,
    over18: bool,
    score: int,
    numComments: int,
    url: string)

  /** How many posts are drawn at most. */
  const MaxDraws := 5

  /** The default thresholds of `get_random_url`. */
  const DefaultMinScore := 10
  const DefaultMinComments := 10

  /** The post was banned or removed, or is media, a video, a self post or marked NSFW. */
  predicate Disqualified(p: Post) {
    p.bannedBy || p.bannedAtUtc || p.removedBy || p.removalReason || p.isRedditMediaDomain ||
    p.isVideo || p.isSelf || p.media || p.over18
  }

  /**
   * A post is accepted when no flag is set, it reaches both thresholds (a value equal to the
   * threshold passes) and it links somewhere.
   */
  predicate Acceptable(p: Post, minScore: int, minComments: int) {
    !Disqualified(p) && p.score >= minScore && p.numComments >= minComments && p.url != []
  }

  /**
   * A post passes exactly at the thresholds: no flag set, score and comments equal to the
   * thresholds and a non-empty URL are accepted, and one point or comment fewer is not.
   */
  lemma ThresholdsInclusive(p: Post, minScore: int, minComments: int)
    requires !Disqualified(p) && p.url != []
    ensures p.score == minScore && p.numComments == minComments ==> Acceptable(p, minScore, minComments)
    ensures p.score == minScore - 1 || p.numComments == minComments - 1 ==> !Acceptable(p, minScore, minComments)
  {
  }

  /**
   * `get_random_url`: `draws` are the posts that five successive `sub.random()` calls would
   * return. Draws are examined in order and the first acceptable one ends the search; `taken`
   * is how many were examined and `pauses` how many one-second sleeps came before them (one
   * before every draw but the first). The result is `None` exactly when none of the five
   * draws is acceptable.
   */
  method GetRandomUrl(draws: seq<Post>, minScore: int := DefaultMinScore,
                      minComments: int := DefaultMinComments)
    returns (url: Option<string>, taken: nat, pauses: nat)
    requires |draws| == MaxDraws
    ensures 1 <= taken <= MaxDraws && pauses == taken - 1
    ensures forall j :: 0 <= j < taken - 1 ==> !Acceptable(draws[j], minScore, minComments)
    ensures url.Some? <==> Acceptable(draws[taken - 1], minScore, minComments)
    ensures url.Some? ==> url.value == draws[taken - 1].url && url.value != []
    ensures url.None? <==> forall j :: 0 <= j < MaxDraws ==> !Acceptable(draws[j], minScore, minComments)
    ensures url.None? ==> taken == MaxDraws
  {
    pauses := 0;
    for i := 0 to MaxDraws
      invariant pauses == if i == 0 then 0 else i - 1
      invariant forall j :: 0 <= j < i ==> !Acceptable(draws[j], minScore, minComments)
    {
      if i > 0 {
        pauses := pauses + 1;  // time.sleep(1)
      }
      var p := draws[i];
      if Disqualified(p) {
        continue;
      }
      if p.score < minScore {
        continue;
      }
      if p.numComments < minComments {
        continue;
      }
      if p.url == [] {
        continue;
      }
      return Some(p.url), i + 1, pauses;
    }
    return None, MaxDraws, MaxDraws - 1;
  }
}

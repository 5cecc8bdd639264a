/** The disposition layer: ledger events, the alias table, the review queue and the claim-hash pins. */
module Layers {
  import opened Findings
  import opened MatchLadder

  datatype Alias = Alias(newId: string, matchedBy: Tier, fromReport: string, confirmed: bool, rejected: bool)

  type Table = map<string, Alias>

  datatype Reason = RebaselineMapping | RebaselineUnmatched | OtherReason

  datatype ReviewItem = ReviewItem(ref: string, reason: Reason, pending: bool)

  datatype Event = Event(ref: string, body: string)

  class Layer {
    var aliases: Table
    var needsReview: seq<ReviewItem>
    var events: seq<Event>
    var claims: map<string, string>

    constructor (aliases: Table, needsReview: seq<ReviewItem>, events: seq<Event>, claims: map<string, string>)
      ensures this.aliases == aliases && this.needsReview == needsReview && this.events == events && this.claims == claims
    {
      this.aliases, this.needsReview, this.events, this.claims := aliases, needsReview, events, claims;
    }
  }

  /** `s` is a part without a colon, a colon, and `rest`. */
  ghost predicate CutAtColon(s: string, rest: string) {
    exists n :: 0 <= n < |s| && ':' !in s[..n] && s[n] == ':' && rest == s[n + 1..]
  }

  /** The text after the first colon. */
  function AfterColon(s: string): (id: string)
    requires ':' in s
    ensures CutAtColon(s, id)
  {
    if s[0] == ':' then s[1..] else AfterColon(s[1..])
  }

  lemma AfterColonOfPrefix(slug: string, id: string)
    requires ':' !in slug
    ensures ':' in slug + ":" + id && AfterColon(slug + ":" + id) == id
  {
    hide AfterColon;
    var s := slug + ":" + id;
    assert s[|slug|] == ':' && s[|slug| + 1..] == id;
    var n :| 0 <= n < |s| && ':' !in s[..n] && s[n] == ':' && AfterColon(s) == s[n + 1..];
    assert forall i | 0 <= i < |slug| :: s[i] == slug[i];
    forall i | 0 <= i < n ensures s[i] != ':' {
      assert s[..n][i] != ':';
    }
  }

  /** The ids waiting in the queue for a decision on an unmatched finding. */
  function QueuedUnmatched(items: seq<ReviewItem>): set<string> {
    set i | i in items && i.reason == RebaselineUnmatched && i.pending :: i.ref
  }
}

/** The joint promise of rebaselining and replay: no history is silently lost. */
module History {
  import opened Findings
  import opened MatchLadder
  import opened Layers
  import D = Disposition
  import opened Rebaseline

  function RouteIn(s: LayerState, report: Report, e: Event): D.Route {
    D.RouteOf(s.aliases, QueuedUnmatched(s.needsReview), Ids(report.findings), e)
  }

  /** Replay accounts for `id`: an alias speaks about it or a decision on it is queued. */
  predicate Accounted(s: LayerState, id: string) {
    D.HasAlias(s.aliases, id) || id in QueuedUnmatched(s.needsReview)
  }

  /** Replay calls an event unknown exactly when its id is forgotten: nothing in the report, the aliases or the queue names it. */
  lemma UnknownExactly(s: LayerState, report: Report, e: Event)
    ensures RouteIn(s, report, e).Unknown? <==> D.Forgotten(s.aliases, s.needsReview, Ids(report.findings), e.ref)
    ensures RouteIn(s, report, e).Unknown? <==> !Accounted(s, e.ref) && e.ref !in Ids(report.findings)
  {
    D.UnknownExactly(s.aliases, s.needsReview, Ids(report.findings), e);
    D.NextIsSubject(s.aliases, e.ref);
  }

  // --------------------------------------------------------------------------
  // One rebaseline
  // --------------------------------------------------------------------------

  lemma AliasKeyIsSeen(t: Table, slug: string, id: string)
    requires ':' !in slug && AliasKey(slug, id) in t
    ensures D.HasAlias(t, id)
  {
    if !Canonical(id) {
      AfterColonOfPrefix(slug, id);
      assert AliasKey(slug, id) in D.Namespaced(t, id);
    }
  }

  lemma MappedHasAlias(r: MatchResult, old_: Report, new_: Report, queueReviews: bool, s: LayerState, s': LayerState, id: string)
    requires Rebased(r, old_, new_, queueReviews, s, s') && ':' !in Slug(old_.fileName)
    requires id in r.ladder.mapped
    ensures D.HasAlias(s'.aliases, id)
  {
    assert id in r.ladder.order;
    assert AliasKeys(Slug(old_.fileName))(id) in s'.aliases;
    AliasKeyIsSeen(s'.aliases, Slug(old_.fileName), id);
  }

  lemma UnmatchedIsQueued(r: MatchResult, old_: Report, new_: Report, s: LayerState, s': LayerState, id: string)
    requires Rebased(r, old_, new_, true, s, s') && id in r.unmatchedOld
    ensures id in QueuedUnmatched(s'.needsReview)
  {
    var i :| 0 <= i < |r.unmatchedOld| && r.unmatchedOld[i] == id;
    assert UnmatchedItems(r.unmatchedOld)[i] == ReviewItem(id, RebaselineUnmatched, true);
    assert ReviewItem(id, RebaselineUnmatched, true) in s'.needsReview;
  }

  lemma OldIdAccounted(r: MatchResult, old_: Report, new_: Report, s: LayerState, s': LayerState, id: string)
    requires Rebased(r, old_, new_, true, s, s') && ':' !in Slug(old_.fileName)
    requires id in Ids(old_.findings)
    ensures Accounted(s', id)
  {
    if id in r.ladder.mapped {
      MappedHasAlias(r, old_, new_, true, s, s', id);
    } else {
      UnmatchedIsQueued(r, old_, new_, s, s', id);
    }
  }

  /** Right after a reviewed rebaseline, every event on an old finding is attached or parked. */
  lemma NoHistoryLost(r: MatchResult, old_: Report, new_: Report, s: LayerState, s': LayerState, e: Event)
    requires Rebased(r, old_, new_, true, s, s') && ':' !in Slug(old_.fileName)
    requires e.ref in Ids(old_.findings)
    ensures !RouteIn(s', new_, e).Unknown?
  {
    OldIdAccounted(r, old_, new_, s, s', e.ref);
    UnknownExactly(s', new_, e);
  }

  /** An event that moves, moves along confirmed aliases and no others. */
  lemma MovesOnlyAlongConfirmed(s: LayerState, report: Report, e: Event) returns (walk: seq<string>)
    requires RouteIn(s, report, e).Attached?
    ensures D.ConfirmedWalk(s.aliases, walk) && walk[0] == e.ref && walk[|walk| - 1] == RouteIn(s, report, e).id
  {
    walk := D.ResolveEnd(s.aliases, e.ref);
  }

  /**
   * In batch mode nothing is queued. Exactly the unmatched findings that nobody spoke about before,
   * and whose id the new report does not reuse, then stop the replay.
   */
  lemma BatchModeUnknownExactly(r: MatchResult, old_: Report, new_: Report, s: LayerState, s': LayerState, e: Event)
    requires Rebased(r, old_, new_, false, s, s') && ':' !in Slug(old_.fileName)
    requires e.ref in Ids(old_.findings)
    ensures RouteIn(s', new_, e).Unknown?
      <==> e.ref in r.unmatchedOld && e.ref !in Ids(new_.findings) && !Accounted(s', e.ref)
  {
    if e.ref in r.ladder.mapped {
      MappedHasAlias(r, old_, new_, false, s, s', e.ref);
    }
    UnknownExactly(s', new_, e);
  }

  // --------------------------------------------------------------------------
  // Where old history goes
  // --------------------------------------------------------------------------

  /** After a reviewed rebaseline an old event is parked exactly when its confirmed chain ends outside the new report. */
  lemma ParkedExactly(r: MatchResult, old_: Report, new_: Report, s: LayerState, s': LayerState, e: Event, end: string)
    requires Rebased(r, old_, new_, true, s, s') && ':' !in Slug(old_.fileName)
    requires e.ref in Ids(old_.findings) && D.LeadsTo(s'.aliases, e.ref, end)
    ensures RouteIn(s', new_, e) == if end in Ids(new_.findings) then D.Attached(end) else D.Parked(end)
  {
    NoHistoryLost(r, old_, new_, s, s', e);
    D.ResolveExactly(s'.aliases, e.ref, end);
  }

  /** A confirmed alias moves `ref`. */
  ghost predicate Moved(t: Table, ref: string) {
    exists k :: D.SpeaksFor(t, k, ref) && t[k].confirmed
  }

  lemma MovedExactly(t: Table, ref: string)
    ensures Moved(t, ref) <==> D.Next(t, ref).Some?
  {
    hide D.SpeaksFor, D.AliasFor;
    D.LookupExactly(t, ref);
  }

  /** A chain of at least one confirmed alias leads from `ref` into the report. */
  ghost predicate LeadsInto(t: Table, ref: string, ids: set<string>) {
    exists end :: end in ids && D.LeadsTo(t, ref, end)
  }

  /**
   * The event of an unmatched finding does not wait for a human in two cases, and in no other: no
   * confirmed alias in the shared layer moves its id and the new report reuses the id, or one does
   * and its chain leads into the new report.
   */
  lemma UnmatchedParkedExactly(r: MatchResult, old_: Report, new_: Report, s: LayerState, s': LayerState, e: Event)
    requires Rebased(r, old_, new_, true, s, s') && ':' !in Slug(old_.fileName) && e.ref in r.unmatchedOld
    ensures RouteIn(s', new_, e).Parked? <==>
      if Moved(s'.aliases, e.ref) then !LeadsInto(s'.aliases, e.ref, Ids(new_.findings)) else e.ref !in Ids(new_.findings)
  {
    NoHistoryLost(r, old_, new_, s, s', e);
    MovedExactly(s'.aliases, e.ref);
    forall end ensures D.Resolve(s'.aliases, e.ref, {}) == end <==> D.LeadsTo(s'.aliases, e.ref, end) {
      D.ResolveExactly(s'.aliases, e.ref, end);
    }
  }

  /**
   * A rebaseline leaves the lookup of an unmatched finding as it was, so the first hop can be checked
   * before it; unless the unmatched id reads as the key of a matched one, whose alias it then follows.
   */
  lemma UnmatchedLookupStays(r: MatchResult, old_: Report, new_: Report, queueReviews: bool, s: LayerState, s': LayerState, id: string)
    requires Rebased(r, old_, new_, queueReviews, s, s') && ':' !in Slug(old_.fileName)
    requires id in r.unmatchedOld
    ensures !ReadsAsKey(r, Slug(old_.fileName), id) ==>
      D.AliasFor(s'.aliases, id) == D.AliasFor(s.aliases, id) && (Moved(s'.aliases, id) <==> Moved(s.aliases, id))
    ensures ReadsAsKey(r, Slug(old_.fileName), id) ==> id in s'.aliases && D.AliasFor(s'.aliases, id) == Some(s'.aliases[id])
  {
    if ReadsAsKey(r, Slug(old_.fileName), id) {
      var x :| x in r.ladder.mapped && AliasKey(Slug(old_.fileName), x) == id;
      WrittenAlias(r, old_, new_, queueReviews, s, s', x);
    } else {
      OtherLookupStays(r, old_, new_, queueReviews, s, s', id);
    }
  }

  /** The id is the alias key of a matched finding. */
  ghost predicate ReadsAsKey(r: MatchResult, slug: string, id: string) {
    exists x :: x in r.ladder.mapped && AliasKey(slug, x) == id
  }

  lemma OtherLookupStays(r: MatchResult, old_: Report, new_: Report, queueReviews: bool, s: LayerState, s': LayerState, id: string)
    requires Rebased(r, old_, new_, queueReviews, s, s') && ':' !in Slug(old_.fileName)
    requires id in r.unmatchedOld && !ReadsAsKey(r, Slug(old_.fileName), id)
    ensures D.AliasFor(s'.aliases, id) == D.AliasFor(s.aliases, id) && (Moved(s'.aliases, id) <==> Moved(s.aliases, id))
  {
    forall k | k in s'.aliases && (k !in s.aliases || s'.aliases[k] != s.aliases[k])
      ensures k != id && (':' in k ==> AfterColon(k) != id)
    {
      hide AliasKey;
      var x :| x in r.ladder.order && AliasKeys(Slug(old_.fileName))(x) == k;
      KeyOfOther(Slug(old_.fileName), x, id);
    }
    assert s.aliases.Keys <= s'.aliases.Keys;
    hide Rebased;
    SameLookup(s.aliases, s'.aliases, id);
  }

  lemma SameLookup(t: Table, t': Table, id: string)
    requires t.Keys <= t'.Keys
    requires forall k | k in t' && (k !in t || t'[k] != t[k]) :: k != id && (':' in k ==> AfterColon(k) != id)
    ensures D.AliasFor(t', id) == D.AliasFor(t, id) && (Moved(t', id) <==> Moved(t, id))
  {
    assert id in t' <==> id in t;
    forall k ensures D.SpeaksFor(t', k, id) <==> D.SpeaksFor(t, k, id) {
      assert forall l :: l in t' && D.About(l, id) <==> l in t && D.About(l, id);
    }
    assert forall k | D.SpeaksFor(t, k, id) :: t'[k] == t[k];
    hide D.SpeaksFor, D.AliasFor;
    D.LookupExactly(t, id);
    D.LookupExactly(t', id);
  }

  lemma KeyOfOther(slug: string, x: string, id: string)
    requires ':' !in slug && x != id
    ensures var k := AliasKey(slug, x); ':' in k ==> AfterColon(k) != id
  {
    if Canonical(x) {
      CanonicalHasNoColon(x);
    } else {
      AfterColonOfPrefix(slug, x);
    }
  }

  const CODE := Content({"a.c"}, "CWE-1", "overflow")
  const OTHER := Content({"b.py"}, "CWE-2", "injection")

  /** The two findings of the examples below: only their titles could still match. */
  lemma ExamplesUnrelated(recipe: Recipe, old_: Report, new_: Report, id: string, r: MatchResult)
    requires recipe.titleSimilarity(CODE.title, OTHER.title) < 0.6
    requires old_.findings == [Finding("FIND-001", CODE, "x")] && new_.findings == [Finding(id, OTHER, "y")]
    requires FromLadder(recipe, old_, new_, r)
    ensures r == MatchResult(EMPTY, ["FIND-001"], [id])
  {
    hide FromLadder, Remaining;
    assert CODE.paths * OTHER.paths == {} && CODE.paths + OTHER.paths == {"a.c", "b.py"};
    assert Overlap(CODE.paths, OTHER.paths) == 0.0;
    UnrelatedStayUnmatched(recipe, old_, new_, r);
    RemainingOne(old_.findings);
    RemainingOne(new_.findings);
  }

  lemma RemainingOne(fs: seq<Finding>)
    requires |fs| == 1
    ensures Remaining(fs, {}) == [fs[0].id]
  {
    assert fs[..0] == [] && Remaining(fs[..0], {}) == [];
  }

  /** Two unrelated findings that share the legacy id FIND-001: whatever the ladder and the rebaseline do, the old one's history lands on the new one. */
  lemma LegacyIdReuse(recipe: Recipe, old_: Report, new_: Report, r: MatchResult, s': LayerState)
    requires recipe.titleSimilarity(CODE.title, OTHER.title) < 0.6
    requires old_ == Report("a-security-audit.json", "", [Finding("FIND-001", CODE, "x")])
    requires new_ == Report("c-security-audit.json", "", [Finding("FIND-001", OTHER, "y")])
    requires FromLadder(recipe, old_, new_, r) && Rebased(r, old_, new_, true, LayerState(map[], [], map[]), s')
    ensures RouteIn(s', new_, Event("FIND-001", "false_positive")) == D.Attached("FIND-001")
  {
    ExamplesUnrelated(recipe, old_, new_, "FIND-001", r);
    NothingWritten(r, old_, new_, LayerState(map[], [], map[]), s');
    hide Rebased, FromLadder, D.Resolve;
    NoTableNoMove("FIND-001");
    assert new_.findings[0].id in Ids(new_.findings);
  }

  lemma NothingWritten(r: MatchResult, old_: Report, new_: Report, s: LayerState, s': LayerState)
    requires Rebased(r, old_, new_, true, s, s') && r.ladder == EMPTY
    ensures s'.aliases == s.aliases
  {
  }

  lemma NoTableNoMove(ref: string)
    ensures D.Resolve(map[], ref, {}) == ref
  {
    D.NextIsSubject(map[], ref);
  }

  /** An alias of report a about its own FIND-001. */
  const FOREIGN := map["a:FIND-001" := Alias("X-0000000-001", ByPathAndCwe, "a-security-audit.json", true, false)]

  /**
   * Branch variants share one layer. A human confirmed where FIND-001 of report a went; the
   * unmatched FIND-001 of report b follows the same alias to a finding it has nothing to do with,
   * although the new report does not reuse its id.
   */
  lemma ForeignAliasMisleads(recipe: Recipe, old_: Report, new_: Report, r: MatchResult, s': LayerState)
    requires recipe.titleSimilarity(CODE.title, OTHER.title) < 0.6
    requires old_ == Report("b-security-audit.json", "", [Finding("FIND-001", CODE, "x")])
    requires new_ == Report("c-security-audit.json", "", [Finding("X-0000000-001", OTHER, "y")])
    requires FromLadder(recipe, old_, new_, r) && Rebased(r, old_, new_, true, LayerState(FOREIGN, [], map[]), s')
    ensures "FIND-001" in r.unmatchedOld && "FIND-001" !in Ids(new_.findings)
    ensures RouteIn(s', new_, Event("FIND-001", "false_positive")) == D.Attached("X-0000000-001")
  {
    var k, dest := "a:FIND-001", "X-0000000-001";
    hide Rebased, FromLadder, D.Resolve, D.HasAlias, QueuedUnmatched;
    ExamplesUnrelated(recipe, old_, new_, dest, r);
    NothingWritten(r, old_, new_, LayerState(FOREIGN, [], map[]), s');
    assert new_.findings[0].id in Ids(new_.findings);
    ForeignChain(k, dest);
  }

  lemma ForeignChain(k: string, dest: string)
    requires k == "a:FIND-001" && dest == "X-0000000-001"
    ensures D.Resolve(FOREIGN, "FIND-001", {}) == dest
  {
    hide AfterColon, CutAtColon, D.Resolve;
    var id := "FIND-001";
    assert k == "a" + ":" + id && |id| == 8 && |k| == 10 && |dest| == 13;
    AfterColonOfPrefix("a", id);
    assert D.About(k, id) && !D.About(k, dest);
    hide D.About;
    OnlyHop(FOREIGN, k, "FIND-001", dest);
  }

  /** The only alias of a table takes `id` to `dest`, and `dest` no further. */
  lemma OnlyHop(t: Table, k: string, id: string, dest: string)
    requires t.Keys == {k} && t[k].confirmed && t[k].newId == dest
    requires D.About(k, id) && !D.About(k, dest) && k != dest
    ensures D.Resolve(t, id, {}) == dest
  {
    hide D.AliasFor, D.About;
    assert k in t && forall l :: l in t ==> l == k;
    assert D.SpeaksFor(t, k, id);
    D.NextExactly(t, id, dest);
    D.LookupExactly(t, dest);
    OneHopEnds(t, id, dest);
  }

  // --------------------------------------------------------------------------
  // Where matched history goes
  // --------------------------------------------------------------------------

  /** The alias that a rebaseline wrote, or found settled, for `id` is the one that a lookup uses, and it leads to `newId`. */
  ghost predicate OwnAliasRules(s: LayerState, s': LayerState, key: string, id: string, newId: string) {
    if id in s'.aliases && key != id then s'.aliases[id].confirmed && s'.aliases[id].newId == newId
    else
      && (key == id || D.Namespaced(s'.aliases, id) == {key})
      && (Settled(s.aliases, key) ==> s.aliases[key].confirmed && s.aliases[key].newId == newId)
  }

  /**
   * Old history attaches to the new id of a match exactly when the confirmed chain from the old id
   * ends there; one hop is enough when the new id itself is not moved on.
   */
  lemma MatchedAttachesExactly(r: MatchResult, old_: Report, new_: Report, queueReviews: bool, s: LayerState, s': LayerState, e: Event, newId: string)
    requires Rebased(r, old_, new_, queueReviews, s, s') && e.ref in r.ladder.mapped && r.ladder.mapped[e.ref].newId == newId
    ensures RouteIn(s', new_, e) == D.Attached(newId) <==> D.LeadsTo(s'.aliases, e.ref, newId)
    ensures D.Next(s'.aliases, e.ref) == Some(newId) && (newId == e.ref || D.Next(s'.aliases, newId).None?) ==>
      RouteIn(s', new_, e) == D.Attached(newId)
  {
    MatchedInReport(r, old_, new_, queueReviews, s, s', e.ref);
    hide Rebased;
    ChainAttaches(s', new_, e, newId);
  }

  lemma MatchedInReport(r: MatchResult, old_: Report, new_: Report, queueReviews: bool, s: LayerState, s': LayerState, id: string)
    requires Rebased(r, old_, new_, queueReviews, s, s') && id in r.ladder.mapped
    ensures r.ladder.mapped[id].newId in Ids(new_.findings)
  {
  }

  lemma ChainAttaches(s: LayerState, report: Report, e: Event, id: string)
    requires id in Ids(report.findings)
    ensures RouteIn(s, report, e) == D.Attached(id) <==> D.LeadsTo(s.aliases, e.ref, id)
    ensures D.Next(s.aliases, e.ref) == Some(id) && (id == e.ref || D.Next(s.aliases, id).None?) ==> RouteIn(s, report, e) == D.Attached(id)
  {
    hide D.Next, D.LeadsTo, D.Resolve, D.HasAlias, QueuedUnmatched, Ids;
    D.ResolveExactly(s.aliases, e.ref, id);
    OneHopEnds(s.aliases, e.ref, id);
  }

  /**
   * The first hop of a fingerprint match goes to the new id exactly when the alias was not settled
   * otherwise before and no other report's alias speaks about the same id.
   */
  lemma FirstHopOfMatch(r: MatchResult, old_: Report, new_: Report, queueReviews: bool, s: LayerState, s': LayerState, id: string, newId: string)
    requires Rebased(r, old_, new_, queueReviews, s, s') && ':' !in Slug(old_.fileName)
    requires id in r.ladder.mapped && r.ladder.mapped[id] == Match(newId, ByFingerprint)
    ensures D.Next(s'.aliases, id) == Some(newId) <==> OwnAliasRules(s, s', AliasKey(Slug(old_.fileName), id), id, newId)
  {
    WrittenAlias(r, old_, new_, queueReviews, s, s', id);
    hide Rebased, OwnAliasRules, D.Next, Slug, AliasKey, D.AliasFor;
    FirstHopExactly(s, s', AliasKey(Slug(old_.fileName), id), Match(newId, ByFingerprint), old_.fileName, id);
  }

  lemma FirstHopExactly(s: LayerState, s': LayerState, key: string, m: Match, fileName: string, id: string)
    requires key in s'.aliases && (key == id || key in D.Namespaced(s'.aliases, id)) && m.tier == ByFingerprint
    requires s'.aliases[key] == if Settled(s.aliases, key) then s.aliases[key] else Entry(m, fileName)
    ensures D.Next(s'.aliases, id) == Some(m.newId) <==> OwnAliasRules(s, s', key, id, m.newId)
  {
    LookupIs(s'.aliases, key, id);
  }

  /**
   * A match that only a human may settle: it was not made by fingerprint, its alias was open before,
   * and no other alias speaks for the old id.
   */
  ghost predicate Proposed(r: MatchResult, old_: Report, s: LayerState, s': LayerState, id: string) {
    && ':' !in Slug(old_.fileName) && id in r.ladder.mapped && r.ladder.mapped[id].tier != ByFingerprint
    && !Settled(s.aliases, AliasKey(Slug(old_.fileName), id)) && D.SpeaksFor(s'.aliases, AliasKey(Slug(old_.fileName), id), id)
  }

  /** The history of a proposed match moves nowhere: it stays under the old id, and waits when the new report lacks that id. */
  lemma ProposalWaits(r: MatchResult, old_: Report, new_: Report, queueReviews: bool, s: LayerState, s': LayerState, e: Event)
    requires Rebased(r, old_, new_, queueReviews, s, s') && Proposed(r, old_, s, s', e.ref)
    ensures var key, m, t := AliasKey(Slug(old_.fileName), e.ref), r.ladder.mapped[e.ref], s'.aliases;
      key in t && !Settled(t, key) && t[key].newId == m.newId && t[key].matchedBy == m.tier && t[key].fromReport == old_.fileName
    ensures RouteIn(s', new_, e) == if e.ref in Ids(new_.findings) then D.Attached(e.ref) else D.Parked(e.ref)
  {
    hide Rebased, Slug, AliasKey, Canonical;
    WrittenAlias(r, old_, new_, queueReviews, s, s', e.ref);
    StaysPut(s', new_, e, AliasKey(Slug(old_.fileName), e.ref));
  }

  /**
   * The decision settles where it goes: after an acceptance to the new id, unless a confirmed alias
   * moves that id on; after a rejection nowhere.
   */
  lemma ProposalDecided(r: MatchResult, old_: Report, new_: Report, queueReviews: bool, s: LayerState, s': LayerState,
                        accept: bool, s'': LayerState, e: Event)
    requires Rebased(r, old_, new_, queueReviews, s, s') && Proposed(r, old_, s, s', e.ref)
    requires Decide(AliasKey(Slug(old_.fileName), e.ref), accept).Leads(s', s'')
    ensures var newId := r.ladder.mapped[e.ref].newId;
      accept && (newId == e.ref || D.Next(s''.aliases, newId).None?) ==> RouteIn(s'', new_, e) == D.Attached(newId)
    ensures !accept ==>
      RouteIn(s'', new_, e) == if e.ref in Ids(new_.findings) then D.Attached(e.ref) else D.Parked(e.ref)
  {
    hide Rebased, Slug, AliasKey, Canonical, RouteIn, Ids, D.Next, D.LeadsTo, D.AliasFor, D.About;
    var key, newId := AliasKey(Slug(old_.fileName), e.ref), r.ladder.mapped[e.ref].newId;
    ProposalWaits(r, old_, new_, queueReviews, s, s', e);
    MatchedInReport(r, old_, new_, queueReviews, s, s', e.ref);
    SpeaksOn(s'.aliases, s''.aliases, key, e.ref);
    if accept {
      D.NextExactly(s''.aliases, e.ref, newId);
      ChainAttaches(s'', new_, e, newId);
    } else {
      StaysPut(s'', new_, e, key);
    }
  }

  lemma SpeaksOn(t: Table, t': Table, key: string, id: string)
    requires D.SpeaksFor(t, key, id) && t'.Keys == t.Keys
    ensures D.SpeaksFor(t', key, id)
  {
    assert forall l :: l in t' <==> l in t;
  }

  lemma StaysPut(s: LayerState, report: Report, e: Event, key: string)
    requires D.SpeaksFor(s.aliases, key, e.ref) && !s.aliases[key].confirmed
    ensures RouteIn(s, report, e) == if e.ref in Ids(report.findings) then D.Attached(e.ref) else D.Parked(e.ref)
  {
    D.LookupExactly(s.aliases, e.ref);
    D.HasAliasExactly(s.aliases, e.ref);
    hide D.AliasFor, D.HasAlias, Ids, QueuedUnmatched;
  }

  /** A rebaseline confirms aliases by itself exactly for the fingerprint matches that were open, and rejects none. */
  lemma ConfirmedExactly(r: MatchResult, old_: Report, new_: Report, queueReviews: bool, s: LayerState, s': LayerState, key: string)
    requires Rebased(r, old_, new_, queueReviews, s, s')
    ensures key in s'.aliases && s'.aliases[key].confirmed <==>
      || (key in s.aliases && s.aliases[key].confirmed)
      || (!Settled(s.aliases, key) && FingerprintKey(r, Slug(old_.fileName), key))
    ensures key in s'.aliases && s'.aliases[key].rejected <==> key in s.aliases && s.aliases[key].rejected
  {
    var keyOf := AliasKeys(Slug(old_.fileName));
    AliasKeysInjective(Slug(old_.fileName));
    hide AliasKey, Slug;
    if FingerprintKey(r, Slug(old_.fileName), key) {
      var id :| id in r.ladder.mapped && AliasKey(Slug(old_.fileName), id) == key && r.ladder.mapped[id].tier == ByFingerprint;
      assert id in r.ladder.order && keyOf(id) == key;
    }
    if key in s'.aliases && (key !in s.aliases || s'.aliases[key] != s.aliases[key]) {
      var id :| id in r.ladder.order && keyOf(id) == key;
      assert AliasKey(Slug(old_.fileName), id) == key;
    }
  }

  /** The key of a finding that was matched by fingerprint. */
  ghost predicate FingerprintKey(r: MatchResult, slug: string, key: string) {
    exists id :: id in r.ladder.mapped && AliasKey(slug, id) == key && r.ladder.mapped[id].tier == ByFingerprint
  }

  lemma OneHopEnds(t: Table, id: string, newId: string)
    ensures D.Next(t, id) == Some(newId) && (newId == id || D.Next(t, newId).None?) ==> D.Resolve(t, id, {}) == newId
  {
    assert {} + {id} == {id};
  }

  /** The entry of a mapped id in the new table, and that the table speaks about the id through it. */
  lemma WrittenAlias(r: MatchResult, old_: Report, new_: Report, queueReviews: bool, s: LayerState, s': LayerState, id: string)
    requires Rebased(r, old_, new_, queueReviews, s, s') && ':' !in Slug(old_.fileName) && id in r.ladder.mapped
    ensures var key, t := AliasKey(Slug(old_.fileName), id), s'.aliases;
      && key in t && (key == id || key in D.Namespaced(t, id))
      && t[key] == if Settled(s.aliases, key) then s.aliases[key] else Entry(r.ladder.mapped[id], old_.fileName)
    ensures r.ladder.mapped[id].newId in Ids(new_.findings)
  {
    var slug := Slug(old_.fileName);
    assert id in r.ladder.order && AliasKeys(slug)(id) == AliasKey(slug, id);
    if !Canonical(id) {
      AfterColonOfPrefix(slug, id);
    }
  }

  lemma LookupIs(t: Table, key: string, id: string)
    requires key in t && (key == id || key in D.Namespaced(t, id))
    ensures D.AliasFor(t, id) ==
      if id in t then Some(t[id]) else if D.Namespaced(t, id) == {key} then Some(t[key]) else None
  {
    if key != id && id !in t {
      var keys := D.Namespaced(t, id);
      if |keys| == 1 {
        D.OnlyOne(keys);
        assert keys == {key};
      }
    }
  }

  // --------------------------------------------------------------------------
  // Any number of rebaselines
  // --------------------------------------------------------------------------

  /** What can happen to a layer between two replays: a rebaseline, or a human decision on an alias or a queue item. */
  datatype Step =
    | Rebaseline(r: MatchResult, old_: Report, new_: Report, queueReviews: bool)
    | Decide(key: string, accept: bool)
    | Close(at: nat)
  {
    ghost predicate Leads(s: LayerState, s': LayerState) {
      match this
      case Rebaseline(r, old_, new_, q) => Rebased(r, old_, new_, q, s, s')
      case Decide(key, accept) =>
        key in s.aliases && !Settled(s.aliases, key) && s' == s.(aliases := s.aliases[key := s.aliases[key].(confirmed := accept, rejected := !accept)])
      case Close(at) => at < |s.needsReview| && s' == s.(needsReview := Closed(s.needsReview, at))
    }
  }

  /** The queue after a decision on one item: it no longer waits. */
  function Closed(items: seq<ReviewItem>, at: nat): seq<ReviewItem>
    requires at < |items|
  {
    items[at := items[at].(pending := false)]
  }

  /** `states[i]` becomes `states[i + 1]` by `steps[i]`. */
  ghost predicate Run(steps: seq<Step>, states: seq<LayerState>) {
    && |states| == |steps| + 1
    && forall i {:trigger steps[i]} | 0 <= i < |steps| :: steps[i].Leads(states[i], states[i + 1])
  }

  /** A confirmed or rejected alias never changes again. */
  lemma {:induction false} SettledForever(steps: seq<Step>, states: seq<LayerState>, i: nat, j: nat, key: string)
    requires Run(steps, states) && i <= j < |states| && Settled(states[i].aliases, key)
    ensures Settled(states[j].aliases, key) && states[j].aliases[key] == states[i].aliases[key]
    decreases j - i
  {
    if i < j {
      SettledForever(steps, states, i, j - 1, key);
      SettledOnce(steps[j - 1], states[j - 1], states[j], key);
    }
  }

  lemma SettledOnce(step: Step, s: LayerState, s': LayerState, key: string)
    requires step.Leads(s, s') && Settled(s.aliases, key)
    ensures key in s'.aliases && s'.aliases[key] == s.aliases[key]
  {
  }

  // --------------------------------------------------------------------------
  // A finding that is followed through several rebaselines
  // --------------------------------------------------------------------------

  /**
   * Step `at` takes `id` to `newId`: a rebaseline that matches them by fingerprint while no human has
   * settled the alias of `id`, or the acceptance of a proposed alias between them.
   */
  ghost predicate Follows(steps: seq<Step>, states: seq<LayerState>, at: nat, id: string, newId: string) {
    at < |steps| < |states| && Canonical(id) && Hops(steps[at], states[at], id, newId)
  }

  ghost predicate Hops(step: Step, s: LayerState, id: string, newId: string) {
    match step
    case Rebaseline(r, old_, _, _) =>
      ':' !in Slug(old_.fileName) && id in r.ladder.mapped && r.ladder.mapped[id] == Match(newId, ByFingerprint) && !Settled(s.aliases, id)
    case Decide(key, accept) => accept && key == id && id in s.aliases && s.aliases[id].newId == newId
    case Close(_) => false
  }

  /** A campaign id is its own key, so the written alias is the one that every lookup uses. */
  lemma CanonicalHop(step: Step, s: LayerState, s': LayerState, id: string, newId: string)
    requires step.Leads(s, s') && Canonical(id) && Hops(step, s, id, newId)
    ensures id in s'.aliases && s'.aliases[id].confirmed && s'.aliases[id].newId == newId && Settled(s'.aliases, id)
  {
    if step.Rebaseline? {
      WrittenAlias(step.r, step.old_, step.new_, step.queueReviews, s, s', id);
    }
    hide Rebased, Canonical, Slug;
  }

  /** Once followed, the hop stays through any later rebaselines and human decisions. */
  lemma FollowedHop(steps: seq<Step>, states: seq<LayerState>, at: nat, j: nat, id: string, newId: string)
    requires Run(steps, states) && Follows(steps, states, at, id, newId) && at < j < |states|
    ensures D.Next(states[j].aliases, id) == Some(newId)
  {
    hide Rebased, Canonical, Slug, Settled, Step.Leads, Hops;
    assert steps[at].Leads(states[at], states[at + 1]);
    CanonicalHop(steps[at], states[at], states[at + 1], id, newId);
    SettledForever(steps, states, at + 1, j, id);
    KeptHop(states[at + 1].aliases, states[j].aliases, id, newId);
  }

  lemma KeptHop(t: Table, t': Table, id: string, newId: string)
    requires id in t && t[id].confirmed && t[id].newId == newId && Settled(t, id) && Settled(t', id) && t'[id] == t[id]
    ensures D.Next(t', id) == Some(newId)
  {
  }

  /**
   * A finding with a campaign id that is matched from report to report, by fingerprint or with a human's consent, takes its history along:
   * at any later time, in any report that has its last id, the events of its first id are attached to the last,
   * unless a confirmed alias moves the last id on.
   */
  lemma HistoryFollows(steps: seq<Step>, states: seq<LayerState>, j: nat, ids: seq<string>, at: seq<nat>, report: Report, e: Event)
    requires Run(steps, states) && j < |states| && |ids| == |at| + 1 && e.ref == ids[0]
    requires forall i | 0 <= i < |at| :: at[i] < j && Follows(steps, states, at[i], ids[i], ids[i + 1])
    requires D.NoRepeat(ids) && ids[|ids| - 1] in Ids(report.findings) && D.Next(states[j].aliases, ids[|ids| - 1]).None?
    ensures RouteIn(states[j], report, e) == D.Attached(ids[|ids| - 1])
  {
    var t, last := states[j].aliases, ids[|ids| - 1];
    forall i | 0 <= i < |ids| - 1 ensures D.Next(t, ids[i]) == Some(ids[i + 1]) {
      FollowedHop(steps, states, at[i], j, ids[i], ids[i + 1]);
    }
    hide Follows, Run, D.Next, D.Resolve;
    assert D.EndedWalk(t, ids);
    ChainAttaches(states[j], report, e, last);
  }

  /** The item that waits for a decision on the unmatched finding `id`. */
  function Waiting(id: string): ReviewItem {
    ReviewItem(id, RebaselineUnmatched, true)
  }

  /** The last queued decision on `id` is closed while no alias speaks about it. */
  predicate Drops(step: Step, s: LayerState, id: string) {
    && step.Close? && step.at < |s.needsReview| && s.needsReview[step.at] == Waiting(id)
    && (forall k | 0 <= k < |s.needsReview| && k != step.at :: s.needsReview[k] != Waiting(id))
    && !D.HasAlias(s.aliases, id)
  }

  /** One step keeps an id accounted for, exactly unless it closes the last queued decision without an alias. */
  lemma AccountedOnceExactly(step: Step, s: LayerState, s': LayerState, id: string)
    requires step.Leads(s, s') && Accounted(s, id)
    ensures Accounted(s', id) <==> !Drops(step, s, id)
  {
    match step
    case Rebaseline(r, old_, new_, q) =>
      RebaselineOnlyAdds(r, old_, new_, q, s, s');
      AliasesStay(s.aliases, s'.aliases, id);
      QueuedStays(s.needsReview, s'.needsReview, id);
    case Decide(key, _) =>
      assert s.aliases.Keys <= s'.aliases.Keys;
      AliasesStay(s.aliases, s'.aliases, id);
    case Close(at) =>
      D.QueuedAt(s.needsReview, id);
      D.QueuedAt(s'.needsReview, id);
      CloseLeaves(s.needsReview, at, id);
  }

  lemma RebaselineOnlyAdds(r: MatchResult, old_: Report, new_: Report, q: bool, s: LayerState, s': LayerState)
    requires Rebased(r, old_, new_, q, s, s')
    ensures s.aliases.Keys <= s'.aliases.Keys && s.needsReview <= s'.needsReview
  {
  }

  lemma AliasesStay(t: Table, t': Table, id: string)
    requires t.Keys <= t'.Keys
    ensures D.HasAlias(t, id) ==> D.HasAlias(t', id)
  {
    assert D.Namespaced(t, id) <= D.Namespaced(t', id);
  }

  lemma QueuedStays(items: seq<ReviewItem>, items': seq<ReviewItem>, id: string)
    requires items <= items'
    ensures id in QueuedUnmatched(items) ==> id in QueuedUnmatched(items')
  {
    D.QueuedAt(items, id);
    D.QueuedAt(items', id);
  }

  lemma CloseLeaves(items: seq<ReviewItem>, at: nat, id: string)
    requires at < |items|
    ensures (exists k :: 0 <= k < |items| && Closed(items, at)[k] == Waiting(id)) <==> exists k :: 0 <= k < |items| && k != at && items[k] == Waiting(id)
  {
    if k :| 0 <= k < |items| && k != at && items[k] == Waiting(id) {
      assert Closed(items, at)[k] == items[k];
    }
  }

  /** What replay accounts for, it accounts for until a human closes the decision on it without an alias. */
  lemma {:induction false} AccountedForever(steps: seq<Step>, states: seq<LayerState>, i: nat, j: nat, id: string)
    requires Run(steps, states) && i <= j < |states| && Accounted(states[i], id)
    requires forall k | i <= k < j :: !Drops(steps[k], states[k], id)
    ensures Accounted(states[j], id)
    decreases j - i
  {
    hide Accounted, Drops, Step.Leads;
    if i < j {
      AccountedForever(steps, states, i, j - 1, id);
      AccountedOnceExactly(steps[j - 1], states[j - 1], states[j], id);
    }
  }

  /** Over any run of rebaselines and human decisions, events on a finding of a superseded report stay attached or parked, unless a decision on it is closed without an alias. */
  lemma NoHistoryLostOverRuns(steps: seq<Step>, states: seq<LayerState>, i: nat, j: nat, report: Report, e: Event)
    requires Run(steps, states) && i < j < |states| && steps[i].Rebaseline? && steps[i].queueReviews
    requires ':' !in Slug(steps[i].old_.fileName) && e.ref in Ids(steps[i].old_.findings)
    requires forall k | i < k < j :: !Drops(steps[k], states[k], e.ref)
    ensures !RouteIn(states[j], report, e).Unknown?
  {
    OldIdAccounted(steps[i].r, steps[i].old_, steps[i].new_, states[i], states[i + 1], e.ref);
    AccountedForever(steps, states, i + 1, j, e.ref);
    UnknownExactly(states[j], report, e);
  }

  /** Closing the queued decision on an unaliased finding makes the next replay fail, exactly when the report does not contain its id. */
  lemma ClosingLosesExactly(step: Step, s: LayerState, s': LayerState, report: Report, e: Event)
    requires step.Leads(s, s') && Accounted(s, e.ref) && Drops(step, s, e.ref)
    ensures RouteIn(s', report, e).Unknown? <==> e.ref !in Ids(report.findings)
  {
    AccountedOnceExactly(step, s, s', e.ref);
    UnknownExactly(s', report, e);
  }

  // --------------------------------------------------------------------------
  // The tamper guard
  // --------------------------------------------------------------------------

  lemma CoveredIsAccounted(r: MatchResult, old_: Report, new_: Report, queueReviews: bool, s: LayerState, s': LayerState, id: string)
    requires Rebased(r, old_, new_, queueReviews, s, s') && ':' !in Slug(old_.fileName)
    requires id in Covered(r, s'.aliases, old_.fileName, queueReviews)
    ensures Accounted(s', id)
  {
    if id in r.ladder.mapped {
      MappedHasAlias(r, old_, new_, queueReviews, s, s', id);
    } else if queueReviews && id in r.unmatchedOld {
      UnmatchedIsQueued(r, old_, new_, s, s', id);
    } else {
      var k :| k in s'.aliases && IdPart(k) == id;
      KeySpeaks(s'.aliases, k);
    }
  }

  lemma KeySpeaks(t: Table, k: string)
    requires k in t
    ensures D.HasAlias(t, IdPart(k))
  {
    if ':' in k {
      assert k in D.Namespaced(t, AfterColon(k));
    }
  }

  /** A pin goes only when its finding is gone and its history is accounted for; every other pin keeps its value. */
  lemma PinsOnlyMoveWithHistory(r: MatchResult, old_: Report, new_: Report, queueReviews: bool, s: LayerState, s': LayerState, id: string)
    requires Rebased(r, old_, new_, queueReviews, s, s') && ':' !in Slug(old_.fileName) && id in s.claims
    ensures id !in s'.claims ==> id !in Ids(new_.findings) && Accounted(s', id)
    ensures id in s'.claims ==> s'.claims[id] == s.claims[id]
    ensures s'.claims.Keys <= s.claims.Keys
  {
    if id !in s'.claims {
      CoveredIsAccounted(r, old_, new_, queueReviews, s, s', id);
    }
  }

  /**
   * The pins that go are exactly those of findings that the new report lacks and that are matched, queued
   * as unmatched, or named by an alias of the same report.
   */
  lemma PinsExactly(r: MatchResult, old_: Report, new_: Report, queueReviews: bool, s: LayerState, s': LayerState, id: string)
    requires Rebased(r, old_, new_, queueReviews, s, s') && id in s.claims
    ensures id !in s'.claims <==>
      id !in Ids(new_.findings) && (id in r.ladder.mapped || (queueReviews && id in r.unmatchedOld) || AliasedBy(s'.aliases, old_.fileName, id))
  {
  }

  ghost predicate AliasedBy(t: Table, fileName: string, id: string) {
    exists k :: k in t && t[k].fromReport == fileName && if ':' in k then AfterColon(k) == id else k == id
  }

  /** What a rebaseline queues: every open match that is not automatic and every unmatched finding, and nothing in batch mode. */
  lemma QueueExactly(r: MatchResult, old_: Report, new_: Report, queueReviews: bool, s: LayerState, s': LayerState, item: ReviewItem)
    requires Rebased(r, old_, new_, queueReviews, s, s')
    ensures s.needsReview <= s'.needsReview
    ensures item in s'.needsReview[|s.needsReview|..] <==> queueReviews && (Proposes(r, Slug(old_.fileName), s, item) || Asks(r, item))
  {
    var mapping := MappingItems(s.aliases, r.ladder.mapped, r.ladder.order, AliasKeys(Slug(old_.fileName)));
    var asked := UnmatchedItems(r.unmatchedOld);
    assert r.ladder.Valid();
    assert s'.needsReview == s.needsReview + (if queueReviews then mapping else []) + (if queueReviews then asked else []);
    hide Rebased, Slug, MappingItems, UnmatchedItems, ProposedBy;
    AddedItems(s.needsReview, s'.needsReview, mapping, asked, queueReviews);
    MappingQueued(s.aliases, r.ladder.mapped, r.ladder.order, Slug(old_.fileName), item);
    UnmatchedQueued(r.unmatchedOld, item);
  }

  lemma AddedItems(items: seq<ReviewItem>, items': seq<ReviewItem>, mapping: seq<ReviewItem>, asked: seq<ReviewItem>, queueReviews: bool)
    requires items' == items + (if queueReviews then mapping else []) + (if queueReviews then asked else [])
    ensures items <= items' && items'[|items|..] == if queueReviews then mapping + asked else []
  {
  }

  /** The item asks for a decision on an open match that was not made by fingerprint. */
  ghost predicate Proposes(r: MatchResult, slug: string, s: LayerState, item: ReviewItem) {
    exists id :: id in r.ladder.mapped && ProposedBy(s.aliases, r.ladder.mapped, slug, id, item)
  }

  ghost predicate ProposedBy(t: Table, mapped: map<string, Match>, slug: string, id: string, item: ReviewItem)
    requires id in mapped
  {
    && !Settled(t, AliasKey(slug, id)) && mapped[id].tier != ByFingerprint
    && item == ReviewItem(mapped[id].newId, RebaselineMapping, true)
  }

  /** The item asks for a decision on an unmatched finding. */
  ghost predicate Asks(r: MatchResult, item: ReviewItem) {
    exists id :: id in r.unmatchedOld && item == Waiting(id)
  }

  lemma {:induction false} MappingQueued(t: Table, mapped: map<string, Match>, order: seq<string>, slug: string, item: ReviewItem)
    requires AllMapped(order, mapped)
    ensures item in MappingItems(t, mapped, order, AliasKeys(slug)) <==> exists id :: id in order && ProposedBy(t, mapped, slug, id, item)
  {
    if order != [] {
      var n := |order| - 1;
      MappingQueued(t, mapped, order[..n], slug, item);
      assert AliasKeys(slug)(order[n]) == AliasKey(slug, order[n]);
      var open := !Settled(t, AliasKey(slug, order[n])) && mapped[order[n]].tier != ByFingerprint;
      var last := ReviewItem(mapped[order[n]].newId, RebaselineMapping, true);
      assert MappingItems(t, mapped, order, AliasKeys(slug))
          == MappingItems(t, mapped, order[..n], AliasKeys(slug)) + if open then [last] else [];
      assert ProposedBy(t, mapped, slug, order[n], item) <==> open && item == last;
      hide AliasKey, Settled, MappingItems, ProposedBy;
      forall id ensures id in order <==> id in order[..n] || id == order[n] {
        assert order == order[..n] + [order[n]];
      }
    }
  }

  lemma UnmatchedQueued(ids: seq<string>, item: ReviewItem)
    ensures item in UnmatchedItems(ids) <==> exists id :: id in ids && item == Waiting(id)
  {
    if id :| id in ids && item == Waiting(id) {
      var i :| 0 <= i < |ids| && ids[i] == id;
      assert UnmatchedItems(ids)[i] == item;
    }
    if item in UnmatchedItems(ids) {
      var i :| 0 <= i < |ids| && UnmatchedItems(ids)[i] == item;
      assert ids[i] in ids && item == Waiting(ids[i]);
    }
  }

  /** With reviews queued, the pins of the old report that go are exactly those absent from the new one. */
  lemma OldPinsMoveExactly(r: MatchResult, old_: Report, new_: Report, s: LayerState, s': LayerState, id: string)
    requires Rebased(r, old_, new_, true, s, s') && id in s.claims && id in Ids(old_.findings)
    ensures id !in s'.claims <==> id !in Ids(new_.findings)
  {
  }

  /** Rebaseline, guard, replay: the whole chain on one layer. */
  method SupersedeAndReplay<T>(recipe: Recipe, old_: Report, new_: Report, layer: Layer,
                               claimHash: Finding -> string, corrected: Finding -> bool, derive: (Finding, seq<Event>) -> T)
    returns (errors: set<D.ClaimIssue>, r: D.Cumulative<T>)
    requires DistinctIds(old_.findings) && DistinctIds(new_.findings) && ':' !in Slug(old_.fileName)
    modifies layer
    ensures layer.events == old(layer.events)
    ensures forall id :: D.Missing(id) in errors <==>
      id in old(layer.claims) && id in layer.claims && id !in Ids(new_.findings)
    ensures forall id | id in old(layer.claims) && id !in layer.claims :: Accounted(StateOf(layer), id)
    ensures (forall e | e in layer.events :: e.ref in Ids(old_.findings)) ==> r.Built? && |r.rows| == |new_.findings|
  {
    hide Rebased, FromLadder, Accounted, D.Forgotten, Ids, D.RouteOf, D.Refs, D.Routed;
    ghost var s := StateOf(layer);
    var result, _ := RebaselineLayer(recipe, old_, new_, layer, true);
    AfterRebaseline(result, old_, new_, s, StateOf(layer));
    var found, _, _ := D.VerifyClaimHashes(new_.findings, layer, claimHash, corrected);
    errors := found;
    r := D.BuildCumulative(new_.findings, layer, derive);
  }

  lemma AfterRebaseline(result: MatchResult, old_: Report, new_: Report, s: LayerState, s': LayerState)
    requires Rebased(result, old_, new_, true, s, s') && ':' !in Slug(old_.fileName)
    ensures s'.claims.Keys <= s.claims.Keys
    ensures forall id | id in s.claims && id !in s'.claims :: Accounted(s', id)
    ensures forall e: Event | e.ref in Ids(old_.findings) :: !D.Forgotten(s'.aliases, s'.needsReview, Ids(new_.findings), e.ref)
  {
    hide D.Forgotten, Accounted, RouteIn;
    forall id | id in s.claims && id !in s'.claims ensures Accounted(s', id) {
      PinsOnlyMoveWithHistory(result, old_, new_, true, s, s', id);
    }
    forall e: Event | e.ref in Ids(old_.findings) ensures !D.Forgotten(s'.aliases, s'.needsReview, Ids(new_.findings), e.ref) {
      NoHistoryLost(result, old_, new_, s, s', e);
      UnknownExactly(s', new_, e);
    }
  }
}

/** Replay of a layer over a report: alias resolution, event routing and the claim-hash guard. */
module Disposition {
  import opened Findings
  import opened Layers

  // --------------------------------------------------------------------------
  // Alias lookup and resolution
  // --------------------------------------------------------------------------

  /** The namespaced keys (`slug:id`) that speak about `ref`. */
  function Namespaced(t: Table, ref: string): set<string> {
    set k | k in t && ':' in k && AfterColon(k) == ref
  }

  /** A bare entry wins; a namespaced one counts only when it is the only one. */
  function AliasFor(t: Table, ref: string): Option<Alias> {
    if ref in t then Some(t[ref])
    else
      var keys := Namespaced(t, ref);
      if |keys| == 1 then
        assert forall k, l | k in keys && l in keys :: k == l by { OnlyOne(keys); }
        var k :| k in keys;
        Some(t[k])
      else None
  }

  lemma OnlyOne<T>(s: set<T>)
    requires |s| == 1
    ensures forall k, l | k in s && l in s :: k == l
  {
    forall k, l | k in s && l in s ensures k == l {
      assert |s - {k}| == 0;
    }
  }

  predicate HasAlias(t: Table, ref: string) {
    ref in t || Namespaced(t, ref) != {}
  }

  /** The id a confirmed alias moves `ref` to. */
  function Next(t: Table, ref: string): Option<string> {
    match AliasFor(t, ref)
    case Some(a) => if a.confirmed then Some(a.newId) else None
    case None => None
  }

  /** The one alias that a lookup of `ref` uses: the bare one, or else the only namespaced one. */
  ghost predicate SpeaksFor(t: Table, k: string, ref: string) {
    k in t && (k == ref || (ref !in t && About(k, ref) && forall l | l in t && About(l, ref) :: l == k))
  }

  /** A namespaced key about `ref`. */
  ghost predicate About(k: string, ref: string) {
    ':' in k && AfterColon(k) == ref
  }

  lemma LookupExactly(t: Table, ref: string)
    ensures AliasFor(t, ref).Some? <==> exists k :: SpeaksFor(t, k, ref)
    ensures forall k | SpeaksFor(t, k, ref) :: AliasFor(t, ref) == Some(t[k])
  {
    var keys := Namespaced(t, ref);
    forall k | SpeaksFor(t, k, ref) ensures AliasFor(t, ref) == Some(t[k]) {
      if k != ref {
        assert About(k, ref);
        assert keys == {k};
      }
    }
    if ref in t {
      assert SpeaksFor(t, ref, ref);
    } else if |keys| == 1 {
      OnlyOne(keys);
      var k :| k in keys;
      forall l | l in t && About(l, ref) ensures l == k {
        assert l in keys;
      }
      assert SpeaksFor(t, k, ref);
    }
  }

  /** An id moves exactly along the confirmed alias that speaks for it. */
  lemma NextExactly(t: Table, ref: string, to: string)
    ensures Next(t, ref) == Some(to) <==> exists k :: SpeaksFor(t, k, ref) && t[k].confirmed && t[k].newId == to
  {
    LookupExactly(t, ref);
  }

  /** Every id the table speaks about. */
  ghost function Subjects(t: Table): set<string> {
    t.Keys + set k | k in t && ':' in k :: AfterColon(k)
  }

  lemma NextIsSubject(t: Table, ref: string)
    ensures Next(t, ref).Some? ==> ref in Subjects(t) && HasAlias(t, ref)
  {
    if ref !in t && Next(t, ref).Some? {
      var k :| k in Namespaced(t, ref);
    }
  }

  function Resolve(t: Table, ref: string, seen: set<string>): string
    decreases |Subjects(t) - seen|
  {
    var next := Next(t, ref);
    if next.None? || ref in seen then ref
    else
      assert |Subjects(t) - (seen + {ref})| < |Subjects(t) - seen| by {
        NextIsSubject(t, ref);
        assert Subjects(t) - (seen + {ref}) == Subjects(t) - seen - {ref};
      }
      Resolve(t, next.value, seen + {ref})
  }

  /** A walk that ends on a seen id ends there too when fewer ids have been seen. */
  lemma {:induction false} ResolveFewerSeen(t: Table, ref: string, more: set<string>, fewer: set<string>)
    requires fewer <= more && Resolve(t, ref, more) in fewer
    ensures Resolve(t, ref, fewer) == Resolve(t, ref, more)
    decreases |Subjects(t) - more|
  {
    if Next(t, ref).Some? && ref !in more {
      NextIsSubject(t, ref);
      assert Subjects(t) - (more + {ref}) == Subjects(t) - more - {ref};
      ResolveFewerSeen(t, Next(t, ref).value, more + {ref}, fewer + {ref});
    }
  }

  lemma {:induction false} ResolveSettles(t: Table, ref: string, seen: set<string>)
    requires Resolve(t, ref, seen) !in seen
    ensures Resolve(t, Resolve(t, ref, seen), {}) == Resolve(t, ref, seen)
    decreases |Subjects(t) - seen|
  {
    var end := Resolve(t, ref, seen);
    if Next(t, ref).Some? && ref !in seen {
      NextIsSubject(t, ref);
      assert Subjects(t) - (seen + {ref}) == Subjects(t) - seen - {ref};
      if end == ref {
        ResolveFewerSeen(t, Next(t, ref).value, seen + {ref}, {ref});
        assert {} + {ref} == {ref};
      } else {
        ResolveSettles(t, Next(t, ref).value, seen + {ref});
      }
    }
  }

  /** Resolution is idempotent on every alias table, cyclic ones included. */
  lemma ResolveIdempotent(t: Table, ref: string)
    ensures Resolve(t, Resolve(t, ref, {}), {}) == Resolve(t, ref, {})
  {
    ResolveSettles(t, ref, {});
  }

  /** `walk` goes from id to id along confirmed aliases. */
  ghost predicate ConfirmedWalk(t: Table, walk: seq<string>) {
    walk != [] && forall i | 0 <= i < |walk| - 1 :: Next(t, walk[i]) == Some(walk[i + 1])
  }

  /** The ids of the walk before its last are pairwise distinct: none is passed twice. */
  ghost predicate NoRepeat(walk: seq<string>) {
    forall i, j | 0 <= i < j < |walk| - 1 :: walk[i] != walk[j]
  }

  lemma {:induction false} ResolveWalk(t: Table, ref: string, seen: set<string>) returns (walk: seq<string>)
    ensures ConfirmedWalk(t, walk) && NoRepeat(walk) && walk[0] == ref && walk[|walk| - 1] == Resolve(t, ref, seen)
    ensures forall i | 0 <= i < |walk| - 1 :: walk[i] !in seen
    ensures Next(t, walk[|walk| - 1]).None? || walk[|walk| - 1] in seen || walk[|walk| - 1] in walk[..|walk| - 1]
    decreases |Subjects(t) - seen|
  {
    if Next(t, ref).None? || ref in seen {
      walk := [ref];
    } else {
      NextIsSubject(t, ref);
      assert Subjects(t) - (seen + {ref}) == Subjects(t) - seen - {ref};
      var rest := ResolveWalk(t, Next(t, ref).value, seen + {ref});
      walk := [ref] + rest;
      Prepended(ref, rest);
    }
  }

  lemma Prepended(ref: string, rest: seq<string>)
    requires rest != []
    ensures var walk := [ref] + rest;
      && walk[|walk| - 1] == rest[|rest| - 1]
      && (rest[|rest| - 1] in rest[..|rest| - 1] || rest[|rest| - 1] == ref ==> walk[|walk| - 1] in walk[..|walk| - 1])
  {
    var walk := [ref] + rest;
    assert walk[..|walk| - 1] == [ref] + rest[..|rest| - 1];
  }

  /**
   * The result is reached along confirmed aliases only. It has no confirmed successor, or it is
   * the entry of a cycle: the first id of the walk that the walk comes back to.
   */
  lemma ResolveEnd(t: Table, ref: string) returns (walk: seq<string>)
    ensures ConfirmedWalk(t, walk) && NoRepeat(walk) && walk[0] == ref && walk[|walk| - 1] == Resolve(t, ref, {})
    ensures Next(t, Resolve(t, ref, {})).None? || Resolve(t, ref, {}) in walk[..|walk| - 1]
  {
    walk := ResolveWalk(t, ref, {});
  }

  /** A walk along confirmed aliases up to where they end: at an id that moves no further, or back on the walk. */
  ghost predicate EndedWalk(t: Table, walk: seq<string>) {
    && ConfirmedWalk(t, walk) && NoRepeat(walk)
    && (Next(t, walk[|walk| - 1]).None? || walk[|walk| - 1] in walk[..|walk| - 1])
  }

  /** Some chain of confirmed aliases leads from `ref` to `end` and ends there. */
  ghost predicate LeadsTo(t: Table, ref: string, end: string) {
    exists walk :: EndedWalk(t, walk) && walk[0] == ref && walk[|walk| - 1] == end
  }

  /** Resolution finds exactly the end of the confirmed chain. */
  lemma ResolveExactly(t: Table, ref: string, end: string)
    ensures Resolve(t, ref, {}) == end <==> LeadsTo(t, ref, end)
  {
    var found := ResolveEnd(t, ref);
    assert EndedWalk(t, found);
    if LeadsTo(t, ref, end) {
      var walk :| EndedWalk(t, walk) && walk[0] == ref && walk[|walk| - 1] == end;
      WalkResolves(t, walk, {});
    }
  }

  lemma {:induction false} WalkResolves(t: Table, walk: seq<string>, seen: set<string>)
    requires ConfirmedWalk(t, walk) && NoRepeat(walk)
    requires forall i | 0 <= i < |walk| - 1 :: walk[i] !in seen
    requires var end := walk[|walk| - 1]; Next(t, end).None? || end in seen || end in walk[..|walk| - 1]
    ensures Resolve(t, walk[0], seen) == walk[|walk| - 1]
    decreases |walk|
  {
    if |walk| > 1 {
      var rest := walk[1..];
      assert Next(t, walk[0]) == Some(walk[1]);
      forall i | 0 <= i < |rest| - 1 ensures Next(t, rest[i]) == Some(rest[i + 1]) {
        assert Next(t, walk[i + 1]) == Some(walk[i + 1 + 1]);
      }
      assert walk[..|walk| - 1] == [walk[0]] + rest[..|rest| - 1];
      WalkResolves(t, rest, seen + {walk[0]});
    }
  }

  /** Two reports that reuse one legacy id make its namespaced aliases ambiguous: nothing is redirected. */
  lemma AmbiguousNeverRedirects(t: Table, ref: string, k: string, l: string)
    requires ref !in t && k != l && k in Namespaced(t, ref) && l in Namespaced(t, ref)
    ensures Resolve(t, ref, {}) == ref && HasAlias(t, ref)
  {
    assert {k, l} <= Namespaced(t, ref);
    if |Namespaced(t, ref)| == 1 {
      OnlyOne(Namespaced(t, ref));
    }
  }

  // --------------------------------------------------------------------------
  // Event routing
  // --------------------------------------------------------------------------

  datatype Route = Attached(id: string) | Parked(ref: string) | Unknown(ref: string)

  /** Where one event goes: to a finding of the report, to the parked pile, or to the error list. */
  function RouteOf(t: Table, queued: set<string>, ids: set<string>, e: Event): Route {
    var ref := Resolve(t, e.ref, {});
    if ref in ids then Attached(ref)
    else if HasAlias(t, e.ref) || HasAlias(t, ref) || e.ref in queued then Parked(ref)
    else Unknown(ref)
  }

  /** No finding has the id, no pending decision on it is queued, and no alias, bare or namespaced, speaks about it. */
  ghost predicate Forgotten(t: Table, items: seq<ReviewItem>, ids: set<string>, id: string) {
    && id !in ids && id !in t && (forall k | k in t && ':' in k :: AfterColon(k) != id)
    && forall i | 0 <= i < |items| :: items[i] != ReviewItem(id, RebaselineUnmatched, true)
  }

  /** Replay rejects exactly the events on forgotten ids, and reports them under their own ids. */
  lemma UnknownExactly(t: Table, items: seq<ReviewItem>, ids: set<string>, e: Event)
    ensures RouteOf(t, QueuedUnmatched(items), ids, e).Unknown? <==> Forgotten(t, items, ids, e.ref)
    ensures Forgotten(t, items, ids, e.ref) ==> RouteOf(t, QueuedUnmatched(items), ids, e) == Unknown(e.ref)
  {
    NextIsSubject(t, e.ref);
    HasAliasExactly(t, e.ref);
    QueuedAt(items, e.ref);
    hide HasAlias, Next, QueuedUnmatched;
  }

  lemma HasAliasExactly(t: Table, id: string)
    ensures HasAlias(t, id) <==> id in t || exists k :: k in t && ':' in k && AfterColon(k) == id
  {
    if k :| k in t && ':' in k && AfterColon(k) == id {
      assert k in Namespaced(t, id);
    }
  }

  lemma QueuedAt(items: seq<ReviewItem>, id: string)
    ensures id in QueuedUnmatched(items) <==> exists k :: 0 <= k < |items| && items[k] == ReviewItem(id, RebaselineUnmatched, true)
  {
    if id in QueuedUnmatched(items) {
      var item :| item in items && item.reason == RebaselineUnmatched && item.pending && item.ref == id;
      assert item == ReviewItem(id, RebaselineUnmatched, true);
    }
    if k :| 0 <= k < |items| && items[k] == ReviewItem(id, RebaselineUnmatched, true) {
      assert items[k] in items;
    }
  }

  /** The events routed to `route`, in layer order. */
  function Routed(t: Table, queued: set<string>, ids: set<string>, events: seq<Event>, route: Route): seq<Event> {
    if events == [] then []
    else
      var n := |events| - 1;
      var rest := Routed(t, queued, ids, events[..n], route);
      if RouteOf(t, queued, ids, events[n]) == route then rest + [events[n]] else rest
  }

  /** The piles of events that reach no finding. */
  datatype Pile = ParkedPile | UnknownPile {
    predicate Holds(r: Route) {
      match this
      case ParkedPile => r.Parked?
      case UnknownPile => r.Unknown?
    }
  }

  /** The resolved refs of the events of a pile, in layer order. */
  function Refs(t: Table, queued: set<string>, ids: set<string>, events: seq<Event>, p: Pile): seq<string> {
    if events == [] then []
    else
      var n := |events| - 1;
      var rest := Refs(t, queued, ids, events[..n], p);
      if p.Holds(RouteOf(t, queued, ids, events[n])) then rest + [Resolve(t, events[n].ref, {})] else rest
  }

  datatype Row<D> = Row(finding: Finding, disposition: D)

  datatype Cumulative<D> = Built(rows: seq<Row<D>>, parked: seq<string>) | BadReferences(refs: seq<string>)

  lemma RoutedStep(t: Table, queued: set<string>, ids: set<string>, events: seq<Event>, i: nat, route: Route)
    requires i < |events|
    ensures Routed(t, queued, ids, events[..i + 1], route)
         == Routed(t, queued, ids, events[..i], route) + if RouteOf(t, queued, ids, events[i]) == route then [events[i]] else []
  {
    assert events[..i + 1][..i] == events[..i];
  }

  lemma RefsStep(t: Table, queued: set<string>, ids: set<string>, events: seq<Event>, i: nat, p: Pile)
    requires i < |events|
    ensures Refs(t, queued, ids, events[..i + 1], p)
         == Refs(t, queued, ids, events[..i], p)
            + if p.Holds(RouteOf(t, queued, ids, events[i])) then [Resolve(t, events[i].ref, {})] else []
  {
    assert events[..i + 1][..i] == events[..i];
  }

  lemma {:induction false} UnknownListed(t: Table, items: seq<ReviewItem>, ids: set<string>, events: seq<Event>, id: string)
    ensures id in Refs(t, QueuedUnmatched(items), ids, events, UnknownPile) <==>
      exists e :: e in events && e.ref == id && Forgotten(t, items, ids, id)
  {
    hide Forgotten, RouteOf;
    if events != [] {
      var n := |events| - 1;
      UnknownListed(t, items, ids, events[..n], id);
      UnknownExactly(t, items, ids, events[n]);
      UnknownResolvesToItself(t, QueuedUnmatched(items), ids, events[n]);
      assert events == events[..n] + [events[n]];
    }
  }

  lemma UnknownResolvesToItself(t: Table, queued: set<string>, ids: set<string>, e: Event)
    ensures RouteOf(t, queued, ids, e).Unknown? ==> Resolve(t, e.ref, {}) == e.ref
  {
    NextIsSubject(t, e.ref);
  }

  lemma ForgottenListed(t: Table, items: seq<ReviewItem>, ids: set<string>, events: seq<Event>)
    ensures var unknown := Refs(t, QueuedUnmatched(items), ids, events, UnknownPile);
      && (unknown != [] <==> exists e :: e in events && Forgotten(t, items, ids, e.ref))
      && forall id :: id in unknown <==> exists e :: e in events && e.ref == id && Forgotten(t, items, ids, id)
  {
    var unknown := Refs(t, QueuedUnmatched(items), ids, events, UnknownPile);
    hide Forgotten, Refs;
    forall id ensures id in unknown <==> exists e :: e in events && e.ref == id && Forgotten(t, items, ids, id) {
      UnknownListed(t, items, ids, events, id);
    }
    if unknown != [] {
      assert unknown[0] in unknown;
    }
  }

  /** `piles` holds, for every finding id, the events routed to it so far. */
  ghost predicate Sorted(t: Table, queued: set<string>, ids: set<string>, events: seq<Event>, piles: map<string, seq<Event>>) {
    forall id | id in ids ::
      Routed(t, queued, ids, events, Attached(id)) == if id in piles then piles[id] else []
  }

  lemma SortedStep(t: Table, q: set<string>, ids: set<string>, events: seq<Event>, i: nat,
                   piles: map<string, seq<Event>>, after: map<string, seq<Event>>)
    requires i < |events| && Sorted(t, q, ids, events[..i], piles)
    requires var ref := Resolve(t, events[i].ref, {});
      if RouteOf(t, q, ids, events[i]).Parked? then after == piles
      else after == piles[ref := (if ref in piles then piles[ref] else []) + [events[i]]]
    ensures Sorted(t, q, ids, events[..i + 1], after)
  {
    forall id | id in ids
      ensures Routed(t, q, ids, events[..i + 1], Attached(id)) == if id in after then after[id] else []
    {
      RoutedStep(t, q, ids, events, i, Attached(id));
    }
  }

  /** Routes one event and files it, unless it is parked. */
  method RouteEvent(t: Table, q: set<string>, ids: set<string>, e: Event, piles: map<string, seq<Event>>)
    returns (ref: string, route: Route, after: map<string, seq<Event>>)
    ensures ref == Resolve(t, e.ref, {}) && route == RouteOf(t, q, ids, e)
    ensures after == if route.Parked? then piles else piles[ref := (if ref in piles then piles[ref] else []) + [e]]
  {
    ref := Resolve(t, e.ref, {});
    if ref !in ids {
      if HasAlias(t, e.ref) || HasAlias(t, ref) || e.ref in q {
        return ref, Parked(ref), piles;
      }
    }
    route := if ref in ids then Attached(ref) else Unknown(ref);
    after := piles[ref := (if ref in piles then piles[ref] else []) + [e]];
  }

  method RouteEvents(t: Table, q: set<string>, ids: set<string>, events: seq<Event>)
    returns (byFinding: map<string, seq<Event>>, parked: seq<string>, unknown: seq<string>)
    ensures unknown == Refs(t, q, ids, events, UnknownPile) && parked == Refs(t, q, ids, events, ParkedPile)
    ensures Sorted(t, q, ids, events, byFinding)
  {
    byFinding, parked, unknown := map[], [], [];
    for i := 0 to |events|
      invariant unknown == Refs(t, q, ids, events[..i], UnknownPile)
      invariant parked == Refs(t, q, ids, events[..i], ParkedPile)
      invariant Sorted(t, q, ids, events[..i], byFinding)
    {
      RefsStep(t, q, ids, events, i, UnknownPile);
      RefsStep(t, q, ids, events, i, ParkedPile);
      var ref, route, after := RouteEvent(t, q, ids, events[i], byFinding);
      SortedStep(t, q, ids, events, i, byFinding, after);
      byFinding := after;
      parked := parked + if route.Parked? then [ref] else [];
      unknown := unknown + if route.Unknown? then [ref] else [];
    }
    assert events[..|events|] == events;
  }

  /** The replay: every finding gets its disposition from exactly the events routed to it, in order. */
  method BuildCumulative<D>(findings: seq<Finding>, layer: Layer, derive: (Finding, seq<Event>) -> D)
    returns (r: Cumulative<D>)
    ensures r.BadReferences? <==> exists e :: e in layer.events && Forgotten(layer.aliases, layer.needsReview, Ids(findings), e.ref)
    ensures r.BadReferences? ==> forall id :: id in r.refs <==>
      exists e :: e in layer.events && e.ref == id && Forgotten(layer.aliases, layer.needsReview, Ids(findings), id)
    ensures var q := QueuedUnmatched(layer.needsReview);
      r.BadReferences? ==> r.refs == Refs(layer.aliases, q, Ids(findings), layer.events, UnknownPile)
    ensures var q := QueuedUnmatched(layer.needsReview);
      r.Built? ==>
        && r.parked == Refs(layer.aliases, q, Ids(findings), layer.events, ParkedPile)
        && |r.rows| == |findings|
        && forall i | 0 <= i < |findings| :: r.rows[i] == Row(findings[i],
             derive(findings[i], Routed(layer.aliases, q, Ids(findings), layer.events, Attached(findings[i].id))))
  {
    var t, q, ids := layer.aliases, QueuedUnmatched(layer.needsReview), Ids(findings);
    var byFinding, parked, unknown := RouteEvents(t, q, ids, layer.events);
    ForgottenListed(t, layer.needsReview, ids, layer.events);
    if unknown != [] {
      return BadReferences(unknown);
    }
    var rows: seq<Row<D>> := [];
    for i := 0 to |findings|
      invariant |rows| == i
      invariant forall k | 0 <= k < i :: rows[k] == Row(findings[k],
          derive(findings[k], Routed(t, q, ids, layer.events, Attached(findings[k].id))))
    {
      var f := findings[i];
      assert f.id in ids;
      rows := rows + [Row(f, derive(f, if f.id in byFinding then byFinding[f.id] else []))];
    }
    r := Built(rows, parked);
  }

  /** Conservation: the events split into one pile per route, none lost and none in two piles. */
  lemma {:induction false} RoutedConserves(t: Table, queued: set<string>, ids: set<string>, events: seq<Event>, e: Event, route: Route)
    ensures multiset(Routed(t, queued, ids, events, route))[e]
         == if RouteOf(t, queued, ids, e) == route then multiset(events)[e] else 0
  {
    if events != [] {
      var n := |events| - 1;
      RoutedConserves(t, queued, ids, events[..n], e, route);
      assert events == events[..n] + [events[n]];
    }
  }

  // --------------------------------------------------------------------------
  // Claim-hash guard
  // --------------------------------------------------------------------------

  datatype ClaimIssue = Missing(id: string) | EditedInPlace(id: string) | CorrectedDrift(id: string)

  function FindingWithId(findings: seq<Finding>, id: string): Option<Finding> {
    if findings == [] then None
    else if findings[|findings| - 1].id == id then Some(findings[|findings| - 1])
    else FindingWithId(findings[..|findings| - 1], id)
  }

  lemma {:induction false} FindingWithIdFinds(findings: seq<Finding>, id: string)
    ensures FindingWithId(findings, id).Some? <==> id in Ids(findings)
    ensures FindingWithId(findings, id).Some? ==> FindingWithId(findings, id).value in findings && FindingWithId(findings, id).value.id == id
  {
    if findings != [] {
      var n := |findings| - 1;
      FindingWithIdFinds(findings[..n], id);
      assert findings == findings[..n] + [findings[n]];
    }
  }

  /** The guard over every pin; a tampered or deleted baselined finding is an error. */
  method VerifyClaimHashes(findings: seq<Finding>, layer: Layer, claimHash: Finding -> string, corrected: Finding -> bool)
    returns (errors: set<ClaimIssue>, warnings: set<ClaimIssue>, unbaselined: set<string>)
    requires DistinctIds(findings)
    ensures forall id :: Missing(id) in errors <==> id in layer.claims && id !in Ids(findings)
    ensures forall f | f in findings ::
      EditedInPlace(f.id) in errors <==> f.id in layer.claims && claimHash(f) != layer.claims[f.id] && !corrected(f)
    ensures forall f | f in findings ::
      CorrectedDrift(f.id) in warnings <==> f.id in layer.claims && claimHash(f) != layer.claims[f.id] && corrected(f)
    ensures forall i | i in errors :: i.Missing? || (i.EditedInPlace? && i.id in Ids(findings))
    ensures forall i | i in warnings :: i.CorrectedDrift? && i.id in Ids(findings)
    ensures unbaselined == if layer.claims == map[] then {} else Ids(findings) - layer.claims.Keys
  {
    errors, warnings, unbaselined := {}, {}, {};
    if layer.claims == map[] {
      return;
    }
    var todo := layer.claims.Keys;
    while todo != {}
      invariant todo <= layer.claims.Keys
      invariant forall id :: Missing(id) in errors <==> id in layer.claims.Keys - todo && id !in Ids(findings)
      invariant forall f | f in findings ::
        EditedInPlace(f.id) in errors <==> f.id in layer.claims.Keys - todo && claimHash(f) != layer.claims[f.id] && !corrected(f)
      invariant forall f | f in findings ::
        CorrectedDrift(f.id) in warnings <==> f.id in layer.claims.Keys - todo && claimHash(f) != layer.claims[f.id] && corrected(f)
      invariant forall i | i in errors :: i.Missing? || (i.EditedInPlace? && i.id in Ids(findings))
      invariant forall i | i in warnings :: i.CorrectedDrift? && i.id in Ids(findings)
    {
      var id :| id in todo;
      var found := FindingWithId(findings, id);
      FindingWithIdFinds(findings, id);
      if found.None? {
        errors := errors + {Missing(id)};
      } else {
        assert forall f | f in findings && f.id == id :: f == found.value;
        if claimHash(found.value) != layer.claims[id] {
          if corrected(found.value) {
            warnings := warnings + {CorrectedDrift(id)};
          } else {
            errors := errors + {EditedInPlace(id)};
          }
        }
      }
      todo := todo - {id};
    }
    unbaselined := Ids(findings) - layer.claims.Keys;
  }
}

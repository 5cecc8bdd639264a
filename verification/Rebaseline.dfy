/** Rebaselining: a new audit supersedes an old one, and the layer's aliases, queue and pins follow. */
module Rebaseline {
  import opened Characters
  import opened Findings
  import opened MatchLadder
  import opened Layers

  // --------------------------------------------------------------------------
  // Alias keys
  // --------------------------------------------------------------------------

  predicate IsUpper(c: char) { 'A' <= c <= 'Z' }
  predicate IsHex(c: char) { IsDigit(c) || 'a' <= c <= 'f' }

  /** Campaign ids: an upper-case slug, a dash, 7 to 12 hex digits, a dash, three digits. */
  predicate Canonical(id: string) {
    exists d | 1 <= d < |id| :: CutsAt(id, d)
  }

  predicate CutsAt(id: string, d: nat)
    requires 1 <= d < |id|
  {
    && id[d] == '-' && 7 <= |id| - d - 5 <= 12 && id[|id| - 4] == '-'
    && IsUpper(id[0]) && (forall k | 1 <= k < d :: IsUpper(id[k]) || IsDigit(id[k]) || id[k] == '_')
    && (forall k | d < k < |id| - 4 :: IsHex(id[k]))
    && (forall k | |id| - 4 < k < |id| :: IsDigit(id[k]))
  }

  /** A canonical id is spelled from a slug, some hex digits and three digits. */
  lemma CanonicalExactly(id: string)
    ensures Canonical(id) <==> exists slug, hex, number :: CampaignParts(slug, hex, number) && id == slug + "-" + hex + "-" + number
  {
    hide CutsAt, CampaignParts;
    if Canonical(id) {
      var d :| 1 <= d < |id| && CutsAt(id, d);
      CutParts(id, d);
    }
    if slug, hex, number :| CampaignParts(slug, hex, number) && id == slug + "-" + hex + "-" + number {
      PartsCut(slug, hex, number);
    }
  }

  lemma CutParts(id: string, d: nat)
    requires 1 <= d < |id| && CutsAt(id, d)
    ensures var slug, hex, number := id[..d], id[d + 1..|id| - 4], id[|id| - 3..];
      CampaignParts(slug, hex, number) && id == slug + "-" + hex + "-" + number
  {
    var hex, number := id[d + 1..|id| - 4], id[|id| - 3..];
    assert forall k | 0 <= k < |hex| :: hex[k] == id[d + 1 + k];
    assert forall k | 0 <= k < |number| :: number[k] == id[|id| - 3 + k];
  }

  lemma PartsCut(slug: string, hex: string, number: string)
    requires CampaignParts(slug, hex, number)
    ensures var id := slug + "-" + hex + "-" + number; 1 <= |slug| < |id| && CutsAt(id, |slug|)
  {
    var id := slug + "-" + hex + "-" + number;
    var d := |slug|;
    assert forall k | 0 <= k < d :: id[k] == slug[k] && slug[k] in slug;
    assert forall k | d < k < |id| - 4 :: id[k] == hex[k - d - 1] && hex[k - d - 1] in hex;
    assert forall k | |id| - 4 < k < |id| :: id[k] == number[k - (|id| - 3)] && number[k - (|id| - 3)] in number;
  }

  ghost predicate CampaignParts(slug: string, hex: string, number: string) {
    && slug != "" && 'A' <= slug[0] <= 'Z' && (forall c | c in slug :: 'A' <= c <= 'Z' || '0' <= c <= '9' || c == '_')
    && 7 <= |hex| <= 12 && (forall c | c in hex :: '0' <= c <= '9' || 'a' <= c <= 'f')
    && |number| == 3 && forall c | c in number :: '0' <= c <= '9'
  }

  const SUFFIX := "-security-audit.json"

  /** `Path.stem`: the name without its last extension; a dot at either end starts none. */
  function Stem(name: string): string {
    if name != "" && name[|name| - 1] == '.' then name else StemTo(name, |name|)
  }

  function StemTo(name: string, n: nat): string
    requires n <= |name|
  {
    if n <= 1 then name else if name[n - 1] == '.' then name[..n - 1] else StemTo(name, n - 1)
  }

  function Slug(fileName: string): string {
    if |fileName| >= |SUFFIX| && fileName[|fileName| - |SUFFIX|..] == SUFFIX
    then fileName[..|fileName| - |SUFFIX|]
    else Stem(fileName)
  }

  /** The slug of an audit report is what stands before the suffix. */
  lemma SlugOfAudit(base: string)
    ensures Slug(base + "-security-audit.json") == base
  {
    var name := base + "-security-audit.json";
    assert name[|base|..] == SUFFIX && name[..|base|] == base;
  }

  /** Any other file's slug loses the last extension, and nothing when there is none. */
  lemma SlugOfOther(name: string)
    requires forall base :: name != base + "-security-audit.json"
    ensures forall base, ext :: Extended(name, base, ext) ==> Slug(name) == base
    ensures (forall base, ext :: !Extended(name, base, ext)) ==> Slug(name) == name
  {
    if |name| >= |SUFFIX| && name[|name| - |SUFFIX|..] == SUFFIX {
      assert name == name[..|name| - |SUFFIX|] + "-security-audit.json";
    }
    forall base, ext | Extended(name, base, ext) ensures Stem(name) == base {
      assert name[..|base|] == base;
      assert forall k | |base| < k < |name| :: name[k] == ext[k - |base| - 1];
      StemFinds(name, |name|, |base|);
    }
    if Stem(name) != name {
      var d := StemCuts(name, |name|);
      assert Extended(name, name[..d], name[d + 1..]);
    }
  }

  ghost predicate Extended(name: string, base: string, ext: string) {
    name == base + "." + ext && base != "" && ext != "" && '.' !in ext
  }

  lemma {:induction false} StemFinds(name: string, n: nat, d: nat)
    requires 0 < d < n <= |name| && name[d] == '.' && forall k | d < k < n :: name[k] != '.'
    ensures StemTo(name, n) == name[..d]
  {
    if d < n - 1 {
      StemFinds(name, n - 1, d);
    }
  }

  lemma {:induction false} StemCuts(name: string, n: nat) returns (d: nat)
    requires n <= |name| && (forall k | n <= k < |name| :: name[k] != '.')
    requires name != "" && name[|name| - 1] != '.' && StemTo(name, n) != name
    ensures 0 < d < |name| - 1 && name[d] == '.' && '.' !in name[d + 1..]
  {
    if name[n - 1] == '.' {
      d := n - 1;
    } else {
      d := StemCuts(name, n - 1);
    }
  }

  /** Legacy ids are unique only within a report, so they are prefixed with its slug. */
  function AliasKey(slug: string, id: string): string {
    if Canonical(id) then id else slug + ":" + id
  }

  lemma CanonicalHasNoColon(id: string)
    requires Canonical(id)
    ensures ':' !in id
  {
  }

  lemma AliasKeyInjective(slug: string, a: string, b: string)
    requires AliasKey(slug, a) == AliasKey(slug, b)
    ensures a == b
  {
    assert (slug + ":" + a)[|slug|] == ':' && (slug + ":" + b)[|slug|] == ':';
    if Canonical(a) {
      CanonicalHasNoColon(a);
    } else if Canonical(b) {
      CanonicalHasNoColon(b);
    } else {
      assert (slug + ":" + a)[|slug| + 1..] == a && (slug + ":" + b)[|slug| + 1..] == b;
    }
  }

  function AliasKeys(slug: string): string -> string {
    id => AliasKey(slug, id)
  }

  ghost predicate Injective(keyOf: string -> string) {
    forall a, b :: keyOf(a) == keyOf(b) ==> a == b
  }

  lemma AliasKeysInjective(slug: string)
    ensures Injective(AliasKeys(slug))
  {
    forall a, b | AliasKeys(slug)(a) == AliasKeys(slug)(b) ensures a == b {
      AliasKeyInjective(slug, a, b);
    }
  }

  // --------------------------------------------------------------------------
  // What a rebaseline does to the layer
  // --------------------------------------------------------------------------

  predicate Settled(t: Table, key: string) {
    key in t && (t[key].confirmed || t[key].rejected)
  }

  function Entry(m: Match, fileName: string): Alias {
    Alias(m.newId, m.tier, fileName, m.tier == ByFingerprint, false)
  }

  /** The table after the first mapped ids `done` were written. */
  ghost predicate AliasesWritten(before: Table, after: Table, mapped: map<string, Match>, done: seq<string>, keyOf: string -> string, fileName: string)
    requires AllMapped(done, mapped)
  {
    && (forall key | key in before :: key in after)
    && (forall id | id in done ::
          var key := keyOf(id);
          key in after && after[key] == if Settled(before, key) then before[key] else Entry(mapped[id], fileName))
    && (forall key | key in after && (key !in before || after[key] != before[key]) ::
          exists id :: id in done && keyOf(id) == key)
  }

  /** A human confirms or rejects every mapping that is not settled and not automatic. */
  function MappingItems(before: Table, mapped: map<string, Match>, order: seq<string>, keyOf: string -> string): seq<ReviewItem>
    requires AllMapped(order, mapped)
  {
    if order == [] then []
    else
      var n := |order| - 1;
      var id := order[n];
      var rest := MappingItems(before, mapped, order[..n], keyOf);
      if !Settled(before, keyOf(id)) && mapped[id].tier != ByFingerprint
      then rest + [ReviewItem(mapped[id].newId, RebaselineMapping, true)]
      else rest
  }

  /** A human closes or maps every unmatched old finding. */
  function UnmatchedItems(ids: seq<string>): seq<ReviewItem> {
    seq(|ids|, i requires 0 <= i < |ids| => ReviewItem(ids[i], RebaselineUnmatched, true))
  }

  function IdPart(key: string): string {
    if ':' in key then AfterColon(key) else key
  }

  /** The superseded ids: mapped, aliased by this report earlier, or queued as unmatched. */
  function Covered(r: MatchResult, aliases: Table, fileName: string, queueReviews: bool): set<string> {
    r.ladder.mapped.Keys
    + (set k | k in aliases && aliases[k].fromReport == fileName :: IdPart(k))
    + if queueReviews then set id | id in r.unmatchedOld else {}
  }

  /** The pins that move out: covered ids that the new report does not contain. */
  function Migrated(claims: map<string, string>, newIds: set<string>, covered: set<string>): set<string> {
    set id | id in claims && id !in newIds && id in covered
  }

  /** The state a rebaseline reads and rewrites. */
  datatype LayerState = LayerState(aliases: Table, needsReview: seq<ReviewItem>, claims: map<string, string>)

  function StateOf(layer: Layer): LayerState
    reads layer
  {
    LayerState(layer.aliases, layer.needsReview, layer.claims)
  }

  /** The whole effect of one rebaseline. */
  ghost predicate Effect(r: MatchResult, keyOf: string -> string, fileName: string, newIds: set<string>, queueReviews: bool,
                         s: LayerState, s': LayerState)
    requires AllMapped(r.ladder.order, r.ladder.mapped)
  {
    && AliasesWritten(s.aliases, s'.aliases, r.ladder.mapped, r.ladder.order, keyOf, fileName)
    && s'.needsReview == s.needsReview
         + (if queueReviews then MappingItems(s.aliases, r.ladder.mapped, r.ladder.order, keyOf) else [])
         + (if queueReviews then UnmatchedItems(r.unmatchedOld) else [])
    && s'.claims == s.claims - Migrated(s.claims, newIds, Covered(r, s'.aliases, fileName, queueReviews))
  }

  function AliasAfter(t: Table, key: string, m: Match, fileName: string): Table {
    if Settled(t, key) then t else t[key := Entry(m, fileName)]
  }

  function QueueAfter(items: seq<ReviewItem>, t: Table, key: string, m: Match, queueReviews: bool): seq<ReviewItem> {
    if queueReviews && !Settled(t, key) && m.tier != ByFingerprint then items + [ReviewItem(m.newId, RebaselineMapping, true)] else items
  }

  /** Records one mapping; a settled alias is left alone and is not queued again. */
  method WriteAlias(layer: Layer, key: string, m: Match, fileName: string, queueReviews: bool)
    modifies layer`aliases, layer`needsReview
    ensures layer.aliases == AliasAfter(old(layer.aliases), key, m, fileName)
    ensures layer.needsReview == QueueAfter(old(layer.needsReview), old(layer.aliases), key, m, queueReviews)
  {
    if Settled(layer.aliases, key) {
      return;
    }
    layer.aliases := layer.aliases[key := Entry(m, fileName)];
    if m.tier != ByFingerprint && queueReviews {
      layer.needsReview := layer.needsReview + [ReviewItem(m.newId, RebaselineMapping, true)];
    }
  }

  ghost predicate NoRepeats(order: seq<string>) {
    forall i, j :: 0 <= i < j < |order| ==> order[i] != order[j]
  }

  ghost predicate AllMapped(order: seq<string>, mapped: map<string, Match>) {
    forall id | id in order :: id in mapped
  }

  method WriteAliases(layer: Layer, mapped: map<string, Match>, order: seq<string>, keyOf: string -> string, fileName: string, queueReviews: bool)
    requires Injective(keyOf) && NoRepeats(order) && AllMapped(order, mapped)
    modifies layer`aliases, layer`needsReview
    ensures AliasesWritten(old(layer.aliases), layer.aliases, mapped, order, keyOf, fileName)
    ensures Queued(old(layer.needsReview), layer.needsReview, old(layer.aliases), mapped, order, keyOf, queueReviews)
  {
    ghost var before, items := layer.aliases, layer.needsReview;
    for i := 0 to |order|
      invariant AllMapped(order[..i], mapped)
      invariant AliasesWritten(before, layer.aliases, mapped, order[..i], keyOf, fileName)
      invariant Queued(items, layer.needsReview, before, mapped, order[..i], keyOf, queueReviews)
    {
      AliasStep(before, layer.aliases, mapped, order, i, keyOf, fileName);
      QueueStep(items, layer.needsReview, before, layer.aliases, mapped, order, i, keyOf, fileName, queueReviews);
      WriteAlias(layer, keyOf(order[i]), mapped[order[i]], fileName, queueReviews);
    }
    assert order[..|order|] == order;
  }

  /** The queue after the mappings of `done`: each open mapping was queued once, in order. */
  ghost predicate Queued(items: seq<ReviewItem>, items': seq<ReviewItem>, before: Table, mapped: map<string, Match>, done: seq<string>,
                         keyOf: string -> string, queueReviews: bool)
    requires AllMapped(done, mapped)
  {
    items' == items + if queueReviews then MappingItems(before, mapped, done, keyOf) else []
  }

  lemma QueueStep(items: seq<ReviewItem>, items': seq<ReviewItem>, before: Table, now: Table, mapped: map<string, Match>,
                  order: seq<string>, i: nat, keyOf: string -> string, fileName: string, queueReviews: bool)
    requires Injective(keyOf) && i < |order| && AllMapped(order, mapped) && NoRepeats(order)
    requires AliasesWritten(before, now, mapped, order[..i], keyOf, fileName)
    requires Queued(items, items', before, mapped, order[..i], keyOf, queueReviews)
    ensures Queued(items, QueueAfter(items', now, keyOf(order[i]), mapped[order[i]], queueReviews), before, mapped, order[..i + 1], keyOf, queueReviews)
  {
    KeyUntouched(before, now, mapped, order, i, keyOf, fileName);
    assert order[..i + 1][..i] == order[..i];
  }

  lemma KeyUntouched(before: Table, now: Table, mapped: map<string, Match>, order: seq<string>, i: nat, keyOf: string -> string, fileName: string)
    requires Injective(keyOf) && i < |order| && AllMapped(order, mapped) && NoRepeats(order)
    requires AliasesWritten(before, now, mapped, order[..i], keyOf, fileName)
    ensures var key := keyOf(order[i]);
      (key in now <==> key in before) && (key in now ==> now[key] == before[key])
  {
    var key := keyOf(order[i]);
    assert forall id :: id in order[..i] ==> keyOf(id) != key;
  }

  lemma AliasStep(before: Table, now: Table, mapped: map<string, Match>, order: seq<string>, i: nat, keyOf: string -> string, fileName: string)
    requires Injective(keyOf) && i < |order| && AllMapped(order, mapped) && NoRepeats(order)
    requires AliasesWritten(before, now, mapped, order[..i], keyOf, fileName)
    ensures var key := keyOf(order[i]);
      AliasesWritten(before, AliasAfter(now, key, mapped[order[i]], fileName), mapped, order[..i + 1], keyOf, fileName)
  {
    var key := keyOf(order[i]);
    var after := AliasAfter(now, key, mapped[order[i]], fileName);
    KeyUntouched(before, now, mapped, order, i, keyOf, fileName);
    assert order[..i + 1] == order[..i] + [order[i]];
    forall id | id in order[..i + 1]
      ensures keyOf(id) in after
      ensures after[keyOf(id)] == if Settled(before, keyOf(id)) then before[keyOf(id)] else Entry(mapped[id], fileName)
    {
      if id in order[..i] {
        assert keyOf(id) != key;
      }
    }
    forall k | k in after && (k !in before || after[k] != before[k])
      ensures exists id :: id in order[..i + 1] && keyOf(id) == k
    {
      if k != key {
        var id :| id in order[..i] && keyOf(id) == k;
        assert id in order[..i + 1];
      } else {
        assert order[i] in order[..i + 1];
      }
    }
  }

  /** Writes aliases and queue items, and migrates the claim pins. */
  method ApplyMatch(r: MatchResult, keyOf: string -> string, fileName: string, newIds: set<string>, layer: Layer, queueReviews: bool)
    returns (migrated: set<string>)
    requires Injective(keyOf) && NoRepeats(r.ladder.order) && AllMapped(r.ladder.order, r.ladder.mapped)
    modifies layer
    ensures Effect(r, keyOf, fileName, newIds, queueReviews, old(StateOf(layer)), StateOf(layer))
    ensures layer.events == old(layer.events)
    ensures migrated == Migrated(old(layer.claims), newIds, Covered(r, layer.aliases, fileName, queueReviews))
  {
    WriteAliases(layer, r.ladder.mapped, r.ladder.order, keyOf, fileName, queueReviews);
    layer.needsReview := layer.needsReview + if queueReviews then UnmatchedItems(r.unmatchedOld) else [];
    migrated := Migrated(layer.claims, newIds, Covered(r, layer.aliases, fileName, queueReviews));
    DropPins(layer, migrated);
  }

  method MatchReports(recipe: Recipe, old_: Report, new_: Report) returns (r: MatchResult)
    requires DistinctIds(old_.findings) && DistinctIds(new_.findings)
    ensures r.ladder.Valid() && Partitions(r, old_.findings, new_.findings) && FromLadder(recipe, old_, new_, r)
  {
    ghost var l1, l2, l3;
    r, l1, l2, l3 := MatchFindings(recipe, old_, new_);
    assert ClimbedBy(recipe, old_, new_, l1, l2, l3, r);
  }

  /** One rebaseline of `layer` from report `old_` to report `new_`. */
  ghost predicate Rebased(r: MatchResult, old_: Report, new_: Report, queueReviews: bool, s: LayerState, s': LayerState) {
    && r.ladder.Valid() && Partitions(r, old_.findings, new_.findings)
    && Effect(r, AliasKeys(Slug(old_.fileName)), old_.fileName, Ids(new_.findings), queueReviews, s, s')
  }

  method RebaselineLayer(recipe: Recipe, old_: Report, new_: Report, layer: Layer, queueReviews: bool)
    returns (r: MatchResult, migrated: set<string>)
    requires DistinctIds(old_.findings) && DistinctIds(new_.findings)
    modifies layer
    ensures FromLadder(recipe, old_, new_, r)
    ensures Rebased(r, old_, new_, queueReviews, old(StateOf(layer)), StateOf(layer))
    ensures layer.events == old(layer.events)
    ensures migrated == Migrated(old(layer.claims), Ids(new_.findings), Covered(r, layer.aliases, old_.fileName, queueReviews))
  {
    r := MatchReports(recipe, old_, new_);
    AliasKeysInjective(Slug(old_.fileName));
    migrated := ApplyMatch(r, AliasKeys(Slug(old_.fileName)), old_.fileName, Ids(new_.findings), layer, queueReviews);
  }

  method DropPins(layer: Layer, ids: set<string>)
    modifies layer`claims
    ensures layer.claims == old(layer.claims) - ids
  {
    var todo := ids;
    while todo != {}
      invariant todo <= ids
      invariant layer.claims == old(layer.claims) - (ids - todo)
    {
      var id :| id in todo;
      layer.claims := layer.claims - {id};
      todo := todo - {id};
    }
  }
}

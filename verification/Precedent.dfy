/** The cache of settled refutations: which events seed it, its two indexes, and lookups in it. */
module Precedent {
  import opened Findings
  import opened TextOrder

  type Signature = string

  /** The repository-independent identity of a component; its paths are sorted and distinct. */
  datatype Component = Component(paths: seq<string>, cwe: string, category: string, sink: string)

  /** A finding as the cache sees it; `classCwe` is the upper-cased first CWE used for matching. What is empty is `None`. */
  datatype Reported = Reported(component: Component, stamp: Option<string>, computed: string, classCwe: Option<string>) {
    function Fp(): string { stamp.GetOr(computed) }
  }

  datatype Actor = Human | Machine | NoActor

  datatype Event = Event(validity: string, actor: Actor, verified: bool, identified: bool, sourceType: string) {
    predicate Refutes() { validity == "false_positive" || validity == "hardening" }
    predicate ByHuman() { Refutes() && actor.Human? && verified && identified }
    predicate ByMachine() {
      Refutes() && actor.Machine? && (sourceType == "triage_report" || sourceType == "verification_report" || LiveValidation())
    }
    predicate LiveValidation() { sourceType == "validation_report" }
  }

  /** One finding of a layer: its events by time, its entry in the report, and its derived disposition. */
  datatype Case = Case(finding: Option<Reported>, events: seq<Event>, validity: string, overridden: bool) {
    predicate Contested() { exists e :: e in events && e.validity == "confirmed" }
    predicate Adjudicated() { exists e :: e in events && (e.ByHuman() || e.ByMachine()) }
  }

  datatype Strength = HumanCountersigned | MachineRefutedSound

  datatype Choice = Choice(event: Event, strength: Strength)

  // --------------------------------------------------------------------------
  // The precedent event of a finding
  // --------------------------------------------------------------------------

  /** A machine event that may seed a precedent. */
  predicate Usable(sound: Event -> bool, e: Event) {
    e.ByMachine() && (e.LiveValidation() ==> sound(e))
  }

  predicate IsHuman(e: Event) {
    e.ByHuman()
  }

  function UsableBy(sound: Event -> bool): Event -> bool {
    e => Usable(sound, e)
  }

  function LastIndex(events: seq<Event>, p: Event -> bool): (r: Option<nat>)
    ensures r.Some? ==> r.value < |events| && p(events[r.value]) && forall i | r.value < i < |events| :: !p(events[i])
    ensures r.None? ==> forall e | e in events :: !p(e)
  {
    if events == [] then None
    else if p(events[|events| - 1]) then Some(|events| - 1)
    else LastIndex(events[..|events| - 1], p)
  }

  /** The last human event, else the last usable machine event. */
  function Chosen(sound: Event -> bool, events: seq<Event>): Option<Choice> {
    var human := LastIndex(events, IsHuman);
    var machine := LastIndex(events, UsableBy(sound));
    if human.Some? then Some(Choice(events[human.value], HumanCountersigned))
    else if machine.Some? then Some(Choice(events[machine.value], MachineRefutedSound))
    else None
  }

  /** Unsound machine refutations that the search passes over. */
  function PassedOver(sound: Event -> bool, events: seq<Event>): nat {
    if LastIndex(events, IsHuman).Some? then 0 else UnsoundTail(sound, events)
  }

  function UnsoundTail(sound: Event -> bool, events: seq<Event>): nat {
    if events == [] then 0
    else
      var e := events[|events| - 1];
      if Usable(sound, e) then 0 else UnsoundTail(sound, events[..|events| - 1]) + if e.ByMachine() then 1 else 0
  }

  lemma {:induction false} LastIndexIs(events: seq<Event>, p: Event -> bool, i: nat)
    requires i < |events| && p(events[i]) && forall j | i < j < |events| :: !p(events[j])
    ensures LastIndex(events, p) == Some(i)
  {
    if i < |events| - 1 {
      LastIndexIs(events[..|events| - 1], p, i);
    }
  }

  method SelectEvent(sound: Event -> bool, events: seq<Event>) returns (choice: Option<Choice>, unsound: nat)
    ensures choice == Chosen(sound, events) && unsound == PassedOver(sound, events)
  {
    hide Event.ByHuman, Event.ByMachine, Event.LiveValidation;
    unsound := 0;
    var human := LastIndex(events, IsHuman);
    if human.Some? {
      return Some(Choice(events[human.value], HumanCountersigned)), 0;
    }
    var i := |events|;
    assert events[..i] == events;
    while i > 0
      invariant 0 <= i <= |events| && forall j | i <= j < |events| :: !Usable(sound, events[j])
      invariant unsound + UnsoundTail(sound, events[..i]) == UnsoundTail(sound, events)
    {
      i := i - 1;
      assert events[..i + 1][..i] == events[..i];
      if events[i].ByMachine() {
        if events[i].LiveValidation() && !sound(events[i]) {
          unsound := unsound + 1;
        } else {
          LastIndexIs(events, UsableBy(sound), i);
          return Some(Choice(events[i], MachineRefutedSound)), unsound;
        }
      }
    }
    choice := None;
  }

  // --------------------------------------------------------------------------
  // What becomes of a finding
  // --------------------------------------------------------------------------

  datatype Precedent = Precedent(fp: string, component: Component, event: Event, strength: Strength)

  datatype Outcome = Skipped | NoEvent | Stale | Conflict | Admitted(precedent: Precedent) {
    function BinOf(): Bin {
      match this
      case Skipped => Uncounted
      case NoEvent => Uncounted
      case Stale => StaleBin
      case Conflict => ContestedBin
      case Admitted(p) => if p.strength.HumanCountersigned? then HumanBin else MachineBin
    }
  }

  /** The counter an outcome falls into. */
  datatype Bin = HumanBin | MachineBin | ContestedBin | StaleBin | Uncounted

  /** The guards in order: adjudicated, in the report, a usable event, not contested, still current. */
  function Judge(sound: Event -> bool, c: Case): Outcome {
    if !c.Adjudicated() || c.finding.None? then Skipped
    else
      match Chosen(sound, c.events)
      case None => NoEvent
      case Some(choice) =>
        var p := Precedent(c.finding.value.Fp(), c.finding.value.component, choice.event, choice.strength);
        if choice.strength.HumanCountersigned? then (if c.validity == choice.event.validity then Admitted(p) else Stale)
        else if c.Contested() then Conflict
        else if c.validity == "confirmed" || c.validity == "corrected" || c.overridden then Stale
        else Admitted(p)
  }

  /** A machine precedent never comes from an unsound event or a contested finding, a human one agrees with the current verdict. */
  lemma AdmittedOnly(sound: Event -> bool, c: Case)
    requires Judge(sound, c).Admitted?
    ensures var p := Judge(sound, c).precedent;
      && p.event in c.events && p.event.Refutes()
      && (p.strength.MachineRefutedSound? ==> p.event.ByMachine() && (p.event.LiveValidation() ==> sound(p.event)))
      && (p.strength.MachineRefutedSound? ==> forall e | e in c.events :: e.validity != "confirmed" && !e.ByHuman())
      && (p.strength.HumanCountersigned? ==> p.event.ByHuman() && c.validity == p.event.validity)
  {
    assert Chosen(sound, c.events).Some?;
  }

  // The same over the fields of the events.

  predicate Verdict(validity: string) { validity == "false_positive" || validity == "hardening" }

  predicate HumanRefutes(e: Event) { Verdict(e.validity) && e.actor == Human && e.verified && e.identified }

  /** A machine refutation from one of the three protocols; only live validation has to be sound. */
  predicate MachineRefutes(sound: Event -> bool, e: Event) {
    && Verdict(e.validity) && e.actor == Machine
    && (e.sourceType in {"triage_report", "verification_report"} || (e.sourceType == "validation_report" && sound(e)))
  }

  ghost predicate LastHuman(events: seq<Event>, e: Event) {
    exists i :: 0 <= i < |events| && events[i] == e && HumanRefutes(e) && forall j | i < j < |events| :: !HumanRefutes(events[j])
  }

  /** Without any human refutation, the last usable machine one. */
  ghost predicate LastMachine(sound: Event -> bool, events: seq<Event>, e: Event) {
    && (forall d | d in events :: !HumanRefutes(d))
    && exists i :: 0 <= i < |events| && events[i] == e && MachineRefutes(sound, e) && forall j | i < j < |events| :: !MachineRefutes(sound, events[j])
  }

  predicate NeverConfirmed(events: seq<Event>) { forall e | e in events :: e.validity != "confirmed" }

  predicate StillRefuted(c: Case) { c.validity !in {"confirmed", "corrected"} && !c.overridden }

  lemma ChosenExactly(sound: Event -> bool, events: seq<Event>, e: Event)
    ensures Chosen(sound, events) == Some(Choice(e, HumanCountersigned)) <==> LastHuman(events, e)
    ensures Chosen(sound, events) == Some(Choice(e, MachineRefutedSound)) <==> LastMachine(sound, events, e)
  {
    assert forall d :: IsHuman(d) <==> HumanRefutes(d);
    assert forall d :: UsableBy(sound)(d) <==> MachineRefutes(sound, d);
    hide HumanRefutes, MachineRefutes, Usable, Event.ByHuman, IsHuman, UsableBy;
    assert forall i | 0 <= i < |events| :: events[i] in events;
    if i :| 0 <= i < |events| && events[i] == e && HumanRefutes(e) && forall j | i < j < |events| :: !HumanRefutes(events[j]) {
      LastIndexIs(events, IsHuman, i);
    }
    if i :| 0 <= i < |events| && events[i] == e && MachineRefutes(sound, e) && forall j | i < j < |events| :: !MachineRefutes(sound, events[j]) {
      LastIndexIs(events, UsableBy(sound), i);
    }
  }

  /** Any chosen event was refuted by a human or a machine. */
  lemma ChosenAdjudicates(sound: Event -> bool, c: Case)
    ensures Chosen(sound, c.events).Some? ==> c.Adjudicated()
    ensures Chosen(sound, c.events).Some? ==> LastHuman(c.events, Chosen(sound, c.events).value.event) || LastMachine(sound, c.events, Chosen(sound, c.events).value.event)
  {
    if Chosen(sound, c.events).Some? {
      ChosenExactly(sound, c.events, Chosen(sound, c.events).value.event);
    }
  }

  /**
   * What becomes of a finding in the report. The last human refutation is filed while the disposition agrees
   * with it, and is stale otherwise. The last usable machine refutation counts when there is no human one: it
   * is filed when no event confirms the finding and the disposition still refutes it.
   */
  lemma OutcomeExactly(sound: Event -> bool, c: Case, p: Precedent)
    requires c.finding.Some? && p.component == c.finding.value.component
    requires p.fp == if c.finding.value.stamp.Some? then c.finding.value.stamp.value else c.finding.value.computed
    ensures Judge(sound, c) == Admitted(p) <==>
      if p.strength.HumanCountersigned? then LastHuman(c.events, p.event) && c.validity == p.event.validity
      else LastMachine(sound, c.events, p.event) && NeverConfirmed(c.events) && StillRefuted(c)
    ensures Judge(sound, c) == Conflict <==> (exists e :: LastMachine(sound, c.events, e)) && !NeverConfirmed(c.events)
    ensures Judge(sound, c) == Stale <==>
      || (exists e :: LastHuman(c.events, e) && c.validity != e.validity)
      || ((exists e :: LastMachine(sound, c.events, e)) && NeverConfirmed(c.events) && !StillRefuted(c))
  {
    forall e {
      ChosenExactly(sound, c.events, e);
    }
    ChosenAdjudicates(sound, c);
    hide LastHuman, LastMachine, Chosen, Case.Adjudicated;
  }

  /** A finding that the report no longer holds, and one that nobody refuted, seed nothing. */
  lemma SkippedExactly(sound: Event -> bool, c: Case)
    ensures Judge(sound, c).Skipped? <==> c.finding.None? || forall e | e in c.events :: !HumanRefutes(e) && !MachineRefutes(_ => true, e)
  {
    assert forall e: Event :: e.ByHuman() || e.ByMachine() <==> HumanRefutes(e) || MachineRefutes(_ => true, e);
  }

  /** The precedents of all cases, in order. */
  function Precedents(sound: Event -> bool, cases: seq<Case>): seq<Precedent> {
    if cases == [] then []
    else
      var o := Judge(sound, cases[|cases| - 1]);
      Precedents(sound, cases[..|cases| - 1]) + if o.Admitted? then [o.precedent] else []
  }

  /** How many cases fell into `bin`. */
  function Tally(sound: Event -> bool, cases: seq<Case>, bin: Bin): nat {
    if cases == [] then 0
    else Tally(sound, cases[..|cases| - 1], bin) + if Judge(sound, cases[|cases| - 1]).BinOf() == bin then 1 else 0
  }

  function Unsound(sound: Event -> bool, cases: seq<Case>): nat {
    if cases == [] then 0
    else
      var c := cases[|cases| - 1];
      Unsound(sound, cases[..|cases| - 1]) + if Judge(sound, c).Skipped? then 0 else PassedOver(sound, c.events)
  }

  // --------------------------------------------------------------------------
  // The two indexes
  // --------------------------------------------------------------------------

  datatype Entry = Entry(component: Component, precedents: seq<Precedent>)

  datatype Cache = Cache(components: map<Signature, Entry>, fingerprints: map<string, seq<Signature>>)

  datatype Counters = Counters(human: nat, machine: nat, unsound: nat, contested: nat, stale: nat)

  function Of(signature: Component -> Signature, ps: seq<Precedent>, s: Signature): seq<Precedent> {
    if ps == [] then []
    else Of(signature, ps[..|ps| - 1], s) + if signature(ps[|ps| - 1].component) == s then [ps[|ps| - 1]] else []
  }

  /** Some precedent under `s` has fingerprint `fp`. */
  ghost predicate Listed(components: map<Signature, Entry>, fp: string, s: Signature) {
    s in components && exists p :: p in components[s].precedents && p.fp == fp
  }

  /** Both indexes agree: a signature is listed for a fingerprint exactly when a precedent under it has that fingerprint. */
  ghost predicate Agree(cache: Cache) {
    && (forall fp, s :: fp in cache.fingerprints && s in cache.fingerprints[fp] <==> Listed(cache.components, fp, s))
    && (forall fp | fp in cache.fingerprints :: cache.fingerprints[fp] != [] && NoRepeats(cache.fingerprints[fp]))
  }

  predicate NoRepeats(s: seq<Signature>) {
    forall i, j | 0 <= i < j < |s| :: s[i] != s[j]
  }

  /** The cache files each of `ps` once, under its own signature and nowhere else. */
  ghost predicate Files(cache: Cache, signature: Component -> Signature, ps: seq<Precedent>) {
    && (forall s :: s in cache.components <==> Of(signature, ps, s) != [])
    && (forall s | s in cache.components :: cache.components[s].precedents == Of(signature, ps, s))
    && (forall s | s in cache.components :: cache.components[s].component == Of(signature, ps, s)[0].component)
  }

  function WithPrecedent(cache: Cache, s: Signature, p: Precedent): Cache {
    var e := if s in cache.components then cache.components[s] else Entry(p.component, []);
    var listed := if p.fp in cache.fingerprints then cache.fingerprints[p.fp] else [];
    Cache(cache.components[s := e.(precedents := e.precedents + [p])],
          cache.fingerprints[p.fp := if s in listed then listed else listed + [s]])
  }

  lemma AgreeStep(cache: Cache, s: Signature, p: Precedent)
    requires Agree(cache)
    ensures Agree(WithPrecedent(cache, s, p))
  {
    var after := WithPrecedent(cache, s, p);
    forall fp, t ensures fp in after.fingerprints && t in after.fingerprints[fp] <==> Listed(after.components, fp, t) {
      assert Listed(after.components, fp, t) <==> Listed(cache.components, fp, t) || (fp == p.fp && t == s) by {
        if t == s {
          var e := if s in cache.components then cache.components[s].precedents else [];
          assert after.components[s].precedents == e + [p];
          assert forall q :: q in e + [p] <==> q in e || q == p;
        }
      }
    }
  }

  lemma FilesStep(cache: Cache, signature: Component -> Signature, ps: seq<Precedent>, p: Precedent)
    requires Files(cache, signature, ps)
    ensures Files(WithPrecedent(cache, signature(p.component), p), signature, ps + [p])
  {
    var s := signature(p.component);
    assert (ps + [p])[..|ps|] == ps;
    assert forall t :: Of(signature, ps + [p], t) == Of(signature, ps, t) + if t == s then [p] else [];
  }

  /** The state after the first `n` cases. */
  ghost predicate BuiltUpTo(sound: Event -> bool, signature: Component -> Signature, cases: seq<Case>, n: nat, cache: Cache, counters: Counters)
    requires n <= |cases|
  {
    && Agree(cache) && Files(cache, signature, Precedents(sound, cases[..n]))
    && counters == CountersOf(sound, cases[..n])
  }

  lemma BuildStep(sound: Event -> bool, signature: Component -> Signature, cases: seq<Case>, i: nat, cache: Cache, counters: Counters)
    requires i < |cases| && BuiltUpTo(sound, signature, cases, i, cache, counters)
    ensures var o, c := Judge(sound, cases[i]), cases[i];
      var unsound := if o.Skipped? then 0 else PassedOver(sound, c.events);
      BuiltUpTo(sound, signature, cases, i + 1,
                if o.Admitted? then WithPrecedent(cache, signature(o.precedent.component), o.precedent) else cache,
                Counted(counters, o, unsound))
  {
    hide Agree, Files, WithPrecedent, CountersOf, Judge, Precedents;
    CountersStep(sound, cases, i);
    var o := Judge(sound, cases[i]);
    if o.Admitted? {
      AgreeStep(cache, signature(o.precedent.component), o.precedent);
      FilesStep(cache, signature, Precedents(sound, cases[..i]), o.precedent);
    } else {
      assert Precedents(sound, cases[..i]) + [] == Precedents(sound, cases[..i]);
    }
  }

  lemma BuildStart(sound: Event -> bool, signature: Component -> Signature, cases: seq<Case>)
    ensures BuiltUpTo(sound, signature, cases, 0, Cache(map[], map[]), Counters(0, 0, 0, 0, 0))
  {
  }

  method BuildCache(sound: Event -> bool, signature: Component -> Signature, cases: seq<Case>)
    returns (cache: Cache, counters: Counters)
    ensures Agree(cache) && Files(cache, signature, Precedents(sound, cases))
    ensures counters == CountersOf(sound, cases)
  {
    hide Agree, Files, CountersOf, Judge, Precedents, WithPrecedent;
    cache, counters := Cache(map[], map[]), Counters(0, 0, 0, 0, 0);
    BuildStart(sound, signature, cases);
    for i := 0 to |cases|
      invariant BuiltUpTo(sound, signature, cases, i, cache, counters)
    {
      BuildStep(sound, signature, cases, i, cache, counters);
      var outcome, unsound := JudgeCase(sound, cases[i]);
      counters := Counted(counters, outcome, unsound);
      if outcome.Admitted? {
        var p := outcome.precedent;
        cache := WithPrecedent(cache, signature(p.component), p);
      }
    }
    assert cases[..|cases|] == cases;
  }

  function CountersOf(sound: Event -> bool, cases: seq<Case>): Counters {
    Counters(Tally(sound, cases, HumanBin), Tally(sound, cases, MachineBin), Unsound(sound, cases),
             Tally(sound, cases, ContestedBin), Tally(sound, cases, StaleBin))
  }

  function Counted(n: Counters, o: Outcome, unsound: nat): Counters {
    var m := n.(unsound := n.unsound + unsound);
    match o
    case Skipped => m
    case NoEvent => m
    case Stale => m.(stale := m.stale + 1)
    case Conflict => m.(contested := m.contested + 1)
    case Admitted(p) => if p.strength.HumanCountersigned? then m.(human := m.human + 1) else m.(machine := m.machine + 1)
  }

  lemma CountersStep(sound: Event -> bool, cases: seq<Case>, i: nat)
    requires i < |cases|
    ensures var o, c := Judge(sound, cases[i]), cases[i];
      && CountersOf(sound, cases[..i + 1]) == Counted(CountersOf(sound, cases[..i]), o, if o.Skipped? then 0 else PassedOver(sound, c.events))
      && Precedents(sound, cases[..i + 1]) == Precedents(sound, cases[..i]) + if o.Admitted? then [o.precedent] else []
  {
    assert cases[..i + 1][..i] == cases[..i];
  }

  method JudgeCase(sound: Event -> bool, c: Case) returns (o: Outcome, unsound: nat)
    ensures o == Judge(sound, c) && unsound == if o.Skipped? then 0 else PassedOver(sound, c.events)
  {
    if !c.Adjudicated() || c.finding.None? {
      return Skipped, 0;
    }
    var contested, f := c.Contested(), c.finding.value;
    var choice;
    choice, unsound := SelectEvent(sound, c.events);
    if choice.None? {
      return NoEvent, unsound;
    }
    var e := choice.value.event;
    if choice.value.strength.HumanCountersigned? {
      if c.validity != e.validity {
        return Stale, unsound;
      }
    } else if contested {
      return Conflict, unsound;
    } else if c.validity == "confirmed" || c.validity == "corrected" || c.overridden {
      return Stale, unsound;
    }
    o := Admitted(Precedent(f.Fp(), f.component, e, choice.value.strength));
  }

  // --------------------------------------------------------------------------
  // Conservation
  // --------------------------------------------------------------------------

  /** The two strength counters add up to the number of precedents. */
  lemma {:induction false} CountersAddUp(sound: Event -> bool, cases: seq<Case>)
    ensures var n := CountersOf(sound, cases);
      && n.human + n.machine == |Precedents(sound, cases)|
      && n.human + n.machine + n.contested + n.stale + Tally(sound, cases, Uncounted) == |cases|
  {
    if cases != [] {
      CountersAddUp(sound, cases[..|cases| - 1]);
    }
  }

  /** Every precedent is filed under exactly its own signature, as often as it was admitted. */
  lemma {:induction false} OfExactly(signature: Component -> Signature, ps: seq<Precedent>, s: Signature, p: Precedent)
    ensures multiset(Of(signature, ps, s))[p] == if signature(p.component) == s then multiset(ps)[p] else 0
  {
    if ps != [] {
      var k := |ps| - 1;
      OfExactly(signature, ps[..k], s, p);
      assert ps == ps[..k] + [ps[k]];
    }
  }

  // --------------------------------------------------------------------------
  // Lookups
  // --------------------------------------------------------------------------

  datatype How = ByFingerprint | BySignature | ByComponent
  datatype Hit = Hit(signature: Signature, how: How)

  predicate SharesPath(f: Reported, c: Component) {
    exists p :: p in f.component.paths && p in c.paths
  }

  predicate SameClass(f: Reported, c: Component) {
    (f.classCwe.Some? && f.classCwe.value == c.cwe) || (f.component.category != "" && f.component.category == c.category)
  }

  predicate HasStamp(cache: Cache, f: Reported) {
    f.stamp.Some? && f.stamp.value in cache.fingerprints
  }

  /** The hits of one finding whose component is cached. */
  method Match(cache: Cache, signature: Component -> Signature, f: Reported) returns (hits: set<Hit>)
    ensures forall h :: h in hits <==> IsHit(cache, signature, f, h)
  {
    hits := {};
    if HasStamp(cache, f) {
      var listed := cache.fingerprints[f.stamp.value];
      for i := 0 to |listed|
        invariant forall h :: h in hits <==> h.how.ByFingerprint? && h.signature in listed[..i] && h.signature in cache.components
      {
        assert listed[..i + 1] == listed[..i] + [listed[i]];
        if listed[i] in cache.components {
          hits := hits + {Hit(listed[i], ByFingerprint)};
        }
      }
      assert listed[..|listed|] == listed;
    } else if f.component.paths != [] {
      var own, todo := signature(f.component), cache.components.Keys;
      while todo != {}
        invariant todo <= cache.components.Keys
        invariant forall h :: h in hits <==> h.signature !in todo && ScanHit(cache, signature, f, h)
      {
        var s :| s in todo;
        if s == own {
          hits := hits + {Hit(s, BySignature)};
        } else if SharesPath(f, cache.components[s].component) && SameClass(f, cache.components[s].component) {
          hits := hits + {Hit(s, ByComponent)};
        }
        todo := todo - {s};
      }
    }
  }

  predicate ScanHit(cache: Cache, signature: Component -> Signature, f: Reported, h: Hit) {
    && h.signature in cache.components && f.component.paths != []
    && var c := cache.components[h.signature].component;
       if h.signature == signature(f.component) then h.how.BySignature? else h.how.ByComponent? && SharesPath(f, c) && SameClass(f, c)
  }

  /** A lookup by fingerprint finds exactly the components that a scan for the fingerprint would find. */
  lemma LookupIsScan(cache: Cache, f: Reported)
    requires Agree(cache) && f.stamp.Some?
    ensures HasStamp(cache, f) <==> exists s :: Listed(cache.components, f.stamp.value, s)
    ensures HasStamp(cache, f) ==>
      forall s :: s in cache.fingerprints[f.stamp.value] && s in cache.components <==> Listed(cache.components, f.stamp.value, s)
  {
    if HasStamp(cache, f) {
      assert Listed(cache.components, f.stamp.value, cache.fingerprints[f.stamp.value][0]);
    }
  }

  /** Every component in the cache is filed under its own signature. */
  lemma {:induction false} OneComponent(signature: Component -> Signature, ps: seq<Precedent>, s: Signature)
    ensures forall p | p in Of(signature, ps, s) :: p in ps && signature(p.component) == s
  {
    if ps != [] {
      OneComponent(signature, ps[..|ps| - 1], s);
    }
  }

  lemma FiledComponent(cache: Cache, signature: Component -> Signature, ps: seq<Precedent>, s: Signature)
    requires Files(cache, signature, ps) && s in cache.components
    ensures signature(cache.components[s].component) == s
    ensures exists p :: p in ps && p.component == cache.components[s].component
  {
    OneComponent(signature, ps, s);
    assert Of(signature, ps, s)[0] in Of(signature, ps, s);
  }

  /** `h` is a hit of `f`: by its cached stamp, or else by the scan. */
  predicate IsHit(cache: Cache, signature: Component -> Signature, f: Reported, h: Hit) {
    if HasStamp(cache, f) then h.how.ByFingerprint? && h.signature in cache.fingerprints[f.stamp.value] && h.signature in cache.components
    else ScanHit(cache, signature, f, h)
  }

  // --------------------------------------------------------------------------
  // The signature hashes one line of text
  // --------------------------------------------------------------------------

  function Join(paths: seq<string>): string {
    if paths == [] then "" else if |paths| == 1 then paths[0] else paths[0] + ";" + Join(paths[1..])
  }

  function Payload(c: Component): string {
    Join(c.paths) + "|" + c.cwe + "|" + c.category + "|" + c.sink
  }

  function Hashed(digest: string -> Signature): Component -> Signature {
    c => digest(Payload(c))
  }

  ghost predicate Injective(digest: string -> Signature) {
    forall x, y :: digest(x) == digest(y) ==> x == y
  }

  /** The texts that normalization can yield for a path, a CWE, a category and a sink. */
  datatype Forms = Forms(path: string -> bool, cwe: string -> bool, category: string -> bool, sink: string -> bool) {

    /** No path is empty, two joined paths look like a path, and a category may be absent or a letter. */
    ghost predicate Proper() {
      && !path("") && (forall a, b :: path(a) && path(b) ==> path(a + ";" + b))
      && category("") && category("x")
    }

    ghost predicate Made(c: Component) {
      Ascending(c.paths) && (forall p | p in c.paths :: path(p)) && cwe(c.cwe) && category(c.category) && sink(c.sink)
    }
  }

  ghost predicate Ascending(paths: seq<string>) {
    forall i, j | 0 <= i < j < |paths| :: Less(paths[i], paths[j])
  }

  /** The bars at `i`, `j` and `k` cut `text` into paths, CWE, category and sink. */
  predicate Cuts(forms: Forms, text: string, i: int, j: int, k: int) {
    && 0 <= i < j < k < |text| && text[i] == '|' && text[j] == '|' && text[k] == '|'
    && forms.cwe(text[i + 1..j]) && forms.category(text[j + 1..k]) && forms.sink(text[k + 1..])
  }

  /** `text` is two paths joined at `at`. */
  predicate Splits(forms: Forms, text: string, at: int) {
    0 <= at < |text| && text[at] == ';' && forms.path(text[..at]) && forms.path(text[at + 1..]) && Less(text[..at], text[at + 1..])
  }

  /** The payload can be cut so that its path part is a path that the component lacks, or two joined ones. */
  ghost predicate Misread(forms: Forms, c: Component) {
    exists i, j, k :: Cuts(forms, Payload(c), i, j, k) && forms.path(Payload(c)[..i]) && OtherPaths(forms, c, Payload(c)[..i])
  }

  ghost predicate OtherPaths(forms: Forms, c: Component, text: string) {
    text !in c.paths || exists at :: Splits(forms, text, at)
  }

  /** The payload can be cut so that its class part is of another class. */
  ghost predicate Misclassed(forms: Forms, c: Component) {
    exists i, j, k :: Cuts(forms, Payload(c), i, j, k) && forms.path(Payload(c)[..i])
      && OtherClass(c, Payload(c)[i + 1..j], Payload(c)[j + 1..k], Payload(c)[k + 1..])
  }

  predicate OtherClass(c: Component, cwe: string, category: string, sink: string) {
    (cwe, category, sink) != (c.cwe, c.category, c.sink) && (category == "" || category != c.category)
  }

  /** The class of the finding is the component's, in full or as the scan compares it. */
  predicate ClassAgrees(f: Reported, c: Component) {
    (f.component.cwe, f.component.category, f.component.sink) == (c.cwe, c.category, c.sink) || SameClass(f, c)
  }

  lemma Parts(c: Component, i: nat, j: nat, k: nat)
    requires i == |Join(c.paths)| && j == i + 1 + |c.cwe| && k == j + 1 + |c.category|
    ensures var text := Payload(c); k < |text| && text[i] == '|' && text[j] == '|' && text[k] == '|'
    ensures Payload(c)[..i] == Join(c.paths) && Payload(c)[i + 1..j] == c.cwe
    ensures Payload(c)[j + 1..k] == c.category && Payload(c)[k + 1..] == c.sink
  {
  }

  lemma OwnCuts(forms: Forms, c: Component) returns (i: nat, j: nat, k: nat)
    requires forms.Made(c)
    ensures Cuts(forms, Payload(c), i, j, k) && Payload(c)[..i] == Join(c.paths)
    ensures Payload(c)[i + 1..j] == c.cwe && Payload(c)[j + 1..k] == c.category && Payload(c)[k + 1..] == c.sink
  {
    hide Payload, Join;
    i := |Join(c.paths)|;
    j := i + 1 + |c.cwe|;
    k := j + 1 + |c.category|;
    Parts(c, i, j, k);
  }

  lemma CutPayload(forms: Forms, text: string, i: int, j: int, k: int, paths: seq<string>)
    requires Cuts(forms, text, i, j, k) && Join(paths) == text[..i]
    ensures Payload(Component(paths, text[i + 1..j], text[j + 1..k], text[k + 1..])) == text
  {
    assert text == text[..i] + "|" + text[i + 1..j] + "|" + text[j + 1..k] + "|" + text[k + 1..];
  }

  lemma {:induction false} JoinIsPath(forms: Forms, paths: seq<string>)
    requires forms.Proper() && paths != [] && forall p | p in paths :: forms.path(p)
    ensures forms.path(Join(paths))
    ensures |paths| > 1 ==> forall p | p in paths :: |p| < |Join(paths)|
  {
    if |paths| > 1 {
      JoinIsPath(forms, paths[1..]);
      assert forall p | p in paths :: p == paths[0] || p in paths[1..];
      assert paths[1..] == [paths[1]] + paths[2..];
      if |paths| == 2 {
        assert Join(paths[1..]) == paths[1];
      }
    }
  }

  /** Two or more joined paths split at the first joint. */
  lemma {:induction false} JoinSplits(forms: Forms, paths: seq<string>)
    requires forms.Proper() && |paths| > 1 && Ascending(paths) && forall p | p in paths :: forms.path(p)
    ensures Splits(forms, Join(paths), |paths[0]|)
  {
    var rest := Join(paths[1..]);
    JoinIsPath(forms, paths[1..]);
    assert Join(paths)[..|paths[0]|] == paths[0] && Join(paths)[|paths[0]| + 1..] == rest;
    if |paths| > 2 {
      LessExtended(paths[0], paths[1], ";" + Join(paths[2..]));
      assert paths[1..][1..] == paths[2..];
      assert rest == paths[1] + (";" + Join(paths[2..]));
    }
  }

  /** A component with the same payload and no path in common exists exactly when the payload can be misread. */
  lemma MisreadExactly(forms: Forms, c: Component)
    requires forms.Proper() && forms.Made(c)
    ensures Misread(forms, c) <==> exists d :: forms.Made(d) && Payload(d) == Payload(c) && d.paths != [] && Disjoint(d.paths, c.paths)
  {
    if Misread(forms, c) {
      var d := Twin(forms, c);
    }
    if d :| forms.Made(d) && Payload(d) == Payload(c) && d.paths != [] && Disjoint(d.paths, c.paths) {
      TwinMisreads(forms, c, d);
    }
  }

  predicate Disjoint(x: seq<string>, y: seq<string>) {
    forall p | p in x :: p !in y
  }

  /** The component that a cut reads, with these paths. */
  lemma ReadAs(forms: Forms, c: Component, i: int, j: int, k: int, paths: seq<string>) returns (d: Component)
    requires Cuts(forms, Payload(c), i, j, k) && Join(paths) == Payload(c)[..i]
    requires Ascending(paths) && forall p | p in paths :: forms.path(p)
    ensures forms.Made(d) && Payload(d) == Payload(c) && d.paths == paths
    ensures d.cwe == Payload(c)[i + 1..j] && d.category == Payload(c)[j + 1..k] && d.sink == Payload(c)[k + 1..]
  {
    var text := Payload(c);
    CutPayload(forms, text, i, j, k, paths);
    d := Component(paths, text[i + 1..j], text[j + 1..k], text[k + 1..]);
  }

  lemma Twin(forms: Forms, c: Component) returns (d: Component)
    requires forms.Proper() && forms.Made(c) && Misread(forms, c)
    ensures forms.Made(d) && Payload(d) == Payload(c) && d.paths != [] && Disjoint(d.paths, c.paths)
  {
    hide Payload, Join, Forms.Proper, Cuts, Splits, Less, Forms.Made, Misread, Ascending;
    var i, j, k := MisreadCut(forms, c);
    if Payload(c)[..i] !in c.paths {
      d := ReadAs(forms, c, i, j, k, [Payload(c)[..i]]);
    } else if |c.paths| > 1 {
      d := JoinedTwin(forms, c);
    } else {
      var at :| Splits(forms, Payload(c)[..i], at);
      var two := TwoPaths(forms, Payload(c)[..i], at);
      d := ReadAs(forms, c, i, j, k, two);
    }
  }

  lemma MisreadCut(forms: Forms, c: Component) returns (i: int, j: int, k: int)
    requires Misread(forms, c)
    ensures Cuts(forms, Payload(c), i, j, k) && forms.path(Payload(c)[..i]) && OtherPaths(forms, c, Payload(c)[..i])
    ensures 0 <= i < j < k < |Payload(c)| && OnePath(forms, Payload(c)[..i])
  {
    hide Payload, OtherPaths;
    i, j, k :| Cuts(forms, Payload(c), i, j, k) && forms.path(Payload(c)[..i]) && OtherPaths(forms, c, Payload(c)[..i]);
  }

  /** The text is a path, alone. */
  ghost predicate OnePath(forms: Forms, text: string) {
    Join([text]) == text && Ascending([text]) && forall p | p in [text] :: forms.path(p)
  }

  /** Several paths joined to one. */
  lemma JoinedTwin(forms: Forms, c: Component) returns (d: Component)
    requires forms.Proper() && forms.Made(c) && |c.paths| > 1
    ensures forms.Made(d) && Payload(d) == Payload(c) && d.paths == [Join(c.paths)] && Disjoint(d.paths, c.paths)
  {
    var a, b, e := OwnCuts(forms, c);
    JoinIsPath(forms, c.paths);
    hide Payload, Join;
    JoinOne(Join(c.paths));
    d := ReadAs(forms, c, a, b, e, [Join(c.paths)]);
  }

  lemma JoinOne(path: string)
    ensures Join([path]) == path
  {
  }

  lemma TwoPaths(forms: Forms, text: string, at: int) returns (paths: seq<string>)
    requires Splits(forms, text, at)
    ensures Join(paths) == text && Ascending(paths) && paths != [] && forall p | p in paths :: forms.path(p) && |p| < |text|
  {
    paths := [text[..at], text[at + 1..]];
    assert paths[1..] == [paths[1]];
    assert text == text[..at] + ";" + text[at + 1..];
  }

  lemma TwinMisreads(forms: Forms, c: Component, d: Component)
    requires forms.Proper() && forms.Made(c) && forms.Made(d) && Payload(d) == Payload(c) && d.paths != [] && Disjoint(d.paths, c.paths)
    ensures Misread(forms, c)
  {
    var i, j, k := OwnCuts(forms, d);
    JoinIsPath(forms, d.paths);
    if |d.paths| == 1 {
      assert d.paths[0] in d.paths;
    } else {
      JoinSplits(forms, d.paths);
    }
    assert OtherPaths(forms, c, Payload(c)[..i]);
  }

  // --------------------------------------------------------------------------
  // When a match means a shared path and an agreeing class
  // --------------------------------------------------------------------------

  /** Every hit of a finding with this stamp has the property. */
  ghost predicate AllHits(cache: Cache, signature: Component -> Signature, forms: Forms, fp: string, agrees: (Reported, Component) -> bool) {
    forall f: Reported, h: Hit | f.stamp == Some(fp) && forms.Made(f.component) && IsHit(cache, signature, f, h) ::
      agrees(f, cache.components[h.signature].component)
  }

  /** The cache was built with this hash, from findings that went through normalization. */
  ghost predicate BuiltFrom(cache: Cache, digest: string -> Signature, forms: Forms, ps: seq<Precedent>) {
    && Injective(digest) && forms.Proper() && Agree(cache) && Files(cache, Hashed(digest), ps)
    && forall p | p in ps :: forms.Made(p.component)
  }

  ghost predicate SomeMisread(cache: Cache, forms: Forms) {
    exists s :: s in cache.components && Misread(forms, cache.components[s].component)
  }

  ghost predicate SomeMisclassed(cache: Cache, forms: Forms) {
    exists s :: s in cache.components && Misclassed(forms, cache.components[s].component)
  }

  /**
   * All hits of all findings with a stamp share a path with the finding exactly when the stamp is not
   * cached and no cached payload can be misread; likewise for the class.
   */
  lemma StampDecidesRule(cache: Cache, digest: string -> Signature, forms: Forms, ps: seq<Precedent>, fp: string)
    requires BuiltFrom(cache, digest, forms, ps)
    ensures AllHits(cache, Hashed(digest), forms, fp, SharesPath) <==> fp !in cache.fingerprints && !SomeMisread(cache, forms)
    ensures AllHits(cache, Hashed(digest), forms, fp, ClassAgrees) <==> fp !in cache.fingerprints && !SomeMisclassed(cache, forms)
  {
    hide Misread, Misclassed, IsHit, Payload, Agree, Files, SharesPath, ClassAgrees;
    if fp in cache.fingerprints {
      var f, s := StampElsewhere(cache, digest, forms, ps, fp);
    } else {
      UncachedHits(cache, digest, forms, ps, fp);
      if s :| s in cache.components && Misread(forms, cache.components[s].component) {
        var f := MisreadFinding(cache, digest, forms, ps, fp, s);
      }
      if s :| s in cache.components && Misclassed(forms, cache.components[s].component) {
        var f := MisclassedFinding(cache, digest, forms, ps, fp, s);
      }
    }
  }

  /** A cached stamp hits a component whatever the finding looks like. */
  lemma StampElsewhere(cache: Cache, digest: string -> Signature, forms: Forms, ps: seq<Precedent>, fp: string)
    returns (f: Reported, s: Signature)
    requires BuiltFrom(cache, digest, forms, ps) && fp in cache.fingerprints
    ensures s in cache.components && f.stamp == Some(fp) && forms.Made(f.component)
    ensures IsHit(cache, Hashed(digest), f, Hit(s, ByFingerprint)) && (Plain(cache.components[s].component) ==> Plain(f.component))
    ensures !SharesPath(f, cache.components[s].component) && !ClassAgrees(f, cache.components[s].component)
  {
    s := cache.fingerprints[fp][0];
    assert Listed(cache.components, fp, s);
    FiledComponent(cache, Hashed(digest), ps, s);
    var c := cache.components[s].component;
    f := Reported(c.(paths := [], category := if c.category == "" then "x" else ""), Some(fp), "", None);
  }

  lemma UncachedHits(cache: Cache, digest: string -> Signature, forms: Forms, ps: seq<Precedent>, fp: string)
    requires BuiltFrom(cache, digest, forms, ps) && fp !in cache.fingerprints
    ensures AllHits(cache, Hashed(digest), forms, fp, SharesPath) || SomeMisread(cache, forms)
    ensures AllHits(cache, Hashed(digest), forms, fp, ClassAgrees) || SomeMisclassed(cache, forms)
  {
    hide Misread, Misclassed, Payload, SharesPath, ClassAgrees;
    forall f: Reported, h: Hit | f.stamp == Some(fp) && forms.Made(f.component) && IsHit(cache, Hashed(digest), f, h)
      ensures SharesPath(f, cache.components[h.signature].component) || SomeMisread(cache, forms)
      ensures ClassAgrees(f, cache.components[h.signature].component) || SomeMisclassed(cache, forms)
    {
      UncachedHit(cache, digest, forms, ps, f, h);
    }
  }

  lemma UncachedHit(cache: Cache, digest: string -> Signature, forms: Forms, ps: seq<Precedent>, f: Reported, h: Hit)
    requires BuiltFrom(cache, digest, forms, ps) && !HasStamp(cache, f) && forms.Made(f.component) && IsHit(cache, Hashed(digest), f, h)
    ensures SharesPath(f, cache.components[h.signature].component) || SomeMisread(cache, forms)
    ensures ClassAgrees(f, cache.components[h.signature].component) || SomeMisclassed(cache, forms)
  {
    var c := cache.components[h.signature].component;
    FiledComponent(cache, Hashed(digest), ps, h.signature);
    if h.how.BySignature? {
      assert Payload(f.component) == Payload(c);
      hide Payload;
      if !SharesPath(f, c) {
        TwinMisreads(forms, c, f.component);
      }
      if !ClassAgrees(f, c) {
        var i, j, k := OwnCuts(forms, f.component);
        JoinIsPath(forms, f.component.paths);
        assert Misclassed(forms, c);
      }
    }
  }

  lemma MisreadFinding(cache: Cache, digest: string -> Signature, forms: Forms, ps: seq<Precedent>, fp: string, s: Signature)
    returns (f: Reported)
    requires BuiltFrom(cache, digest, forms, ps) && fp !in cache.fingerprints
    requires s in cache.components && Misread(forms, cache.components[s].component)
    ensures f.stamp == Some(fp) && forms.Made(f.component) && IsHit(cache, Hashed(digest), f, Hit(s, BySignature))
    ensures !SharesPath(f, cache.components[s].component)
  {
    hide Misread, Payload;
    FiledComponent(cache, Hashed(digest), ps, s);
    var d := Twin(forms, cache.components[s].component);
    f := Reported(d, Some(fp), "", None);
  }

  lemma MisclassedFinding(cache: Cache, digest: string -> Signature, forms: Forms, ps: seq<Precedent>, fp: string, s: Signature)
    returns (f: Reported)
    requires BuiltFrom(cache, digest, forms, ps) && fp !in cache.fingerprints
    requires s in cache.components && Misclassed(forms, cache.components[s].component)
    ensures f.stamp == Some(fp) && forms.Made(f.component) && IsHit(cache, Hashed(digest), f, Hit(s, BySignature))
    ensures !ClassAgrees(f, cache.components[s].component)
  {
    hide Misclassed, Payload;
    FiledComponent(cache, Hashed(digest), ps, s);
    var d := OtherClassed(forms, cache.components[s].component);
    f := Reported(d, Some(fp), "", None);
  }

  lemma OtherClassed(forms: Forms, c: Component) returns (d: Component)
    requires forms.Proper() && forms.Made(c) && Misclassed(forms, c)
    ensures forms.Made(d) && Payload(d) == Payload(c) && d.paths != [] && OtherClass(c, d.cwe, d.category, d.sink)
  {
    hide Payload, Join;
    var i, j, k :| Cuts(forms, Payload(c), i, j, k) && forms.path(Payload(c)[..i])
      && OtherClass(c, Payload(c)[i + 1..j], Payload(c)[j + 1..k], Payload(c)[k + 1..]);
    JoinOne(Payload(c)[..i]);
    d := ReadAs(forms, c, i, j, k, [Payload(c)[..i]]);
  }

  // --------------------------------------------------------------------------
  // Components without separators in their texts
  // --------------------------------------------------------------------------

  ghost predicate Unbarred(c: Component) {
    (forall p | p in c.paths :: '|' !in p) && '|' !in c.cwe && '|' !in c.category && '|' !in c.sink
  }

  ghost predicate Plain(c: Component) {
    Unbarred(c) && forall p | p in c.paths :: ';' !in p
  }

  lemma {:induction false} NoBarJoined(paths: seq<string>)
    requires forall p | p in paths :: '|' !in p
    ensures '|' !in Join(paths)
  {
    if |paths| > 1 {
      NoBarJoined(paths[1..]);
    }
  }

  lemma FirstBar(a: string, rest: string, x: nat)
    requires '|' !in a && x < |a + "|" + rest| && (a + "|" + rest)[x] == '|'
    ensures x == |a| || (x > |a| && rest[x - |a| - 1] == '|')
  {
  }

  /** The only bars are those between the texts. */
  lemma Bars(p: string, q: string, r: string, s: string, x: nat)
    requires '|' !in p && '|' !in q && '|' !in r && '|' !in s
    requires var text := p + "|" + (q + "|" + (r + "|" + s)); x < |text| && text[x] == '|'
    ensures x == |p| || x == |p| + |q| + 1 || x == |p| + |q| + |r| + 2
  {
    FirstBar(p, q + "|" + (r + "|" + s), x);
    if x > |p| {
      FirstBar(q, r + "|" + s, x - |p| - 1);
      if x > |p| + |q| + 1 {
        FirstBar(r, s, x - |p| - |q| - 2);
      }
    }
  }

  /** Without bars in its texts, the payload has one cut. */
  lemma OnlyOwnCuts(forms: Forms, c: Component, i: int, j: int, k: int)
    requires Unbarred(c) && Cuts(forms, Payload(c), i, j, k)
    ensures Payload(c)[..i] == Join(c.paths) && Payload(c)[i + 1..j] == c.cwe
    ensures Payload(c)[j + 1..k] == c.category && Payload(c)[k + 1..] == c.sink
  {
    hide Join, Payload;
    var a := |Join(c.paths)|;
    var b := a + 1 + |c.cwe|;
    Parts(c, a, b, b + 1 + |c.category|);
    BarOfPayload(c, i);
    BarOfPayload(c, j);
    BarOfPayload(c, k);
  }

  lemma BarOfPayload(c: Component, x: nat)
    requires Unbarred(c) && x < |Payload(c)| && Payload(c)[x] == '|'
    ensures var i, j := |Join(c.paths)|, |Join(c.paths)| + 1 + |c.cwe|; x == i || x == j || x == j + 1 + |c.category|
  {
    NoBarJoined(c.paths);
    hide Join;
    assert Payload(c) == Join(c.paths) + "|" + (c.cwe + "|" + (c.category + "|" + c.sink));
    Bars(Join(c.paths), c.cwe, c.category, c.sink, x);
  }

  /** Then it can be misread exactly when there are several paths, or one that is two joined ones; the class cannot. */
  lemma UnbarredMisreadExactly(forms: Forms, c: Component)
    requires forms.Proper() && forms.Made(c) && Unbarred(c)
    ensures Misread(forms, c) <==> |c.paths| > 1 || exists p, at :: p in c.paths && Splits(forms, p, at)
    ensures !Misclassed(forms, c)
  {
    var a, b, e := OwnCuts(forms, c);
    forall i, j, k | Cuts(forms, Payload(c), i, j, k)
      ensures Payload(c)[..i] == Join(c.paths) && !OtherClass(c, Payload(c)[i + 1..j], Payload(c)[j + 1..k], Payload(c)[k + 1..])
    {
      OnlyOwnCuts(forms, c, i, j, k);
    }
    assert Misread(forms, c) <==> forms.path(Join(c.paths)) && OtherPaths(forms, c, Join(c.paths));
    if |c.paths| > 1 {
      JoinIsPath(forms, c.paths);
    } else if |c.paths| == 1 {
      assert c.paths[0] in c.paths;
    }
  }

  /** Without semicolons in the paths, the first one in the joined text ends the first path. */
  lemma {:induction false} FirstJoint(paths: seq<string>)
    requires paths != [] && forall p | p in paths :: ';' !in p
    ensures forall i | 0 <= i < |paths[0]| :: i < |Join(paths)| && Join(paths)[i] == paths[0][i]
    ensures if |paths| == 1 then ';' !in Join(paths) else |Join(paths)| > |paths[0]| && Join(paths)[|paths[0]|] == ';'
    ensures |paths| > 1 ==> Join(paths)[..|paths[0]|] == paths[0] && Join(paths)[|paths[0]| + 1..] == Join(paths[1..])
  {
    assert paths[0] in paths;
  }

  /** Nonempty paths without semicolons are read back from the joined text. */
  lemma {:induction false} JoinReadBack(x: seq<string>, y: seq<string>)
    requires Join(x) == Join(y)
    requires (forall p | p in x :: p != "" && ';' !in p) && forall p | p in y :: p != "" && ';' !in p
    ensures x == y
  {
    if x != [] && y != [] {
      FirstJoint(x);
      FirstJoint(y);
      assert x[0] in x && y[0] in y;
      if |x| > 1 && |y| > 1 {
        NotBeforeJoint(Join(x), x[0], y[0]);
        NotBeforeJoint(Join(x), y[0], x[0]);
        assert (forall p | p in x[1..] :: p in x) && forall p | p in y[1..] :: p in y;
        JoinReadBack(x[1..], y[1..]);
        assert x == [x[0]] + x[1..] && y == [y[0]] + y[1..];
      }
    } else {
      JoinedNothing(x);
      JoinedNothing(y);
    }
  }

  lemma JoinedNothing(paths: seq<string>)
    requires forall p | p in paths :: p != ""
    ensures Join(paths) == "" <==> paths == []
  {
    if paths != [] {
      assert paths[0] in paths;
    }
  }

  lemma NotBeforeJoint(text: string, a: string, b: string)
    requires |a| < |text| && |b| <= |text| && text[|a|] == ';' && ';' !in b
    requires forall i | 0 <= i < |b| :: text[i] == b[i]
    ensures |a| >= |b|
  {
    assert forall i | 0 <= i < |b| :: text[i] != ';';
  }

  /** Components without separators in their texts are read back from the payload. */
  lemma PayloadReadBack(forms: Forms, c: Component, d: Component)
    requires forms.Proper() && forms.Made(c) && forms.Made(d) && Plain(c) && Plain(d) && Payload(c) == Payload(d)
    ensures c == d
  {
    var i, j, k := OwnCuts(forms, d);
    OnlyOwnCuts(forms, c, i, j, k);
    JoinReadBack(c.paths, d.paths);
  }

  /** Among components without separators, the stamp alone decides. */
  lemma PlainStampDecidesRule(cache: Cache, digest: string -> Signature, forms: Forms, ps: seq<Precedent>, fp: string)
    requires BuiltFrom(cache, digest, forms, ps) && forall s | s in cache.components :: Plain(cache.components[s].component)
    ensures AllPlainHits(cache, Hashed(digest), forms, fp) <==> fp !in cache.fingerprints
  {
    hide Payload, Misread, Misclassed, Agree, Files;
    if fp in cache.fingerprints {
      var f, s := StampElsewhere(cache, digest, forms, ps, fp);
    } else {
      forall f: Reported, h: Hit | f.stamp == Some(fp) && forms.Made(f.component) && Plain(f.component) && IsHit(cache, Hashed(digest), f, h)
        ensures SharesPath(f, cache.components[h.signature].component) && ClassAgrees(f, cache.components[h.signature].component)
      {
        FiledComponent(cache, Hashed(digest), ps, h.signature);
        if h.how.BySignature? {
          PayloadReadBack(forms, f.component, cache.components[h.signature].component);
          assert f.component.paths[0] in f.component.paths;
        }
      }
    }
  }

  /** Every hit of a finding with this stamp and without separators in its texts shares a path and agrees in class. */
  ghost predicate AllPlainHits(cache: Cache, signature: Component -> Signature, forms: Forms, fp: string) {
    forall f: Reported, h: Hit | f.stamp == Some(fp) && forms.Made(f.component) && Plain(f.component) && IsHit(cache, signature, f, h) ::
      SharesPath(f, cache.components[h.signature].component) && ClassAgrees(f, cache.components[h.signature].component)
  }

  // --------------------------------------------------------------------------
  // Witnesses
  // --------------------------------------------------------------------------

  /** One settled refutation, and a finding elsewhere that carries its stamp: the match that the cache reports. */
  method StampNeedsNoPath(sound: Event -> bool, signature: Component -> Signature) returns (cache: Cache, hits: set<Hit>)
    ensures hits == {Hit(signature(SETTLED), ByFingerprint)}
    ensures signature(SETTLED) in cache.components && cache.components[signature(SETTLED)].component == SETTLED
    ensures !SharesPath(ELSEWHERE, SETTLED) && !ClassAgrees(ELSEWHERE, SETTLED)
  {
    hide IsHit;
    cache := CacheOf(sound, signature, SETTLED);
    hits := Match(cache, signature, ELSEWHERE);
    OneHit(cache, signature, signature(SETTLED), hits);
  }

  /** A settled refutation in two files, and an unstamped finding in one file whose name joins theirs: the match that the cache reports. */
  method JoinedPathsCollide(sound: Event -> bool, digest: string -> Signature) returns (cache: Cache, hits: set<Hit>)
    ensures var s := Hashed(digest)(TWO_FILES);
      hits == {Hit(s, BySignature)} && s in cache.components && cache.components[s].component == TWO_FILES
    ensures !SharesPath(ONE_FILE, TWO_FILES)
  {
    cache := CacheOf(sound, Hashed(digest), TWO_FILES);
    assert TWO_FILES.paths[1..] == ["b"];
    assert Payload(TWO_FILES) == Payload(ONE_FILE.component);
    hits := Match(cache, Hashed(digest), ONE_FILE);
    ghost var s := Hashed(digest)(TWO_FILES);
    forall h ensures h in hits <==> h == Hit(s, BySignature) {
      assert h in hits <==> IsHit(cache, Hashed(digest), ONE_FILE, h);
    }
  }

  const TWO_FILES := Component(["a", "b"], "CWE-1", "x", "")
  const ONE_FILE := Reported(Component(["a;b"], "CWE-1", "x", ""), None, "", Some("CWE-1"))

  /** The cache of one settled finding of this component, stamped `fp`. */
  method CacheOf(sound: Event -> bool, signature: Component -> Signature, c: Component) returns (cache: Cache)
    ensures var s := signature(c); cache.components.Keys == {s} && cache.components[s].component == c
    ensures "fp" in cache.fingerprints && forall t :: t in cache.fingerprints["fp"] <==> t == signature(c)
  {
    hide Agree, Files, Judge, Precedents, IsHit;
    var event := Event("false_positive", Human, true, true, "interactive");
    var case_ := Case(Some(Reported(c, Some("fp"), "", None)), [event], "false_positive", false);
    var p := Precedent("fp", c, event, HumanCountersigned);
    JudgedHuman(sound, case_, event, p);
    var counters;
    cache, counters := BuildCache(sound, signature, [case_]);
    OnePrecedent(cache, signature, signature(c), p);
  }

  lemma OneHit(cache: Cache, signature: Component -> Signature, s: Signature, hits: set<Hit>)
    requires forall h :: h in hits <==> IsHit(cache, signature, ELSEWHERE, h)
    requires s in cache.components && "fp" in cache.fingerprints && forall t :: t in cache.fingerprints["fp"] <==> t == s
    ensures hits == {Hit(s, ByFingerprint)}
  {
  }

  const SETTLED := Component(["a.c"], "CWE-1", "x", "")
  const ELSEWHERE := Reported(Component(["b.c"], "CWE-2", "y", ""), Some("fp"), "", Some("CWE-2"))

  lemma JudgedHuman(sound: Event -> bool, c: Case, e: Event, p: Precedent)
    requires c.events == [e] && e.ByHuman() && c.finding.Some? && c.validity == e.validity
    requires p == Precedent(c.finding.value.Fp(), c.finding.value.component, e, HumanCountersigned)
    ensures Precedents(sound, [c]) == [p]
  {
    assert e in c.events;
    assert LastIndex(c.events, IsHuman) == Some(0);
    assert [c][..0] == [] && Precedents(sound, [c][..0]) == [];
  }

  /** A cache of one precedent has one component and lists it under the one stamp. */
  lemma OnePrecedent(cache: Cache, signature: Component -> Signature, s: Signature, p: Precedent)
    requires Agree(cache) && Files(cache, signature, [p]) && s == signature(p.component)
    ensures cache.components.Keys == {s} && cache.components[s].component == p.component
    ensures p.fp in cache.fingerprints && forall t :: t in cache.fingerprints[p.fp] <==> t == s
  {
    OneComponentFiled(cache, signature, s, p);
    hide Files;
    assert p in cache.components[s].precedents;
    assert Listed(cache.components, p.fp, s);
    forall t ensures Listed(cache.components, p.fp, t) <==> t == s {
      assert t in cache.components <==> t == s;
    }
    hide Listed;
  }

  lemma OneComponentFiled(cache: Cache, signature: Component -> Signature, s: Signature, p: Precedent)
    requires Files(cache, signature, [p]) && s == signature(p.component)
    ensures cache.components.Keys == {s} && cache.components[s] == Entry(p.component, [p])
  {
    forall t ensures t in cache.components <==> t == s {
      OfOne(signature, p, t);
    }
    OfOne(signature, p, s);
    hide Of;
    assert cache.components[s] == Entry(p.component, [p]);
  }

  lemma OfOne(signature: Component -> Signature, p: Precedent, t: Signature)
    ensures Of(signature, [p], t) == if t == signature(p.component) then [p] else []
  {
    assert [p][..0] == [] && Of(signature, [p][..0], t) == [];
  }
}

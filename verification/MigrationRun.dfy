/** The migration rehearsal: one state per source file, issues, layer ids and the final verdict. */
module MigrationRun {
  import opened Findings

  /** A source file, named by its path below the results root. */
  datatype Source = Source(path: string)
  type LayerId = string

  datatype State = Unselected | Excluded | Pending | Rejected | Unrecognized | Blocked | Delegated | AlreadyBound | Ingested {
    /** The states a finished source may have in a passed run. */
    predicate Final() { Unselected? || Excluded? || Delegated? || AlreadyBound? || Ingested? }
    predicate Refused() { Rejected? || Unrecognized? || Blocked? }
  }

  datatype Namespace = Storage | Ledger

  datatype Issue = Issue(code: string, source: Option<Source>, blocking: bool)

  // What the outside world answers; `Raises` is any exception that is not handled per source.

  datatype Content = Recognized(layer: bool) | Undiscovered(code: string) | BadNumber | Unreadable | InvalidJson

  datatype Entry = Entry(path: Source, budgetSpent: bool, candidate: bool, exclusion: Option<string>,
                         inside: bool, directory: bool, content: Content)

  datatype Validation = Failures(codes: seq<string>) | ValidationRaises

  datatype Resolution = Resolved(layerId: Option<LayerId>, repository: Option<string>) | Undecided(code: string) | ResolutionRaises

  datatype Saving = Saved(alreadyBound: bool) | IngestRefused | MappingFails | SavingRaises

  function CountBlocking(issues: seq<Issue>): nat {
    if issues == [] then 0
    else CountBlocking(issues[..|issues| - 1]) + if issues[|issues| - 1].blocking then 1 else 0
  }

  lemma CountBlockingStep(issues: seq<Issue>, i: Issue)
    ensures CountBlocking(issues + [i]) == CountBlocking(issues) + if i.blocking then 1 else 0
  {
    assert (issues + [i])[..|issues|] == issues;
  }

  lemma {:induction false} CountBlockingZero(issues: seq<Issue>)
    ensures CountBlocking(issues) == 0 <==> forall i | i in issues :: !i.blocking
  {
    if issues != [] {
      var n := |issues| - 1;
      CountBlockingZero(issues[..n]);
      assert issues == issues[..n] + [issues[n]];
    }
  }

  /** A source leaves `Pending` at most once: only pending sources change, and none becomes pending again. */
  ghost predicate Steady(before: map<Source, State>, after: map<Source, State>) {
    && before.Keys == after.Keys
    && forall p | p in before :: (before[p] != Pending ==> after[p] == before[p])
  }

  /** A layer handed to the ledger: inserted or skipped is accepted. */
  datatype LedgerItem = LedgerItem(source: Source, accepted: bool)

  datatype LedgerTarget = NoTarget | Target(items: seq<LedgerItem>, raises: bool)

  /** Every answer of the outside world in one run. */
  datatype Scenario = Scenario(
    entries: seq<Entry>, bootstrapRaises: bool,
    validation: Source -> Validation, validationBudget: Source -> bool,
    resolution: Source -> Resolution, registrationRaises: string -> bool, pinsChanged: bool,
    saving: Source -> Saving, ingestBudget: Source -> bool,
    sourcesChanged: bool, targetDiffers: bool, budgetSpentAfterLoad: bool,
    ledger: LedgerTarget, comparisonUnavailable: bool, budgetSpentAtEnd: bool, closeRaises: bool)

  datatype Status = StatusBlocked | Passed | Failed

  datatype LedgerStatus = NotRun | LedgerPassed | LedgerFailed

  datatype Verdict = Verdict(status: Status, complete: bool, reconciled: bool, ledger: LedgerStatus)

  function Paths(entries: seq<Entry>): set<Source> {
    set e | e in entries :: e.path
  }

  /** The ledger took as many layers as were delegated, and refused none. */
  predicate LedgerDone(target: LedgerTarget, delegated: set<Source>) {
    target.Target? && !target.raises && |target.items| == |delegated| && forall i | i in target.items :: i.accepted
  }

  class Rehearsal {
    const routeLayers: bool
    var states: map<Source, State>
    var artifacts: seq<Source>
    var namespaces: map<Source, Namespace>
    var layerIds: map<LayerId, Source>
    var layerOf: map<Source, LayerId>
    var plans: map<Source, Option<string>>
    var issues: seq<Issue>
    var blocking: nat
    ghost var history: seq<map<Source, State>>

    ghost predicate Valid()
      reads this
    {
      && OneWay(history, states)
      && Explained(states, issues, blocking)
      && Catalogued(states, artifacts, namespaces)
      && LayersClaimed(states, artifacts, namespaces, plans, layerIds, layerOf)
    }

    constructor (routeLayers: bool)
      ensures Valid() && states == map[] && artifacts == [] && issues == []
    {
      this.routeLayers := routeLayers;
      states, artifacts, namespaces, layerIds, layerOf, plans := map[], [], map[], map[], map[], map[];
      issues, blocking, history := [], 0, [map[]];
    }

    /** Records a blocking issue. */
    method Report(code: string, source: Option<Source>)
      requires Valid()
      modifies this`issues, this`blocking
      ensures Valid() && issues == old(issues) + [Issue(code, source, true)] && blocking == old(blocking) + 1
      ensures source.Some? ==> Issued(issues, source.value)
    {
      hide OneWay, Catalogued, LayersClaimed, CountBlocking;
      ExplainedStep(states, issues, blocking, Issue(code, source, true));
      issues, blocking := issues + [Issue(code, source, true)], blocking + 1;
    }

    /** Records an issue that does not count against the verdict. */
    method Remark(code: string)
      requires Valid()
      modifies this`issues
      ensures Valid() && issues == old(issues) + [Issue(code, None, false)]
    {
      hide Explained, Catalogued, LayersClaimed;
      RemarkStep(states, issues, blocking, code);
      issues := issues + [Issue(code, None, false)];
    }

    /** The one place that changes a state: of a new path, or of a pending source. */
    method Put(p: Source, state: State)
      requires OneWay(history, states) && (p in states ==> states[p].Pending?)
      modifies this`states, this`history
      ensures states == old(states)[p := state] && OneWay(history, states)
    {
      OneWayStep(history, states, p, state);
      states := states[p := state];
      history := history + [states];
    }

    /** A blocking issue on `p`, and the refused state it ends in. */
    method Refuse(p: Source, code: string, state: State)
      requires Valid() && state.Refused() && (p in states ==> states[p].Pending? && !state.Unrecognized?)
      modifies this`issues, this`blocking, this`states, this`history
      ensures Valid() && states == old(states)[p := state] && blocking == old(blocking) + 1 && issues == old(issues) + [Issue(code, Some(p), true)]
    {
      hide Explained, Catalogued, LayersClaimed;
      Report(code, Some(p));
      MarkRefused(p, state);
    }

    /** The state change of a source whose issues are already recorded. */
    method MarkRefused(p: Source, state: State)
      requires Valid() && state.Refused() && Issued(issues, p) && (p in states ==> states[p].Pending? && !state.Unrecognized?)
      modifies this`states, this`history
      ensures Valid() && states == old(states)[p := state]
    {
      RefuseStep(states, artifacts, namespaces, plans, layerIds, layerOf, p, state);
      Put(p, state);
    }

    // ------------------------------------------------------------------------
    // Inventory
    // ------------------------------------------------------------------------

    /** Files one inventoried path under its first state. */
    method Inspect(e: Entry)
      requires Valid() && e.path !in states
      modifies this`states, this`history, this`artifacts, this`namespaces, this`issues, this`blocking
      ensures Valid() && states == old(states)[e.path := FirstState(e)]
      ensures artifacts == old(artifacts) + if FirstState(e).Pending? then [e.path] else []
      ensures namespaces == if FirstState(e).Pending? then old(namespaces)[e.path := NamespaceOf(e.content, routeLayers)] else old(namespaces)
      ensures blocking == old(blocking) + if FirstState(e).Refused() then 1 else 0
      ensures issues == old(issues) + FirstIssues(e)
    {
      hide OneWay, Explained, Catalogued, LayersClaimed;
      if !e.candidate && e.exclusion.None? {
        File(e.path, Unselected);
        return;
      }
      if e.exclusion.Some? {
        File(e.path, Excluded);
        return;
      }
      if !e.inside {
        Refuse(e.path, "unsafe_source_path", Rejected);
        return;
      }
      if e.directory {
        Refuse(e.path, "directory_symlink", Rejected);
        return;
      }
      match e.content
      case Recognized(layer) => Recognize(e.path, NamespaceOf(e.content, routeLayers));
      case Undiscovered(code) => Refuse(e.path, code, Unrecognized);
      case BadNumber => Refuse(e.path, "number_representation", Rejected);
      case Unreadable => Refuse(e.path, "unreadable_source", Rejected);
      case InvalidJson => Refuse(e.path, "invalid_json", Rejected);
    }

    /** A path that is left alone. */
    method File(p: Source, state: State)
      requires Valid() && p !in states && (state.Unselected? || state.Excluded?)
      modifies this`states, this`history
      ensures Valid() && states == old(states)[p := state]
    {
      NewPath(states, artifacts, namespaces, plans, layerIds, layerOf, issues, blocking, p, state);
      hide Explained, Catalogued, LayersClaimed;
      Put(p, state);
    }

    /** A path that is an artifact. */
    method Recognize(p: Source, n: Namespace)
      requires Valid() && p !in states
      modifies this`states, this`history, this`artifacts, this`namespaces
      ensures Valid() && states == old(states)[p := Pending] && artifacts == old(artifacts) + [p] && namespaces == old(namespaces)[p := n]
    {
      NewArtifact(states, artifacts, namespaces, plans, layerIds, layerOf, issues, blocking, p, n);
      hide Explained, Catalogued, LayersClaimed;
      Put(p, Pending);
      artifacts := artifacts + [p];
      namespaces := namespaces[p := n];
    }

    /** Walks the source tree; `false` is an exception, for instance a spent budget. */
    method Inventory(entries: seq<Entry>) returns (ok: bool)
      requires Valid() && states == map[] && DistinctPaths(entries)
      modifies this`states, this`history, this`artifacts, this`namespaces, this`issues, this`blocking
      ensures Valid()
      ensures ok ==> Inventoried(entries, states) && forall p :: p in artifacts <==> p in states && states[p].Pending?
      ensures ok ==> Spaced(entries, routeLayers, namespaces)
      ensures ok ==> issues == old(issues) + Listing(InventoryIssues(entries), |entries|) + NoInputs(artifacts)
      ensures ok <==> forall e | e in entries :: !e.budgetSpent
      ensures ok && old(blocking) == 0 ==> (blocking == 0 <==> artifacts != [] && NoneRefused(states))
      ensures ok ==> (blocking == 0 ==> forall p | p in states :: !states[p].Refused()) && (artifacts == [] ==> blocking > 0)
    {
      hide Noted, InventoryIssues, Listing, FirstIssues;
      NoneNoted(issues, InventoryIssues(entries));
      for i := 0 to |entries|
        invariant Valid() && Inventoried(entries[..i], states) && Spaced(entries[..i], routeLayers, namespaces)
        invariant Noted(old(issues), issues, InventoryIssues(entries), i)
        invariant forall p :: p in artifacts <==> p in states && states[p].Pending?
        invariant (forall e | e in entries[..i] :: !e.budgetSpent) && (old(blocking) == 0 ==> Calm(states, blocking))
      {
        var e := entries[i];
        if e.budgetSpent {
          return false;
        }
        FreshPath(entries, i, states);
        InventoryStep(entries, i, states);
        SpacedStep(entries, i, routeLayers, namespaces);
        CalmPut(states, blocking, e.path, FirstState(e), blocking + if FirstState(e).Refused() then 1 else 0);
        ghost var noted := issues;
        EntryIssues(entries, i);
        Inspect(e);
        NotedStep(old(issues), noted, issues, InventoryIssues(entries), i);
      }
      NotedIs(old(issues), issues, InventoryIssues(entries), |entries|);
      assert entries[..|entries|] == entries;
      if artifacts == [] {
        Report("no_selected_inputs", None);
      }
      BlockingExplains(states, issues, blocking);
      ok := true;
    }

    // ------------------------------------------------------------------------
    // Validation, resolution, registration, ingestion
    // ------------------------------------------------------------------------

    /** Schema validation: a source with failures is rejected, one issue per failure. */
    method ValidateSources(answer: Source -> Validation, budgetSpent: Source -> bool) returns (ok: bool)
      requires Valid()
      modifies this`states, this`history, this`issues, this`blocking
      ensures Valid() && Steady(old(states), states)
      ensures ok ==> Moved(old(states), states, artifacts, |artifacts|, Validated(answer))
      ensures ok ==> issues == old(issues) + Listing(ValidationIssues(old(states), artifacts, answer), |artifacts|)
      ensures ok ==> forall p | p in states && states[p].Pending? :: answer(p) == Failures([])
      ensures ok <==> forall p | p in old(states) && old(states)[p].Pending? :: !budgetSpent(p) && answer(p).Failures?
      ensures Grown(old(states), old(blocking), states, blocking)
    {
      ghost var before := states;
      ListedArtifacts(states, artifacts, namespaces);
      hide OneWay, Explained, Catalogued, LayersClaimed, Moved, Listed, Steady, Validated, Noted, ValidationIssues, Listing;
      ok := ValidateAll(before, answer, budgetSpent);
      if ok {
        AllInAll(before, artifacts, Validates(answer, budgetSpent));
        NotedIs(old(issues), issues, ValidationIssues(before, artifacts, answer), |artifacts|);
        PendingValidated(before, states, artifacts, answer);
      }
    }

    /** Every artifact in turn, up to the first exception. */
    method ValidateAll(ghost before: map<Source, State>, answer: Source -> Validation, budgetSpent: Source -> bool) returns (ok: bool)
      requires Valid() && before == states && Listed(before, artifacts)
      modifies this`states, this`history, this`issues, this`blocking
      ensures Valid() && Steady(before, states) && Grown(before, old(blocking), states, blocking)
      ensures ok ==> Moved(before, states, artifacts, |artifacts|, Validated(answer))
      ensures ok ==> Noted(old(issues), issues, ValidationIssues(before, artifacts, answer), |artifacts|)
      ensures ok ==> AllIn(before, artifacts[..|artifacts|], Validates(answer, budgetSpent))
      ensures !ok ==> exists p :: p in before && before[p].Pending? && !Validates(answer, budgetSpent)(p)
    {
      hide OneWay, Explained, Catalogued, LayersClaimed, Moved, Listed, Steady, Validated, Noted, ValidationIssues, Listing, Validates;
      NoneNoted(issues, ValidationIssues(before, artifacts, answer));
      NoneMoved(states, artifacts, Validated(answer));
      for i := 0 to |artifacts|
        invariant Valid() && Moved(before, states, artifacts, i, Validated(answer))
        invariant AllIn(before, artifacts[..i], Validates(answer, budgetSpent))
        invariant Noted(old(issues), issues, ValidationIssues(before, artifacts, answer), i)
        invariant Grown(before, old(blocking), states, blocking)
      {
        ghost var noted := issues;
        ok := ValidateNext(before, i, answer, budgetSpent);
        AllInStep(before, artifacts, i, Validates(answer, budgetSpent));
        if !ok {
          MovedSteady(before, states, artifacts, i, Validated(answer));
          return;
        }
        NotedStep(old(issues), noted, issues, ValidationIssues(before, artifacts, answer), i);
      }
      MovedSteady(before, states, artifacts, |artifacts|, Validated(answer));
      ok := true;
    }

    method ValidateNext(ghost before: map<Source, State>, i: nat, answer: Source -> Validation, budgetSpent: Source -> bool) returns (ok: bool)
      requires Valid() && i < |artifacts| && Listed(before, artifacts) && Moved(before, states, artifacts, i, Validated(answer))
      modifies this`states, this`history, this`issues, this`blocking
      ensures Valid() && if ok then Moved(before, states, artifacts, i + 1, Validated(answer)) else states == old(states)
      ensures artifacts[i] in before && (ok <==> before[artifacts[i]].Pending? ==> Validates(answer, budgetSpent)(artifacts[i]))
      ensures ok ==> issues == old(issues) + ValidationIssues(before, artifacts, answer)(i)
      ensures Grown(old(states), old(blocking), states, blocking)
    {
      hide OneWay, Explained, Catalogued, LayersClaimed, Moved, Listed;
      var p := artifacts[i];
      MoveStep(before, states, artifacts, i, Validated(answer));
      if states[p].Pending? {
        if budgetSpent(p) || answer(p).ValidationRaises? {
          return false;
        }
        CalmPut(states, blocking, p, Rejected, blocking + |answer(p).codes|);
        RejectFailing(p, answer(p).codes);
      }
      ok := true;
    }

    method RejectFailing(p: Source, codes: seq<string>)
      requires Valid() && p in states && states[p].Pending?
      modifies this`states, this`history, this`issues, this`blocking
      ensures Valid() && states == if codes == [] then old(states) else old(states)[p := Rejected]
      ensures blocking == old(blocking) + |codes| && issues == old(issues) + Coded(p, codes)
    {
      hide OneWay, Explained, Catalogued, LayersClaimed;
      if codes != [] {
        ReportAll(p, codes);
        MarkRefused(p, Rejected);
      }
    }

    method ReportAll(p: Source, codes: seq<string>)
      requires Valid()
      modifies this`issues, this`blocking
      ensures Valid() && (codes != [] ==> Issued(issues, p)) && blocking == old(blocking) + |codes| && issues == old(issues) + Coded(p, codes)
    {
      hide OneWay, Explained, Catalogued, LayersClaimed, Issued;
      for k := 0 to |codes|
        invariant Valid() && (k > 0 ==> Issued(issues, p)) && blocking == old(blocking) + k && issues == old(issues) + Coded(p, codes[..k])
      {
        assert codes[..k + 1][..k] == codes[..k];
        Report(codes[k], Some(p));
      }
      assert codes[..|codes|] == codes;
    }

    /** Binds every valid source to its repository; a ledger layer id belongs to the first source that claims it. */
    method ResolveSources(answer: Source -> Resolution) returns (ok: bool)
      requires Valid() && plans == map[] && layerIds == map[] && layerOf == map[]
      modifies this`states, this`history, this`issues, this`blocking, this`plans, this`layerIds, this`layerOf
      ensures Valid() && Steady(old(states), states)
      ensures ok ==> Bound(Intake(old(states), namespaces, artifacts, answer), |artifacts|, states, plans.Keys, layerIds)
      ensures ok ==> AllPlanned(states, plans) && PlansAnswered(plans, answer)
      ensures ok ==> issues == old(issues) + Listing(ResolutionIssues(Intake(old(states), namespaces, artifacts, answer)), |artifacts|)
      ensures ok <==> forall p | p in old(states) && old(states)[p].Pending? :: !answer(p).ResolutionRaises?
      ensures Grown(old(states), old(blocking), states, blocking)
    {
      ghost var intake := Intake(states, namespaces, artifacts, answer);
      hide OneWay, Explained, LayersClaimed, Bound, Noted, ResolutionIssues, Listing;
      NoneNoted(issues, ResolutionIssues(intake));
      BoundStart(intake, states);
      assert plans.Keys == {};
      for i := 0 to |artifacts|
        invariant Valid() && intake.Proper() && Bound(intake, i, states, plans.Keys, layerIds) && PlansAnswered(plans, answer)
        invariant AllIn(intake.before, artifacts[..i], Resolves(answer))
        invariant Noted(old(issues), issues, ResolutionIssues(intake), i)
        invariant Grown(intake.before, old(blocking), states, blocking)
      {
        var p := artifacts[i];
        AllInStep(intake.before, artifacts, i, Resolves(answer));
        ghost var now, planned, ids := states, plans.Keys, layerIds;
        BoundNext(intake, i, now, planned, ids);
        ghost var noted := issues;
        if states[p].Pending? {
          var raised := ResolveOne(p, answer(p));
          if raised {
            BoundSteady(intake, i, now, planned, ids);
            return false;
          }
          BoundStep(intake, i, now, planned, ids, states, plans.Keys, layerIds);
          NotedResolution(intake, i, now, planned, ids);
        }
        NotedOrNot(intake, i, noted, issues);
        NotedStep(old(issues), noted, issues, ResolutionIssues(intake), i);
      }
      AllInAll(intake.before, artifacts, Resolves(answer));
      NotedIs(old(issues), issues, ResolutionIssues(intake), |artifacts|);
      AllBound(intake, states, plans.Keys, layerIds);
      BoundSteady(intake, |artifacts|, states, plans.Keys, layerIds);
      ok := true;
    }

    method ResolveOne(p: Source, answer: Resolution) returns (raised: bool)
      requires Valid() && p in states && states[p].Pending? && p in artifacts && p in namespaces
      modifies this`states, this`history, this`issues, this`blocking, this`plans, this`layerIds, this`layerOf
      ensures Valid() && (raised ==> states == old(states))
      ensures !raised ==> Settled(p, answer, namespaces[p], old(states), old(plans.Keys), old(layerIds), states, plans.Keys, layerIds)
      ensures plans == if !raised && states[p].Pending? && answer.Resolved? then old(plans)[p := answer.repository] else old(plans)
      ensures raised <==> answer.ResolutionRaises?
      ensures !raised ==> issues == old(issues) + Unbound(p, answer, namespaces[p], Free(p, answer, namespaces[p], old(layerIds)))
      ensures Grown(old(states), old(blocking), states, blocking)
    {
      hide OneWay, Explained, Catalogued, LayersClaimed, Claimable, NoneRefused, Calm;
      CalmPut(states, blocking, p, Blocked, blocking + 1);
      match answer
      case ResolutionRaises => raised := true;
      case Undecided(code) =>
        Refuse(p, code, Blocked);
        raised := false;
      case Resolved(layerId, repository) =>
        raised := false;
        if namespaces[p].Ledger? && repository.None? {
          Refuse(p, "unresolved_repository", Blocked);
        } else if namespaces[p].Ledger? && (layerId.None? || !Claimable(layerIds, layerId.value, p)) {
          Refuse(p, "ambiguous_binding", Blocked);
        } else {
          Plan(p, layerId, repository);
        }
    }

    /** Plans a source, and claims its layer for the ledger. */
    method Plan(p: Source, layerId: Option<LayerId>, repository: Option<string>)
      requires Valid() && p in states && p in artifacts && p in namespaces
      requires namespaces[p].Ledger? ==> layerId.Some? && Claimable(layerIds, layerId.value, p)
      modifies this`plans, this`layerIds, this`layerOf
      ensures Valid() && plans == old(plans)[p := repository]
      ensures layerIds == if namespaces[p].Ledger? then old(layerIds)[layerId.value := p] else old(layerIds)
    {
      hide OneWay, Explained;
      if namespaces[p].Ledger? {
        ClaimStep(layerIds, layerOf, layerId.value, p);
        layerIds := layerIds[layerId.value := p];
        layerOf := layerOf[p := layerId.value];
      }
      plans := plans[p := repository];
    }

    /** Registers the repository of every pending source; only exceptions can stop it. */
    method RegisterRepositories(raises: string -> bool) returns (ok: bool, registered: set<string>)
      requires Valid() && AllPlanned(states, plans)
      ensures ok ==> registered == set p | p in states && states[p].Pending? && plans[p].Some? :: plans[p].value
      ensures ok <==> forall p | p in states && states[p].Pending? && plans[p].Some? :: !raises(plans[p].value)
    {
      registered := {};
      for i := 0 to |artifacts|
        invariant forall r | r in registered :: !raises(r)
        invariant registered == set j | 0 <= j < i && states[artifacts[j]].Pending? && plans[artifacts[j]].Some? :: plans[artifacts[j]].value
      {
        var p := artifacts[i];
        if states[p].Pending? && plans[p].Some? {
          if plans[p].value !in registered && raises(plans[p].value) {
            return false, registered;
          }
          registered := registered + {plans[p].value};
        }
      }
      ok := true;
    }

    /** Stores every pending source, or delegates it to the ledger. */
    method IngestArtifacts(answer: Source -> Saving, budgetSpent: Source -> bool) returns (ok: bool)
      requires Valid() && AllPlanned(states, plans)
      modifies this`states, this`history, this`issues, this`blocking
      ensures Valid() && Steady(old(states), states)
      ensures ok ==> Moved(old(states), states, artifacts, |artifacts|, LastStates(namespaces, answer))
      ensures ok ==> issues == old(issues) + Listing(SavingIssues(old(states), artifacts, namespaces, answer), |artifacts|)
      ensures ok ==> forall p | p in states :: !states[p].Pending?
      ensures ok <==> forall p | p in old(states) && old(states)[p].Pending? :: Stores(namespaces, answer, budgetSpent)(p)
      ensures Grown(old(states), old(blocking), states, blocking)
    {
      ghost var before := states;
      ListedArtifacts(states, artifacts, namespaces);
      hide OneWay, Explained, Catalogued, LayersClaimed, Moved, Listed, Steady, LastStates, AllPlanned, Noted, SavingIssues, Listing;
      NoneNoted(issues, SavingIssues(before, artifacts, namespaces, answer));
      NoneMoved(states, artifacts, LastStates(namespaces, answer));
      for i := 0 to |artifacts|
        invariant Valid() && Moved(before, states, artifacts, i, LastStates(namespaces, answer))
        invariant Noted(old(issues), issues, SavingIssues(before, artifacts, namespaces, answer), i)
        invariant AllPlanned(states, plans)
        invariant AllIn(before, artifacts[..i], Stores(namespaces, answer, budgetSpent))
        invariant Grown(before, old(blocking), states, blocking)
      {
        ghost var noted := issues;
        ok := IngestNext(before, i, answer, budgetSpent);
        if ok {
          NotedStep(old(issues), noted, issues, SavingIssues(before, artifacts, namespaces, answer), i);
        }
        AllInStep(before, artifacts, i, Stores(namespaces, answer, budgetSpent));
        if !ok {
          MovedSteady(before, states, artifacts, i, LastStates(namespaces, answer));
          return;
        }
      }
      AllInAll(before, artifacts, Stores(namespaces, answer, budgetSpent));
      NotedIs(old(issues), issues, SavingIssues(before, artifacts, namespaces, answer), |artifacts|);
      MovedSteady(before, states, artifacts, |artifacts|, LastStates(namespaces, answer));
      NonePending(before, states, artifacts, namespaces, answer);
      ok := true;
    }

    method IngestNext(ghost before: map<Source, State>, i: nat, answer: Source -> Saving, budgetSpent: Source -> bool) returns (ok: bool)
      requires Valid() && i < |artifacts| && Listed(before, artifacts) && Moved(before, states, artifacts, i, LastStates(namespaces, answer))
      requires AllPlanned(states, plans)
      modifies this`states, this`history, this`issues, this`blocking
      ensures Valid() && if ok then Moved(before, states, artifacts, i + 1, LastStates(namespaces, answer)) else states == old(states)
      ensures AllPlanned(states, plans)
      ensures artifacts[i] in before && (ok <==> before[artifacts[i]].Pending? ==> Stores(namespaces, answer, budgetSpent)(artifacts[i]))
      ensures ok ==> issues == old(issues) + SavingIssues(before, artifacts, namespaces, answer)(i)
      ensures Grown(old(states), old(blocking), states, blocking)
    {
      hide OneWay, Explained, Catalogued, LayersClaimed, Moved, Listed;
      var p := artifacts[i];
      MoveStep(before, states, artifacts, i, LastStates(namespaces, answer));
      if states[p].Pending? {
        if budgetSpent(p) {
          return false;
        }
        PlannedLedgerSource(p);
        CalmPut(states, blocking, p, LastState(namespaces[p], answer(p)), blocking);
        CalmPut(states, blocking, p, LastState(namespaces[p], answer(p)), blocking + 1);
        var raised := IngestOne(p, answer(p));
        return !raised;
      }
      ok := true;
    }

    method IngestOne(p: Source, answer: Saving) returns (raised: bool)
      requires Valid() && p in states && states[p].Pending? && p in artifacts && p in plans
      modifies this`states, this`history, this`issues, this`blocking
      ensures Valid() && (raised <==> namespaces[p].Storage? && answer.SavingRaises?)
      ensures states == if raised then old(states) else old(states)[p := LastState(namespaces[p], answer)]
      ensures blocking == old(blocking) + if !raised && LastState(namespaces[p], answer).Refused() then 1 else 0
      ensures issues == old(issues) + if raised then [] else Unsaved(p, namespaces[p], answer)
    {
      PlannedLedgerSource(p);
      hide OneWay, Explained, Catalogued, LayersClaimed;
      raised := false;
      if namespaces[p].Ledger? {
        Advance(p, Delegated);
      } else {
        match answer
        case SavingRaises => raised := true;
        case IngestRefused => Refuse(p, "ingest_rejected", Rejected);
        case MappingFails => Refuse(p, "mapping_failure", Blocked);
        case Saved(alreadyBound) => Advance(p, if alreadyBound then AlreadyBound else Ingested);
      }
    }

    /** A source that is stored or handed over. */
    method Advance(p: Source, state: State)
      requires Valid() && p in states && states[p].Pending? && p in artifacts
      requires state.AlreadyBound? || state.Ingested? || (state.Delegated? && p in layerOf)
      modifies this`states, this`history
      ensures Valid() && states == old(states)[p := state]
    {
      AdvanceStep(states, artifacts, namespaces, plans, layerIds, layerOf, issues, blocking, p, state);
      hide Explained, Catalogued, LayersClaimed;
      Put(p, state);
    }

    lemma PlannedLedgerSource(p: Source)
      requires Valid() && p in plans
      ensures p in namespaces && (namespaces[p].Ledger? ==> p in layerOf)
    {
      hide OneWay, Explained, Catalogued;
    }

    // ------------------------------------------------------------------------
    // Reconciliation and verdict
    // ------------------------------------------------------------------------

    /** The verdict of the load: it passes exactly when no blocking issue was recorded. */
    method Reconcile() returns (passed: bool)
      requires Valid() && forall p | p in states :: !states[p].Pending?
      ensures passed <==> blocking == 0
      ensures passed ==> forall p | p in states :: states[p].Final()
    {
      BlockingExplains(states, issues, blocking);
      passed := blocking == 0 && forall p | p in states :: states[p].Final();
    }

    /** Inventory to resolution; `false` is an exception. */
    method Prepare(s: Scenario) returns (ok: bool, ghost m0: map<Source, State>, ghost m1: map<Source, State>)
      requires Valid() && states == map[] && plans == map[] && layerIds == map[] && layerOf == map[] && DistinctPaths(s.entries)
      modifies this
      ensures Valid()
      ensures ok ==> states.Keys == Paths(s.entries) && AllPlanned(states, plans)
      ensures ok ==> Prepared(s, routeLayers, m0, m1, states, artifacts, namespaces, plans, layerIds)
      ensures Loaded(s, routeLayers) ==> ok
      ensures ok && old(blocking) == 0 ==> if artifacts == [] then blocking > 0 else Calm(states, blocking)
    {
      hide OneWay, Explained, LayersClaimed, Moved, Bound, Loaded, Spaced, NoneRefused;
      m1 := map[];
      ok := Inventory(s.entries);
      m0 := states;
      LoadStarts(s, routeLayers);
      if !ok || s.bootstrapRaises {
        ok := false;
        return;
      }
      InventoriedPaths(s.entries, states);
      ListedArtifacts(states, artifacts, namespaces);
      hide Catalogued, Inventoried, Listed;
      ok := ValidateSources(s.validation, s.validationBudget);
      m1 := states;
      LoadValidates(s, routeLayers, m0);
      if ok {
        ok := ResolveSources(s.resolution);
        LoadResolves(s, routeLayers, m0, m1, artifacts);
      }
    }

    /** Inventory to ingestion; `false` is an exception. The states change one way throughout. */
    method Load(s: Scenario) returns (ok: bool)
      requires Valid() && states == map[] && plans == map[] && layerIds == map[] && layerOf == map[] && DistinctPaths(s.entries)
      modifies this
      ensures Valid()
      ensures ok ==> states.Keys == Paths(s.entries) && forall p | p in states :: !states[p].Pending?
      ensures old(blocking) == 0 ==> (Loaded(s, routeLayers) <==> ok && blocking == 0)
      ensures Loaded(s, routeLayers) && ok ==> DelegatedSources() == LedgerPaths(s.entries, routeLayers)
    {
      hide OneWay, Explained, Catalogued, LayersClaimed, Moved, Loaded, NoneRefused, Prepared, LedgerPaths;
      ghost var m0, m1;
      ok, m0, m1 := Prepare(s);
      if !ok {
        return;
      }
      ghost var m2 := states;
      var registered;
      ok, registered := RegisterRepositories(s.registrationRaises);
      LoadStarts(s, routeLayers);
      LoadRegisters(s, routeLayers, m0, m1, m2, artifacts, namespaces, plans, layerIds);
      if !ok || s.pinsChanged {
        return false;
      }
      ok := IngestArtifacts(s.saving, s.ingestBudget);
      if ok {
        LoadedExactly(s, routeLayers, m0, m1, m2, states, artifacts, namespaces, plans, layerIds);
        UnrefusedUnlessBlocking(states, issues, blocking);
      }
    }

    function DelegatedSources(): set<Source>
      reads this
    {
      set p | p in states && states[p].Delegated?
    }

    /** The delegated layers, migrated into the ledger one by one. */
    method MigrateLedger(items: seq<LedgerItem>) returns (accepted: bool)
      requires Valid()
      modifies this`issues, this`blocking
      ensures Valid() && blocking >= old(blocking)
      ensures accepted <==> forall i | i in items :: i.accepted
      ensures accepted ==> blocking == old(blocking)
      ensures !accepted ==> blocking > old(blocking)
      ensures issues == old(issues) + Rejections(items)
    {
      hide OneWay, Explained, Catalogued, LayersClaimed;
      accepted := true;
      for k := 0 to |items|
        invariant Valid() && (accepted <==> forall i | i in items[..k] :: i.accepted)
        invariant if accepted then blocking == old(blocking) else blocking > old(blocking)
        invariant issues == old(issues) + Rejections(items[..k])
      {
        assert items[..k + 1][..k] == items[..k];
        assert items[..k + 1] == items[..k] + [items[k]];
        if !items[k].accepted {
          Report("ledger_migration_rejected", Some(items[k].source));
          accepted := false;
        }
      }
      assert items[..|items|] == items;
    }

    /** The guarded part of a run. */
    method Attempt(s: Scenario) returns (raised: bool, v: Verdict)
      requires Valid() && states == map[] && plans == map[] && layerIds == map[] && layerOf == map[] && DistinctPaths(s.entries)
      modifies this
      ensures Valid()
      ensures !raised && v.status.Passed? && v.reconciled ==> states.Keys == Paths(s.entries) && forall p | p in states :: states[p].Final()
      ensures !raised && v.ledger.LedgerPassed? && v.status.Passed? ==> LedgerDone(s.ledger, DelegatedSources())
      ensures !raised ==> v.complete
      ensures !raised && blocking == 0 ==> v.reconciled
      ensures !raised && blocking == 0 && DelegatedSources() == {} ==> v.status.Passed?
      ensures !raised && blocking == 0 && LedgerDone(s.ledger, DelegatedSources()) ==> v.status.Passed? && (DelegatedSources() == {} || v.ledger.LedgerPassed?)
      ensures old(blocking) == 0 ==> (Smooth(s, routeLayers) <==>
        !raised && v.status.Passed? && blocking == 0 && (DelegatedSources() == {} || v.ledger.LedgerPassed?))
      ensures old(blocking) == 0 && Smooth(s, routeLayers) ==> DelegatedSources() == LedgerPaths(s.entries, routeLayers)
      ensures DelegatedSources() == {} ==> v.ledger.NotRun?
      ensures !raised && v.status.Passed? ==> blocking == 0 && v.reconciled
    {
      v := Verdict(StatusBlocked, false, false, NotRun);
      var ok := Load(s);
      if !ok || s.sourcesChanged || s.targetDiffers {
        return true, v;
      }
      var passed := Reconcile();
      v := Verdict(if passed then Passed else Failed, true, passed, NotRun);
      if s.budgetSpentAfterLoad {
        return true, v;
      }
      if s.ledger.Target? && passed && DelegatedSources() != {} {
        var accepted := MigrateLedger(s.ledger.items);
        if s.ledger.raises {
          return true, v;
        }
        v := v.(ledger := if blocking == 0 then LedgerPassed else LedgerFailed);
        if |s.ledger.items| != |DelegatedSources()| || blocking != 0 {
          v := v.(status := Failed);
        }
      }
      if s.comparisonUnavailable {
        Remark("comparison_unavailable");
      }
      raised := s.budgetSpentAtEnd;
    }

    /** A whole rehearsal: the guarded run, the failure handler, and the readiness formula. */
    method Rehearse(s: Scenario) returns (v: Verdict, ready: bool)
      requires Valid() && states == map[] && issues == [] && plans == map[] && layerIds == map[] && layerOf == map[] && DistinctPaths(s.entries)
      modifies this
      ensures Valid()
      ensures ready ==> blocking == 0 && forall i | i in issues :: !i.blocking
      ensures ready ==> states.Keys == Paths(s.entries)
      ensures ready ==> forall p | p in artifacts :: p in states && (states[p].Ingested? || states[p].AlreadyBound? || states[p].Delegated?)
      ensures ready ==> forall p, q | p in DelegatedSources() && q in DelegatedSources() && p != q ::
        p in layerOf && q in layerOf && layerOf[p] != layerOf[q]
      ensures ready <==> blocking == 0 && (DelegatedSources() == {} || LedgerDone(s.ledger, DelegatedSources()))
      ensures ready <==> Smooth(s, routeLayers) && !s.closeRaises
      ensures ready ==> DelegatedSources() == LedgerPaths(s.entries, routeLayers)
      ensures ready <==> v == Verdict(Passed, true, true, if DelegatedSources() == {} then NotRun else LedgerPassed)
      ensures OneWay(history, states)
    {
      var raised;
      raised, v := Attempt(s);
      if raised {
        Report("systemic_failure", None);
        v := v.(status := StatusBlocked, complete := false);
      }
      if s.closeRaises {
        Report("connection_close_failed", None);
        v := v.(status := StatusBlocked, complete := false);
      }
      ready := v.status.Passed? && v.complete && blocking == 0 && v.reconciled && (DelegatedSources() == {} || v.ledger.LedgerPassed?);
      CountBlockingZero(issues);
    }
  }

  // --------------------------------------------------------------------------
  // The invariant, on values
  // --------------------------------------------------------------------------

  /** Whatever is not pending stays as it is; paths are only added. */
  ghost predicate Follows(before: map<Source, State>, after: map<Source, State>) {
    forall p | p in before :: p in after && (!before[p].Pending? ==> after[p] == before[p])
  }

  ghost predicate OneChange(before: map<Source, State>, after: map<Source, State>) {
    exists p | p in after :: after == before[p := after[p]]
  }

  /** The states of a run, one change at a time from the empty map to now: whatever has left `Pending` stays as it is. */
  ghost predicate OneWay(history: seq<map<Source, State>>, states: map<Source, State>) {
    && history != [] && history[0] == map[] && history[|history| - 1] == states
    && (forall i, j | 0 <= i < j < |history| :: Follows(history[i], history[j]))
    && forall i, j | 0 <= i < j < |history| && j == i + 1 :: OneChange(history[i], history[j])
  }

  lemma OneWayStep(history: seq<map<Source, State>>, states: map<Source, State>, p: Source, state: State)
    requires OneWay(history, states) && (p in states ==> states[p].Pending?)
    ensures OneWay(history + [states[p := state]], states[p := state])
  {
    var next := states[p := state];
    var longer := history + [next];
    assert p in next && next == states[p := next[p]];
    assert Follows(states, next) && OneChange(states, next);
    forall i, j | 0 <= i < j < |longer| ensures Follows(longer[i], longer[j]) {
      if j == |history| && i < |history| - 1 {
        assert Follows(history[i], history[|history| - 1]);
      }
    }
  }

  ghost predicate Issued(issues: seq<Issue>, p: Source) {
    exists i :: i in issues && i.blocking && i.source == Some(p)
  }

  /** Every refused source has a blocking issue that names it, and blocking issues are counted. */
  ghost predicate Explained(states: map<Source, State>, issues: seq<Issue>, blocking: nat) {
    && blocking == CountBlocking(issues)
    && forall p | p in states && states[p].Refused() :: Issued(issues, p)
  }

  /** Recognized sources and no others are pending or past it. */
  ghost predicate Catalogued(states: map<Source, State>, artifacts: seq<Source>, namespaces: map<Source, Namespace>) {
    && (forall p | p in artifacts :: p in states && p in namespaces && !states[p].Unselected? && !states[p].Excluded? && !states[p].Unrecognized?)
    && (forall p | p in states && (states[p].Pending? || states[p].Delegated? || states[p].AlreadyBound? || states[p].Ingested?) :: p in artifacts)
    && forall i, j :: 0 <= i < j < |artifacts| ==> artifacts[i] != artifacts[j]
  }

  /** A layer id is claimed by one source; every planned ledger source and every delegated source claimed one. */
  ghost predicate LayersClaimed(states: map<Source, State>, artifacts: seq<Source>, namespaces: map<Source, Namespace>,
                                plans: map<Source, Option<string>>, layerIds: map<LayerId, Source>, layerOf: map<Source, LayerId>) {
    && (forall p | p in layerOf :: layerOf[p] in layerIds && layerIds[layerOf[p]] == p)
    && (forall p | p in plans :: p in artifacts && p in namespaces && (namespaces[p].Ledger? ==> p in layerOf))
    && forall p | p in states && states[p].Delegated? :: p in layerOf
  }

  lemma ExplainedStep(states: map<Source, State>, issues: seq<Issue>, blocking: nat, i: Issue)
    requires Explained(states, issues, blocking)
    ensures Explained(states, issues + [i], blocking + if i.blocking then 1 else 0)
    ensures i.blocking && i.source.Some? ==> Issued(issues + [i], i.source.value)
  {
    CountBlockingStep(issues, i);
    forall p | Issued(issues, p) ensures Issued(issues + [i], p) {
      var j :| j in issues && j.blocking && j.source == Some(p);
      assert j in issues + [i];
    }
    assert i in issues + [i];
  }

  lemma RemarkStep(states: map<Source, State>, issues: seq<Issue>, blocking: nat, code: string)
    requires Explained(states, issues, blocking)
    ensures Explained(states, issues + [Issue(code, None, false)], blocking)
  {
    ExplainedStep(states, issues, blocking, Issue(code, None, false));
  }

  lemma RefuseStep(states: map<Source, State>, artifacts: seq<Source>, namespaces: map<Source, Namespace>,
                   plans: map<Source, Option<string>>, layerIds: map<LayerId, Source>, layerOf: map<Source, LayerId>, p: Source, state: State)
    requires Catalogued(states, artifacts, namespaces) && LayersClaimed(states, artifacts, namespaces, plans, layerIds, layerOf)
    requires state.Refused() && (p in states ==> states[p].Pending? && !state.Unrecognized?)
    ensures Catalogued(states[p := state], artifacts, namespaces)
    ensures LayersClaimed(states[p := state], artifacts, namespaces, plans, layerIds, layerOf)
  {
  }

  lemma NewPath(states: map<Source, State>, artifacts: seq<Source>, namespaces: map<Source, Namespace>, plans: map<Source, Option<string>>,
                layerIds: map<LayerId, Source>, layerOf: map<Source, LayerId>, issues: seq<Issue>, blocking: nat, p: Source, state: State)
    requires Explained(states, issues, blocking) && Catalogued(states, artifacts, namespaces)
    requires LayersClaimed(states, artifacts, namespaces, plans, layerIds, layerOf)
    requires p !in states && (state.Unselected? || state.Excluded?)
    ensures Explained(states[p := state], issues, blocking) && Catalogued(states[p := state], artifacts, namespaces)
    ensures LayersClaimed(states[p := state], artifacts, namespaces, plans, layerIds, layerOf)
  {
    hide CountBlocking, Issued;
  }

  lemma NewArtifact(states: map<Source, State>, artifacts: seq<Source>, namespaces: map<Source, Namespace>, plans: map<Source, Option<string>>,
                    layerIds: map<LayerId, Source>, layerOf: map<Source, LayerId>, issues: seq<Issue>, blocking: nat, p: Source, n: Namespace)
    requires Explained(states, issues, blocking) && Catalogued(states, artifacts, namespaces)
    requires LayersClaimed(states, artifacts, namespaces, plans, layerIds, layerOf) && p !in states
    ensures Explained(states[p := Pending], issues, blocking)
    ensures Catalogued(states[p := Pending], artifacts + [p], namespaces[p := n])
    ensures LayersClaimed(states[p := Pending], artifacts + [p], namespaces[p := n], plans, layerIds, layerOf)
  {
    hide CountBlocking, Issued;
    assert p !in artifacts && p !in plans;
  }

  lemma AdvanceStep(states: map<Source, State>, artifacts: seq<Source>, namespaces: map<Source, Namespace>, plans: map<Source, Option<string>>,
                    layerIds: map<LayerId, Source>, layerOf: map<Source, LayerId>, issues: seq<Issue>, blocking: nat, p: Source, state: State)
    requires Explained(states, issues, blocking) && Catalogued(states, artifacts, namespaces)
    requires LayersClaimed(states, artifacts, namespaces, plans, layerIds, layerOf) && p in states && p in artifacts
    requires state.AlreadyBound? || state.Ingested? || (state.Delegated? && p in layerOf)
    ensures Explained(states[p := state], issues, blocking) && Catalogued(states[p := state], artifacts, namespaces)
    ensures LayersClaimed(states[p := state], artifacts, namespaces, plans, layerIds, layerOf)
  {
    hide CountBlocking, Issued;
  }

  // --------------------------------------------------------------------------
  // The issues of each stage
  // --------------------------------------------------------------------------

  /** What `of` gives for each of the first `n` sources, in order. */
  ghost function Listing(of: nat -> seq<Issue>, n: nat): seq<Issue> {
    if n == 0 then [] else Listing(of, n - 1) + of(n - 1)
  }

  /** The issues of the first `n` sources were recorded. */
  ghost predicate Noted(was: seq<Issue>, now: seq<Issue>, of: nat -> seq<Issue>, n: nat) {
    now == was + Listing(of, n)
  }

  lemma NoneNoted(was: seq<Issue>, of: nat -> seq<Issue>)
    ensures Noted(was, was, of, 0)
  {
  }

  lemma NotedStep(was: seq<Issue>, now: seq<Issue>, next: seq<Issue>, of: nat -> seq<Issue>, n: nat)
    requires Noted(was, now, of, n) && next == now + of(n)
    ensures Noted(was, next, of, n + 1)
  {
  }

  lemma NotedIs(was: seq<Issue>, now: seq<Issue>, of: nat -> seq<Issue>, n: nat)
    requires Noted(was, now, of, n)
    ensures now == was + Listing(of, n)
  {
  }

  /** The issue of a path that inventory refuses. */
  ghost function FirstIssues(e: Entry): seq<Issue> {
    if !FirstState(e).Refused() then []
    else if !e.inside then [Issue("unsafe_source_path", Some(e.path), true)]
    else if e.directory then [Issue("directory_symlink", Some(e.path), true)]
    else
      var code := match e.content
        case Undiscovered(code) => code
        case BadNumber => "number_representation"
        case Unreadable => "unreadable_source"
        case _ => "invalid_json";
      [Issue(code, Some(e.path), true)]
  }

  ghost function InventoryIssues(entries: seq<Entry>): nat -> seq<Issue> {
    (k: nat) => if k < |entries| then FirstIssues(entries[k]) else []
  }

  ghost function NoInputs(artifacts: seq<Source>): seq<Issue> {
    if artifacts == [] then [Issue("no_selected_inputs", None, true)] else []
  }

  /** One issue per layer that the ledger does not take. */
  ghost function Rejections(items: seq<LedgerItem>): seq<Issue> {
    if items == [] then []
    else
      var last := items[|items| - 1];
      Rejections(items[..|items| - 1]) + if last.accepted then [] else [Issue("ledger_migration_rejected", Some(last.source), true)]
  }

  lemma EntryIssues(entries: seq<Entry>, i: nat)
    requires i < |entries|
    ensures InventoryIssues(entries)(i) == FirstIssues(entries[i])
  {
  }

  /** One issue per failure, in order. */
  ghost function Coded(p: Source, codes: seq<string>): seq<Issue> {
    if codes == [] then [] else Coded(p, codes[..|codes| - 1]) + [Issue(codes[|codes| - 1], Some(p), true)]
  }

  /** The artifact was pending before the stage. */
  predicate Awaits(before: map<Source, State>, artifacts: seq<Source>, k: nat) {
    k < |artifacts| && artifacts[k] in before && before[artifacts[k]].Pending?
  }

  ghost function ValidationIssues(before: map<Source, State>, artifacts: seq<Source>, answer: Source -> Validation): nat -> seq<Issue> {
    (k: nat) => if Awaits(before, artifacts, k) && answer(artifacts[k]).Failures? then Coded(artifacts[k], answer(artifacts[k]).codes) else []
  }

  /** Why a source that cannot be bound is blocked: resolution said so, or the ledger lacks a repository or a free layer. */
  ghost function Unbindable(answer: Resolution, n: Namespace): string {
    match answer
    case Undecided(code) => code
    case Resolved(_, repository) => if n.Ledger? && repository.None? then "unresolved_repository" else "ambiguous_binding"
    case ResolutionRaises => ""
  }

  ghost function Unbound(p: Source, answer: Resolution, n: Namespace, free: bool): seq<Issue> {
    if free then [] else [Issue(Unbindable(answer, n), Some(p), true)]
  }

  ghost function ResolutionIssues(intake: Intake): nat -> seq<Issue> {
    (k: nat) =>
      if !intake.Open(k) then []
      else
        var p := intake.artifacts[k];
        Unbound(p, intake.answer(p), intake.namespaces[p], intake.Planned(k))
  }

  ghost function Unsaved(p: Source, n: Namespace, answer: Saving): seq<Issue> {
    if n.Ledger? then []
    else
      match answer
      case IngestRefused => [Issue("ingest_rejected", Some(p), true)]
      case MappingFails => [Issue("mapping_failure", Some(p), true)]
      case _ => []
  }

  ghost function SavingIssues(before: map<Source, State>, artifacts: seq<Source>, namespaces: map<Source, Namespace>, answer: Source -> Saving): nat -> seq<Issue> {
    (k: nat) =>
      if !Awaits(before, artifacts, k) || artifacts[k] !in namespaces then []
      else Unsaved(artifacts[k], namespaces[artifacts[k]], answer(artifacts[k]))
  }

  /** A source that resolution does not look at gives no issue. */
  lemma NotedOrNot(intake: Intake, i: nat, was: seq<Issue>, now: seq<Issue>)
    requires intake.Open(i) ==> now == was + ResolutionIssues(intake)(i)
    requires !intake.Open(i) ==> now == was
    ensures now == was + ResolutionIssues(intake)(i)
  {
  }

  lemma NotedResolution(intake: Intake, i: nat, now: map<Source, State>, planned: set<Source>, layerIds: map<LayerId, Source>)
    requires i < |intake.artifacts| && intake.Proper() && Bound(intake, i, now, planned, layerIds) && intake.Open(i)
    ensures var p := intake.artifacts[i];
      ResolutionIssues(intake)(i) == Unbound(p, intake.answer(p), intake.namespaces[p], Free(p, intake.answer(p), intake.namespaces[p], layerIds))
  {
    SettledAsPlanned(intake, i, layerIds);
  }

  /** The source can be bound on its own merits. */
  predicate Bindable(r: Resolution, n: Namespace) {
    r.Resolved? && (n.Ledger? ==> r.repository.Some? && r.layerId.Some?)
  }

  /** What resolution starts from: the states after validation, the artifacts in order, and the answers for them. */
  datatype Intake = Intake(before: map<Source, State>, namespaces: map<Source, Namespace>, artifacts: seq<Source>, answer: Source -> Resolution) {

    /** Artifacts are distinct and catalogued. */
    ghost predicate Proper() {
      && (forall p | p in artifacts :: p in before && p in namespaces)
      && (forall p | p in before && before[p].Pending? :: p in artifacts)
      && forall i, j :: 0 <= i < j < |artifacts| ==> artifacts[i] != artifacts[j]
    }

    /** Still pending when resolution starts. */
    predicate Open(k: nat) {
      k < |artifacts| && artifacts[k] in before && before[artifacts[k]].Pending? && artifacts[k] in namespaces
    }

    /** A pending ledger source that can be bound, to layer `id`. */
    predicate Claims(k: nat, id: LayerId) {
      && Open(k) && namespaces[artifacts[k]].Ledger?
      && Bindable(answer(artifacts[k]), Ledger) && answer(artifacts[k]).layerId.value == id
    }

    /** One of the first `n` artifacts claims the layer. */
    ghost predicate Claimed(n: nat, id: LayerId) {
      exists j: nat :: j < n && Claims(j, id)
    }

    /** The source can be bound, and no earlier ledger source claims its layer. */
    ghost predicate Plannable(k: nat)
      requires Open(k)
    {
      && Bindable(answer(artifacts[k]), namespaces[artifacts[k]])
      && (namespaces[artifacts[k]].Ledger? ==> !Claimed(k, answer(artifacts[k]).layerId.value))
    }

    ghost predicate Planned(k: nat) {
      Open(k) && Plannable(k)
    }
  }

  /** Of the first `n` artifacts, the pending ones stay pending when they are plannable, and are blocked otherwise. */
  ghost predicate StatesBound(intake: Intake, n: nat, now: map<Source, State>)
    requires n <= |intake.artifacts|
  {
    && now.Keys == intake.before.Keys
    && (forall p | p in now && (!intake.before[p].Pending? || p !in intake.artifacts[..n]) :: now[p] == intake.before[p])
    && forall k: nat | k < n && intake.Open(k) :: now[intake.artifacts[k]] == if intake.Planned(k) then Pending else Blocked
  }

  /** The planned sources are the plannable ones. */
  ghost predicate PlansBound(intake: Intake, n: nat, planned: set<Source>)
    requires n <= |intake.artifacts|
  {
    planned == set k: nat | k < n && intake.Planned(k) :: intake.artifacts[k]
  }

  /** Every claimed layer belongs to the first source that claims it. */
  ghost predicate IdsBound(intake: Intake, n: nat, layerIds: map<LayerId, Source>)
    requires n <= |intake.artifacts|
  {
    && (forall id :: id in layerIds <==> intake.Claimed(n, id))
    && forall k: nat, id | k < n && intake.Claims(k, id) && !intake.Claimed(k, id) :: layerIds[id] == intake.artifacts[k]
  }

  ghost predicate Bound(intake: Intake, n: nat, now: map<Source, State>, planned: set<Source>, layerIds: map<LayerId, Source>)
    requires n <= |intake.artifacts|
  {
    StatesBound(intake, n, now) && PlansBound(intake, n, planned) && IdsBound(intake, n, layerIds)
  }

  lemma BoundStart(intake: Intake, now: map<Source, State>)
    requires now == intake.before
    ensures Bound(intake, 0, now, {}, map[])
  {
  }

  lemma NextArtifact(intake: Intake, i: nat)
    requires i < |intake.artifacts| && intake.Proper()
    ensures intake.artifacts[..i + 1] == intake.artifacts[..i] + [intake.artifacts[i]]
    ensures intake.artifacts[i] !in intake.artifacts[..i]
  {
  }

  /** The next artifact has the state it started with. */
  lemma NextUntouched(intake: Intake, i: nat, now: map<Source, State>)
    requires i < |intake.artifacts| && intake.Proper() && StatesBound(intake, i, now)
    ensures intake.artifacts[i] in now && now[intake.artifacts[i]] == intake.before[intake.artifacts[i]]
    ensures now[intake.artifacts[i]].Pending? <==> intake.Open(i)
  {
    NextArtifact(intake, i);
  }

  lemma StatesStep(intake: Intake, i: nat, now: map<Source, State>, now': map<Source, State>)
    requires i < |intake.artifacts| && intake.Proper() && StatesBound(intake, i, now)
    requires now' == if intake.Open(i) && !intake.Planned(i) then now[intake.artifacts[i] := Blocked] else now
    ensures StatesBound(intake, i + 1, now')
  {
    NextUntouched(intake, i, now);
    NextArtifact(intake, i);
    hide Intake.Planned;
  }

  lemma PlansStep(intake: Intake, i: nat, planned: set<Source>, planned': set<Source>)
    requires i < |intake.artifacts| && PlansBound(intake, i, planned)
    requires planned' == if intake.Planned(i) then planned + {intake.artifacts[i]} else planned
    ensures PlansBound(intake, i + 1, planned')
  {
    hide Intake.Planned;
  }

  lemma ClaimedStep(intake: Intake, i: nat, id: LayerId)
    ensures intake.Claimed(i + 1, id) <==> intake.Claimed(i, id) || intake.Claims(i, id)
  {
    hide Intake.Claims;
  }

  lemma {:induction false} IdsStep(intake: Intake, i: nat, layerIds: map<LayerId, Source>, layerIds': map<LayerId, Source>)
    requires i < |intake.artifacts| && IdsBound(intake, i, layerIds)
    requires (forall id :: !intake.Claims(i, id)) ==> layerIds' == layerIds
    requires forall id | intake.Claims(i, id) :: layerIds' == if id in layerIds then layerIds else layerIds[id := intake.artifacts[i]]
    ensures IdsBound(intake, i + 1, layerIds')
  {
    hide Intake.Claims, Intake.Claimed, IdsBound;
    if id :| intake.Claims(i, id) {
      IdClaimed(intake, i, layerIds, id);
    } else {
      NoIdClaimed(intake, i, layerIds);
    }
  }

  lemma {:induction false} NoIdClaimed(intake: Intake, i: nat, layerIds: map<LayerId, Source>)
    requires i < |intake.artifacts| && IdsBound(intake, i, layerIds) && forall id :: !intake.Claims(i, id)
    ensures IdsBound(intake, i + 1, layerIds)
  {
    hide Intake.Claims, Intake.Claimed;
    forall id ensures intake.Claimed(i + 1, id) <==> intake.Claimed(i, id) {
      ClaimedStep(intake, i, id);
    }
  }

  lemma {:induction false} IdClaimed(intake: Intake, i: nat, layerIds: map<LayerId, Source>, id: LayerId)
    requires i < |intake.artifacts| && IdsBound(intake, i, layerIds) && intake.Claims(i, id)
    ensures IdsBound(intake, i + 1, if id in layerIds then layerIds else layerIds[id := intake.artifacts[i]])
  {
    hide Intake.Claims, Intake.Claimed;
    var ids := if id in layerIds then layerIds else layerIds[id := intake.artifacts[i]];
    forall other ensures other in ids <==> intake.Claimed(i + 1, other) {
      ClaimedStep(intake, i, other);
      OneClaim(intake, i, id, other);
    }
    forall k: nat, other | k < i + 1 && intake.Claims(k, other) && !intake.Claimed(k, other) ensures other in ids && ids[other] == intake.artifacts[k] {
      EarlierClaim(intake, k, i, other);
      OneClaim(intake, i, id, other);
    }
  }

  lemma OneClaim(intake: Intake, k: nat, id: LayerId, other: LayerId)
    requires intake.Claims(k, id)
    ensures intake.Claims(k, other) <==> other == id
  {
  }

  lemma EarlierClaim(intake: Intake, k: nat, n: nat, id: LayerId)
    requires intake.Claims(k, id)
    ensures k < n ==> intake.Claimed(n, id)
  {
  }

  /** A layer is free for the next artifact exactly when no earlier one claims it. */
  lemma ClaimableExactly(intake: Intake, i: nat, layerIds: map<LayerId, Source>, id: LayerId)
    requires i < |intake.artifacts| && intake.Proper() && IdsBound(intake, i, layerIds)
    ensures Claimable(layerIds, id, intake.artifacts[i]) <==> id !in layerIds
    ensures id in layerIds <==> intake.Claimed(i, id)
  {
    if id in layerIds {
      var k := FirstClaim(intake, i, id);
      assert layerIds[id] == intake.artifacts[k];
    }
  }

  lemma {:induction false} FirstClaim(intake: Intake, n: nat, id: LayerId) returns (k: nat)
    requires intake.Claimed(n, id)
    ensures k < n && intake.Claims(k, id) && !intake.Claimed(k, id)
  {
    ClaimedStep(intake, n - 1, id);
    if intake.Claimed(n - 1, id) {
      k := FirstClaim(intake, n - 1, id);
    } else {
      k := n - 1;
    }
  }

  /** One source bound or blocked: what resolution did to it, in terms of the closed form. */
  lemma BoundStep(intake: Intake, i: nat, now: map<Source, State>, planned: set<Source>, layerIds: map<LayerId, Source>,
                  now': map<Source, State>, planned': set<Source>, layerIds': map<LayerId, Source>)
    requires i < |intake.artifacts| && intake.Proper() && Bound(intake, i, now, planned, layerIds) && intake.Open(i)
    requires Settled(intake.artifacts[i], intake.answer(intake.artifacts[i]), intake.namespaces[intake.artifacts[i]], now, planned, layerIds, now', planned', layerIds')
    ensures Bound(intake, i + 1, now', planned', layerIds')
  {
    SettledAsPlanned(intake, i, layerIds);
    SettledIds(intake, i, now, planned, layerIds, now', planned', layerIds');
    StatesStep(intake, i, now, now');
    PlansStep(intake, i, planned, planned');
    IdsStep(intake, i, layerIds, layerIds');
    hide *;
  }

  lemma SettledAsPlanned(intake: Intake, i: nat, layerIds: map<LayerId, Source>)
    requires i < |intake.artifacts| && intake.Proper() && IdsBound(intake, i, layerIds) && intake.Open(i)
    ensures Free(intake.artifacts[i], intake.answer(intake.artifacts[i]), intake.namespaces[intake.artifacts[i]], layerIds) <==> intake.Planned(i)
  {
    var p := intake.artifacts[i];
    if intake.namespaces[p].Ledger? && Bindable(intake.answer(p), Ledger) {
      ClaimableExactly(intake, i, layerIds, intake.answer(p).layerId.value);
    }
  }

  lemma SettledIds(intake: Intake, i: nat, now: map<Source, State>, planned: set<Source>, layerIds: map<LayerId, Source>,
                   now': map<Source, State>, planned': set<Source>, layerIds': map<LayerId, Source>)
    requires i < |intake.artifacts| && intake.Proper() && IdsBound(intake, i, layerIds) && intake.Open(i)
    requires Settled(intake.artifacts[i], intake.answer(intake.artifacts[i]), intake.namespaces[intake.artifacts[i]], now, planned, layerIds, now', planned', layerIds')
    ensures (forall id :: !intake.Claims(i, id)) ==> layerIds' == layerIds
    ensures forall id | intake.Claims(i, id) :: layerIds' == if id in layerIds then layerIds else layerIds[id := intake.artifacts[i]]
  {
    hide IdsBound, Intake.Claimed, Intake.Proper;
    var p := intake.artifacts[i];
    var answer := intake.answer(p);
    if intake.namespaces[p].Ledger? && Bindable(answer, Ledger) {
      ClaimableExactly(intake, i, layerIds, answer.layerId.value);
      assert intake.Claims(i, answer.layerId.value);
    }
  }

  /** The next artifact is untouched; when it is not pending, it needs no step. */
  lemma BoundNext(intake: Intake, i: nat, now: map<Source, State>, planned: set<Source>, layerIds: map<LayerId, Source>)
    requires i < |intake.artifacts| && intake.Proper() && Bound(intake, i, now, planned, layerIds)
    ensures intake.artifacts[i] in now && (now[intake.artifacts[i]].Pending? <==> intake.Open(i))
    ensures !intake.Open(i) ==> Bound(intake, i + 1, now, planned, layerIds)
  {
    NextUntouched(intake, i, now);
    if !intake.Open(i) {
      StatesStep(intake, i, now, now);
      PlansStep(intake, i, planned, planned);
      IdsStep(intake, i, layerIds, layerIds);
    }
  }

  lemma {:induction false} AllBound(intake: Intake, now: map<Source, State>, planned: set<Source>, layerIds: map<LayerId, Source>)
    requires intake.Proper() && Bound(intake, |intake.artifacts|, now, planned, layerIds)
    ensures forall p | p in now && now[p].Pending? :: p in planned
  {
    hide Intake.Planned;
    assert intake.artifacts[..|intake.artifacts|] == intake.artifacts;
    forall p | p in now && now[p].Pending? ensures p in planned {
      var k: nat :| k < |intake.artifacts| && intake.artifacts[k] == p;
      assert intake.Open(k);
    }
  }

  lemma BoundSteady(intake: Intake, n: nat, now: map<Source, State>, planned: set<Source>, layerIds: map<LayerId, Source>)
    requires n <= |intake.artifacts| && Bound(intake, n, now, planned, layerIds)
    ensures Steady(intake.before, now)
  {
  }

  /** The source can be bound, and its layer is not another's. */
  predicate Free(p: Source, answer: Resolution, n: Namespace, layerIds: map<LayerId, Source>) {
    Bindable(answer, n) && (n.Ledger? ==> Claimable(layerIds, answer.layerId.value, p))
  }

  /** What resolving one pending source does: it is planned, and its layer claimed, or it is blocked. */
  ghost predicate Settled(p: Source, answer: Resolution, n: Namespace, now: map<Source, State>, planned: set<Source>, layerIds: map<LayerId, Source>,
                          now': map<Source, State>, planned': set<Source>, layerIds': map<LayerId, Source>) {
    if Free(p, answer, n, layerIds)
    then now' == now && planned' == planned + {p} && layerIds' == (if n.Ledger? then layerIds[answer.layerId.value := p] else layerIds)
    else now' == now[p := Blocked] && planned' == planned && layerIds' == layerIds
  }

  predicate Claimable(layerIds: map<LayerId, Source>, id: LayerId, p: Source) {
    id in layerIds ==> layerIds[id] == p
  }

  lemma ClaimStep(layerIds: map<LayerId, Source>, layerOf: map<Source, LayerId>, id: LayerId, p: Source)
    requires forall q | q in layerOf :: layerOf[q] in layerIds && layerIds[layerOf[q]] == q
    requires Claimable(layerIds, id, p)
    ensures var ids, of := layerIds[id := p], layerOf[p := id];
      forall q | q in of :: of[q] in ids && ids[of[q]] == q
  {
  }

  /** The state a source has after validation. */
  function Validated(answer: Source -> Validation): Source -> State {
    p => if answer(p) == Failures([]) then Pending else Rejected
  }

  /** The state a source has after ingestion. */
  function LastState(n: Namespace, s: Saving): State {
    if n.Ledger? then Delegated
    else
      match s
      case Saved(alreadyBound) => if alreadyBound then AlreadyBound else Ingested
      case IngestRefused => Rejected
      case _ => Blocked
  }

  function LastStates(namespaces: map<Source, Namespace>, answer: Source -> Saving): Source -> State {
    p => LastState(if p in namespaces then namespaces[p] else Storage, answer(p))
  }

  /** The pending ones among the first `n` artifacts went to their `next` state; nothing else changed. */
  ghost predicate Moved(before: map<Source, State>, now: map<Source, State>, artifacts: seq<Source>, n: nat, next: Source -> State)
    requires n <= |artifacts|
  {
    && now.Keys == before.Keys
    && forall p | p in before :: now[p] == if before[p].Pending? && p in artifacts[..n] then next(p) else before[p]
  }

  lemma MoveStep(before: map<Source, State>, now: map<Source, State>, artifacts: seq<Source>, i: nat, next: Source -> State)
    requires i < |artifacts| && Moved(before, now, artifacts, i, next) && Listed(before, artifacts)
    ensures artifacts[i] in before && artifacts[i] in now && now[artifacts[i]] == before[artifacts[i]]
    ensures before[artifacts[i]].Pending? ==> Moved(before, now[artifacts[i] := next(artifacts[i])], artifacts, i + 1, next)
    ensures !before[artifacts[i]].Pending? || next(artifacts[i]).Pending? ==> Moved(before, now, artifacts, i + 1, next)
  {
    assert artifacts[..i + 1] == artifacts[..i] + [artifacts[i]];
    assert artifacts[i] !in artifacts[..i];
  }

  /** The artifacts are distinct and have states, and all pending sources are among them. */
  ghost predicate Listed(states: map<Source, State>, artifacts: seq<Source>) {
    && (forall p | p in artifacts :: p in states)
    && (forall p | p in states && states[p].Pending? :: p in artifacts)
    && forall j, k :: 0 <= j < k < |artifacts| ==> artifacts[j] != artifacts[k]
  }

  lemma ListedArtifacts(states: map<Source, State>, artifacts: seq<Source>, namespaces: map<Source, Namespace>)
    requires Catalogued(states, artifacts, namespaces)
    ensures Listed(states, artifacts)
  {
  }

  lemma NoneMoved(before: map<Source, State>, artifacts: seq<Source>, next: Source -> State)
    ensures Moved(before, before, artifacts, 0, next)
  {
  }

  lemma MovedSteady(before: map<Source, State>, now: map<Source, State>, artifacts: seq<Source>, n: nat, next: Source -> State)
    requires n <= |artifacts| && Moved(before, now, artifacts, n, next)
    ensures Steady(before, now)
  {
  }

  lemma AllMoved(before: map<Source, State>, now: map<Source, State>, artifacts: seq<Source>, next: Source -> State)
    requires Moved(before, now, artifacts, |artifacts|, next) && Listed(before, artifacts)
    ensures forall p | p in before && before[p].Pending? :: now[p] == next(p)
  {
    assert artifacts[..|artifacts|] == artifacts;
  }

  lemma PendingValidated(before: map<Source, State>, now: map<Source, State>, artifacts: seq<Source>, answer: Source -> Validation)
    requires Moved(before, now, artifacts, |artifacts|, Validated(answer)) && Listed(before, artifacts)
    ensures forall p | p in now && now[p].Pending? :: answer(p) == Failures([])
  {
    AllMoved(before, now, artifacts, Validated(answer));
    MovedSteady(before, now, artifacts, |artifacts|, Validated(answer));
    hide Moved, Listed;
  }

  lemma NonePending(before: map<Source, State>, now: map<Source, State>, artifacts: seq<Source>, namespaces: map<Source, Namespace>, answer: Source -> Saving)
    requires Moved(before, now, artifacts, |artifacts|, LastStates(namespaces, answer)) && Listed(before, artifacts)
    ensures forall p | p in now :: !now[p].Pending?
  {
    AllMoved(before, now, artifacts, LastStates(namespaces, answer));
    MovedSteady(before, now, artifacts, |artifacts|, LastStates(namespaces, answer));
    hide Moved, Listed;
  }

  /** Every pending source is planned. */
  predicate AllPlanned(states: map<Source, State>, plans: map<Source, Option<string>>) {
    forall p | p in states && states[p].Pending? :: p in plans
  }

  lemma BlockingExplains(states: map<Source, State>, issues: seq<Issue>, blocking: nat)
    requires Explained(states, issues, blocking)
    ensures blocking == 0 ==> forall p | p in states :: !states[p].Refused()
  {
    CountBlockingZero(issues);
  }

  // --------------------------------------------------------------------------
  // Readiness, on the answers of the outside world alone
  // --------------------------------------------------------------------------

  /** The path is not looked at. */
  predicate LeftAlone(e: Entry) {
    e.exclusion.Some? || !e.candidate
  }

  /** The path holds an artifact. */
  predicate Taken(e: Entry) {
    e.candidate && e.exclusion.None? && e.inside && !e.directory && e.content.Recognized?
  }

  predicate ToLedger(e: Entry, routeLayers: bool) {
    Taken(e) && e.content.layer && routeLayers
  }

  function LedgerPaths(entries: seq<Entry>, routeLayers: bool): set<Source> {
    set e | e in entries && ToLedger(e, routeLayers) :: e.path
  }

  /** The artifact passes every stage up to its store. */
  predicate GoesIn(s: Scenario, e: Entry, routeLayers: bool) {
    var bound := s.resolution(e.path);
    && s.validation(e.path) == Failures([]) && !s.validationBudget(e.path)
    && bound.Resolved? && (bound.repository.Some? ==> !s.registrationRaises(bound.repository.value))
    && !s.ingestBudget(e.path)
    && if ToLedger(e, routeLayers) then bound.repository.Some? && bound.layerId.Some? else s.saving(e.path).Saved?
  }

  /** The load ends without an exception and without a blocking issue. */
  ghost predicate Loaded(s: Scenario, routeLayers: bool) {
    && !s.bootstrapRaises && !s.pinsChanged
    && (exists e :: e in s.entries && Taken(e))
    && (forall e | e in s.entries :: !e.budgetSpent && (LeftAlone(e) || (Taken(e) && GoesIn(s, e, routeLayers))))
    && forall e, f | e in s.entries && f in s.entries && ToLedger(e, routeLayers) && ToLedger(f, routeLayers) && e.path != f.path ::
         s.resolution(e.path).layerId != s.resolution(f.path).layerId
  }

  /** So does everything after it: the checks of source and target, the budget, and the ledger for the delegated layers. */
  ghost predicate Smooth(s: Scenario, routeLayers: bool) {
    && Loaded(s, routeLayers)
    && !s.sourcesChanged && !s.targetDiffers && !s.budgetSpentAfterLoad && !s.budgetSpentAtEnd
    && (LedgerPaths(s.entries, routeLayers) == {} || LedgerDone(s.ledger, LedgerPaths(s.entries, routeLayers)))
  }

  predicate NoneRefused(states: map<Source, State>) {
    forall p | p in states :: !states[p].Refused()
  }

  /** Every blocking issue so far refused a source. */
  predicate Calm(states: map<Source, State>, blocking: nat) {
    NoneRefused(states) ==> blocking == 0
  }

  /** No issue is lost, and new blocking ones refuse sources. */
  predicate Grown(before: map<Source, State>, was: nat, states: map<Source, State>, blocking: nat) {
    blocking >= was && (Calm(before, was) ==> Calm(states, blocking))
  }

  lemma CalmPut(states: map<Source, State>, blocking: nat, p: Source, state: State, more: nat)
    requires p in states ==> states[p].Pending?
    ensures Calm(states, blocking) && (more == blocking || state.Refused()) ==> Calm(states[p := state], more)
  {
    var next := states[p := state];
    if state.Refused() {
      assert next[p].Refused();
    }
    forall q | q in states && states[q].Refused() ensures q in next && next[q].Refused() {
    }
  }

  lemma LoadStarts(s: Scenario, routeLayers: bool)
    ensures Loaded(s, routeLayers) ==> !s.bootstrapRaises && !s.pinsChanged && forall e | e in s.entries :: !e.budgetSpent
  {
  }

  /** A pending source is an artifact of the tree; under a smooth load it passes every stage. */
  lemma PendingEntry(s: Scenario, m0: map<Source, State>, p: Source) returns (e: Entry)
    requires Inventoried(s.entries, m0) && p in m0
    ensures e in s.entries && e.path == p && m0[p] == FirstState(e) && (m0[p].Pending? <==> Taken(e))
    ensures !m0[p].Refused() <==> LeftAlone(e) || Taken(e)
  {
    e :| e in s.entries && e.path == p;
  }

  lemma LoadValidates(s: Scenario, routeLayers: bool, m0: map<Source, State>)
    requires Inventoried(s.entries, m0)
    ensures Loaded(s, routeLayers) ==> forall p | p in m0 && m0[p].Pending? ::
      !s.validationBudget(p) && s.validation(p) == Failures([]) && s.resolution(p).Resolved? && !s.ingestBudget(p)
  {
    if Loaded(s, routeLayers) {
      forall p | p in m0 && m0[p].Pending?
        ensures !s.validationBudget(p) && s.validation(p) == Failures([]) && s.resolution(p).Resolved? && !s.ingestBudget(p)
      {
        var e := PendingEntry(s, m0, p);
      }
    }
  }

  lemma LoadResolves(s: Scenario, routeLayers: bool, m0: map<Source, State>, m1: map<Source, State>, artifacts: seq<Source>)
    requires Inventoried(s.entries, m0) && Moved(m0, m1, artifacts, |artifacts|, Validated(s.validation))
    ensures Loaded(s, routeLayers) ==> m1 == m0 && forall p | p in m1 && m1[p].Pending? :: !s.resolution(p).ResolutionRaises?
  {
    LoadValidates(s, routeLayers, m0);
    hide Loaded, Inventoried;
  }

  /** Distinct layers are claimed, so every pending source is plannable. */
  lemma AllPlannable(s: Scenario, routeLayers: bool, m0: map<Source, State>, artifacts: seq<Source>, namespaces: map<Source, Namespace>, k: nat)
    requires Loaded(s, routeLayers) && Inventoried(s.entries, m0) && Spaced(s.entries, routeLayers, namespaces) && Listed(m0, artifacts)
    requires var intake := Intake(m0, namespaces, artifacts, s.resolution); intake.Open(k)
    ensures Intake(m0, namespaces, artifacts, s.resolution).Planned(k)
  {
    var intake := Intake(m0, namespaces, artifacts, s.resolution);
    var e := PendingEntry(s, m0, artifacts[k]);
    forall j: nat | j < k && intake.Open(j) && namespaces[artifacts[j]].Ledger? && namespaces[artifacts[k]].Ledger?
      ensures s.resolution(artifacts[j]).layerId != s.resolution(artifacts[k]).layerId
    {
      var f := PendingEntry(s, m0, artifacts[j]);
      assert artifacts[j] != artifacts[k];
    }
  }

  lemma LoadBinds(s: Scenario, routeLayers: bool, m0: map<Source, State>, m2: map<Source, State>,
                  artifacts: seq<Source>, namespaces: map<Source, Namespace>)
    requires Loaded(s, routeLayers) && Inventoried(s.entries, m0) && Spaced(s.entries, routeLayers, namespaces) && Listed(m0, artifacts)
    requires StatesBound(Intake(m0, namespaces, artifacts, s.resolution), |artifacts|, m2)
    ensures m2 == m0
  {
    var intake := Intake(m0, namespaces, artifacts, s.resolution);
    forall p | p in m0 ensures m2[p] == m0[p] {
      if m0[p].Pending? {
        var e := PendingEntry(s, m0, p);
        var k: nat :| k < |artifacts| && artifacts[k] == p;
        assert intake.Open(k);
        AllPlannable(s, routeLayers, m0, artifacts, namespaces, k);
      }
    }
  }

  /** What inventory, validation and resolution leave behind when no exception stopped them. */
  ghost predicate Prepared(s: Scenario, routeLayers: bool, m0: map<Source, State>, m1: map<Source, State>, m2: map<Source, State>,
                           artifacts: seq<Source>, namespaces: map<Source, Namespace>, plans: map<Source, Option<string>>, layerIds: map<LayerId, Source>) {
    && Inventoried(s.entries, m0) && Spaced(s.entries, routeLayers, namespaces) && Listed(m0, artifacts)
    && (forall p | p in artifacts :: p in m0 && m0[p].Pending?)
    && Moved(m0, m1, artifacts, |artifacts|, Validated(s.validation))
    && Bound(Intake(m1, namespaces, artifacts, s.resolution), |artifacts|, m2, plans.Keys, layerIds)
    && PlansAnswered(plans, s.resolution) && AllPlanned(m2, plans)
    && !s.bootstrapRaises && (forall e | e in s.entries :: !e.budgetSpent)
    && forall p | p in m0 && m0[p].Pending? :: !s.validationBudget(p)
  }

  /** Under a smooth load neither registration nor the store raises for any pending source. */
  lemma LoadRegisters(s: Scenario, routeLayers: bool, m0: map<Source, State>, m1: map<Source, State>, m2: map<Source, State>,
                      artifacts: seq<Source>, namespaces: map<Source, Namespace>, plans: map<Source, Option<string>>, layerIds: map<LayerId, Source>)
    requires Prepared(s, routeLayers, m0, m1, m2, artifacts, namespaces, plans, layerIds)
    ensures Loaded(s, routeLayers) ==> m2 == m0 && forall p | p in m2 && m2[p].Pending? && p in plans && plans[p].Some? :: !s.registrationRaises(plans[p].value)
    ensures Loaded(s, routeLayers) ==> forall p | p in m2 && m2[p].Pending? :: Stores(namespaces, s.saving, s.ingestBudget)(p)
  {
    if Loaded(s, routeLayers) {
      LoadResolves(s, routeLayers, m0, m1, artifacts);
      LoadBinds(s, routeLayers, m0, m2, artifacts, namespaces);
      LoadStores(s, routeLayers, m0, namespaces);
      forall p | p in m2 && m2[p].Pending? && p in plans && plans[p].Some? ensures !s.registrationRaises(plans[p].value) {
        var e := PendingEntry(s, m0, p);
      }
    }
  }

  lemma LoadStores(s: Scenario, routeLayers: bool, m0: map<Source, State>, namespaces: map<Source, Namespace>)
    requires Loaded(s, routeLayers) && Inventoried(s.entries, m0) && Spaced(s.entries, routeLayers, namespaces)
    ensures forall p | p in m0 && m0[p].Pending? :: Stores(namespaces, s.saving, s.ingestBudget)(p)
  {
    forall p | p in m0 && m0[p].Pending? ensures Stores(namespaces, s.saving, s.ingestBudget)(p) {
      var e := PendingEntry(s, m0, p);
    }
  }

  /** The states after each stage of a load that no exception stopped. */
  ghost predicate Staged(s: Scenario, routeLayers: bool, m0: map<Source, State>, m1: map<Source, State>, m2: map<Source, State>, m3: map<Source, State>,
                         artifacts: seq<Source>, namespaces: map<Source, Namespace>) {
    && Inventoried(s.entries, m0) && Spaced(s.entries, routeLayers, namespaces) && Listed(m0, artifacts)
    && Moved(m0, m1, artifacts, |artifacts|, Validated(s.validation))
    && StatesBound(Intake(m1, namespaces, artifacts, s.resolution), |artifacts|, m2)
    && Moved(m2, m3, artifacts, |artifacts|, LastStates(namespaces, s.saving))
  }

  /** A state that ends unrefused was never refused: the pending source went through every stage. */
  lemma UnrefusedSource(s: Scenario, routeLayers: bool, m0: map<Source, State>, m1: map<Source, State>, m2: map<Source, State>, m3: map<Source, State>,
                        artifacts: seq<Source>, namespaces: map<Source, Namespace>, p: Source) returns (k: nat)
    requires Staged(s, routeLayers, m0, m1, m2, m3, artifacts, namespaces) && p in m0 && p in m3 && m0[p].Pending? && !m3[p].Refused()
    requires p in namespaces
    ensures s.validation(p) == Failures([]) && p in m2 && m2[p].Pending? && m3[p] == LastState(namespaces[p], s.saving(p))
    ensures k < |artifacts| && artifacts[k] == p && Intake(m1, namespaces, artifacts, s.resolution).Planned(k)
  {
    hide Intake.Planned, Inventoried, Spaced;
    assert artifacts[..|artifacts|] == artifacts;
    k :| k < |artifacts| && artifacts[k] == p;
    assert m1[p] == Validated(s.validation)(p);
    if m1[p].Pending? {
      assert Intake(m1, namespaces, artifacts, s.resolution).Open(k);
    }
  }

  lemma UnrefusedEntry(s: Scenario, routeLayers: bool, m0: map<Source, State>, m1: map<Source, State>, m2: map<Source, State>, m3: map<Source, State>,
                       artifacts: seq<Source>, namespaces: map<Source, Namespace>, e: Entry) returns (k: nat)
    requires Staged(s, routeLayers, m0, m1, m2, m3, artifacts, namespaces) && NoneRefused(m3) && e in s.entries && Taken(e)
    ensures s.validation(e.path) == Failures([]) && e.path in m2 && m2[e.path].Pending? && e.path in m0 && m0[e.path].Pending?
    ensures e.path in namespaces && (namespaces[e.path].Ledger? <==> ToLedger(e, routeLayers))
    ensures s.resolution(e.path).Resolved?
    ensures ToLedger(e, routeLayers) ==> s.resolution(e.path).repository.Some? && s.resolution(e.path).layerId.Some?
    ensures !ToLedger(e, routeLayers) ==> s.saving(e.path).Saved?
    ensures k < |artifacts| && artifacts[k] == e.path && Intake(m1, namespaces, artifacts, s.resolution).Planned(k)
  {
    assert e.path in m0 && m0[e.path] == FirstState(e);
    k := UnrefusedSource(s, routeLayers, m0, m1, m2, m3, artifacts, namespaces, e.path);
  }

  lemma UnrefusedLayers(s: Scenario, routeLayers: bool, m0: map<Source, State>, m1: map<Source, State>, m2: map<Source, State>, m3: map<Source, State>,
                        artifacts: seq<Source>, namespaces: map<Source, Namespace>, e: Entry, f: Entry)
    requires Staged(s, routeLayers, m0, m1, m2, m3, artifacts, namespaces) && NoneRefused(m3)
    requires e in s.entries && f in s.entries && ToLedger(e, routeLayers) && ToLedger(f, routeLayers) && e.path != f.path
    ensures s.resolution(e.path).layerId != s.resolution(f.path).layerId
  {
    var j := UnrefusedEntry(s, routeLayers, m0, m1, m2, m3, artifacts, namespaces, e);
    var k := UnrefusedEntry(s, routeLayers, m0, m1, m2, m3, artifacts, namespaces, f);
    hide Staged, Inventoried, Spaced, NoneRefused;
    var intake := Intake(m1, namespaces, artifacts, s.resolution);
    assert intake.Claims(j, s.resolution(e.path).layerId.value) && intake.Claims(k, s.resolution(f.path).layerId.value);
  }

  lemma NeverRefused(s: Scenario, routeLayers: bool, m0: map<Source, State>, m1: map<Source, State>, m2: map<Source, State>, m3: map<Source, State>,
                     artifacts: seq<Source>, namespaces: map<Source, Namespace>)
    requires Staged(s, routeLayers, m0, m1, m2, m3, artifacts, namespaces) && NoneRefused(m3)
    ensures NoneRefused(m0) && m0.Keys == m3.Keys
  {
    hide Inventoried, Spaced, Intake.Planned;
    assert forall p | p in m0 && !m0[p].Pending? :: m3[p] == m0[p];
  }

  lemma UnrefusedUnlessBlocking(states: map<Source, State>, issues: seq<Issue>, blocking: nat)
    requires Explained(states, issues, blocking)
    ensures blocking == 0 ==> NoneRefused(states)
  {
    BlockingExplains(states, issues, blocking);
  }

  /** A load that ran to its end without a refused source, exactly when the answers say so. */
  lemma LoadedExactly(s: Scenario, routeLayers: bool, m0: map<Source, State>, m1: map<Source, State>, m2: map<Source, State>, m3: map<Source, State>,
                      artifacts: seq<Source>, namespaces: map<Source, Namespace>, plans: map<Source, Option<string>>, layerIds: map<LayerId, Source>)
    requires DistinctPaths(s.entries) && Prepared(s, routeLayers, m0, m1, m2, artifacts, namespaces, plans, layerIds) && !s.pinsChanged
    requires Moved(m2, m3, artifacts, |artifacts|, LastStates(namespaces, s.saving))
    requires forall p | p in m2 && m2[p].Pending? && p in plans && plans[p].Some? :: !s.registrationRaises(plans[p].value)
    requires forall p | p in m2 && m2[p].Pending? :: Stores(namespaces, s.saving, s.ingestBudget)(p)
    ensures Loaded(s, routeLayers) <==> artifacts != [] && NoneRefused(m3)
    ensures Loaded(s, routeLayers) ==> (set p | p in m3 && m3[p].Delegated?) == LedgerPaths(s.entries, routeLayers)
  {
    hide Loaded, Inventoried, Spaced, Listed, Moved, StatesBound, LedgerPaths;
    if artifacts != [] && NoneRefused(m3) {
      EndsLoaded(s, routeLayers, m0, m1, m2, m3, artifacts, namespaces, plans);
    }
    if Loaded(s, routeLayers) {
      LoadResolves(s, routeLayers, m0, m1, artifacts);
      LoadBinds(s, routeLayers, m0, m2, artifacts, namespaces);
      LoadedEnds(s, routeLayers, m0, m3, artifacts, namespaces);
    }
  }

  lemma EndsLoaded(s: Scenario, routeLayers: bool, m0: map<Source, State>, m1: map<Source, State>, m2: map<Source, State>, m3: map<Source, State>,
                   artifacts: seq<Source>, namespaces: map<Source, Namespace>, plans: map<Source, Option<string>>)
    requires Staged(s, routeLayers, m0, m1, m2, m3, artifacts, namespaces) && artifacts != [] && NoneRefused(m3)
    requires (forall p | p in artifacts :: p in m0 && m0[p].Pending?) && PlansAnswered(plans, s.resolution) && AllPlanned(m2, plans)
    requires !s.bootstrapRaises && !s.pinsChanged && forall e | e in s.entries :: !e.budgetSpent
    requires forall p | p in m0 && m0[p].Pending? :: !s.validationBudget(p)
    requires forall p | p in m2 && m2[p].Pending? && p in plans && plans[p].Some? :: !s.registrationRaises(plans[p].value)
    requires forall p | p in m2 && m2[p].Pending? :: Stores(namespaces, s.saving, s.ingestBudget)(p)
    ensures Loaded(s, routeLayers)
  {
    NeverRefused(s, routeLayers, m0, m1, m2, m3, artifacts, namespaces);
    assert Inventoried(s.entries, m0);
    var one := PendingEntry(s, m0, artifacts[0]);
    forall e | e in s.entries ensures LeftAlone(e) || (Taken(e) && GoesIn(s, e, routeLayers)) {
      assert e.path in m0 && m0[e.path] == FirstState(e);
      if Taken(e) {
        var k := UnrefusedEntry(s, routeLayers, m0, m1, m2, m3, artifacts, namespaces, e);
        assert e.path in plans && plans[e.path] == s.resolution(e.path).repository;
      }
    }
    forall e, f | e in s.entries && f in s.entries && ToLedger(e, routeLayers) && ToLedger(f, routeLayers) && e.path != f.path
      ensures s.resolution(e.path).layerId != s.resolution(f.path).layerId
    {
      UnrefusedLayers(s, routeLayers, m0, m1, m2, m3, artifacts, namespaces, e, f);
    }
  }

  lemma LoadedEnds(s: Scenario, routeLayers: bool, m0: map<Source, State>, m3: map<Source, State>, artifacts: seq<Source>, namespaces: map<Source, Namespace>)
    requires DistinctPaths(s.entries)
    requires Loaded(s, routeLayers) && Inventoried(s.entries, m0) && Spaced(s.entries, routeLayers, namespaces) && Listed(m0, artifacts)
    requires Moved(m0, m3, artifacts, |artifacts|, LastStates(namespaces, s.saving)) && forall p | p in artifacts :: p in m0 && m0[p].Pending?
    ensures artifacts != [] && NoneRefused(m3)
    ensures (set p | p in m3 && m3[p].Delegated?) == LedgerPaths(s.entries, routeLayers)
  {
    forall p | p in m3 ensures !m3[p].Refused() && (m3[p].Delegated? <==> p in LedgerPaths(s.entries, routeLayers)) {
      LoadedEnd(s, routeLayers, m0, m3, artifacts, namespaces, p);
    }
    hide Spaced, Moved;
    var one :| one in s.entries && Taken(one);
    assert one.path in m0 && m0[one.path].Pending?;
    LedgerPathsKnown(s, routeLayers, m0);
  }

  lemma LedgerPathsKnown(s: Scenario, routeLayers: bool, m0: map<Source, State>)
    requires Inventoried(s.entries, m0)
    ensures LedgerPaths(s.entries, routeLayers) <= m0.Keys
  {
  }

  lemma LoadedEnd(s: Scenario, routeLayers: bool, m0: map<Source, State>, m3: map<Source, State>, artifacts: seq<Source>, namespaces: map<Source, Namespace>, p: Source)
    requires DistinctPaths(s.entries)
    requires Loaded(s, routeLayers) && Inventoried(s.entries, m0) && Spaced(s.entries, routeLayers, namespaces) && Listed(m0, artifacts)
    requires Moved(m0, m3, artifacts, |artifacts|, LastStates(namespaces, s.saving)) && p in m3
    ensures !m3[p].Refused() && (m3[p].Delegated? <==> p in LedgerPaths(s.entries, routeLayers))
  {
    var e := PendingEntry(s, m0, p);
    OneEntry(s, routeLayers, m0, e);
    AllMoved(m0, m3, artifacts, LastStates(namespaces, s.saving));
    assert m3[p] == if m0[p].Pending? then LastStates(namespaces, s.saving)(p) else m0[p];
    hide Inventoried, Moved, Listed, LedgerPaths, DistinctPaths;
  }

  /** All entries of a path agree on its state, and so on whether it goes to the ledger. */
  lemma OneEntry(s: Scenario, routeLayers: bool, m0: map<Source, State>, e: Entry)
    requires Inventoried(s.entries, m0) && e in s.entries && DistinctPaths(s.entries)
    ensures e.path in LedgerPaths(s.entries, routeLayers) <==> ToLedger(e, routeLayers)
  {
    if e.path in LedgerPaths(s.entries, routeLayers) {
      var f :| f in s.entries && ToLedger(f, routeLayers) && f.path == e.path;
      var i :| 0 <= i < |s.entries| && s.entries[i] == e;
      var j :| 0 <= j < |s.entries| && s.entries[j] == f;
      assert i == j;
    }
  }

  // What the stages ask of one source.

  ghost function Validates(answer: Source -> Validation, budgetSpent: Source -> bool): Source -> bool {
    p => !budgetSpent(p) && answer(p).Failures?
  }

  ghost function Resolves(answer: Source -> Resolution): Source -> bool {
    p => !answer(p).ResolutionRaises?
  }

  ghost function Stores(namespaces: map<Source, Namespace>, answer: Source -> Saving, budgetSpent: Source -> bool): Source -> bool {
    p => !budgetSpent(p) && (p in namespaces && namespaces[p].Storage? ==> !answer(p).SavingRaises?)
  }

  /** All sources of the list that were pending before the stage do. */
  ghost predicate AllIn(before: map<Source, State>, sources: seq<Source>, asked: Source -> bool) {
    forall p | p in sources && p in before && before[p].Pending? :: asked(p)
  }

  lemma AllInStep(before: map<Source, State>, artifacts: seq<Source>, i: nat, asked: Source -> bool)
    requires i < |artifacts|
    ensures AllIn(before, artifacts[..i + 1], asked) <==>
      AllIn(before, artifacts[..i], asked) && (artifacts[i] in before && before[artifacts[i]].Pending? ==> asked(artifacts[i]))
  {
    assert artifacts[..i + 1] == artifacts[..i] + [artifacts[i]];
  }

  lemma AllInAll(before: map<Source, State>, artifacts: seq<Source>, asked: Source -> bool)
    requires forall p | p in before && before[p].Pending? :: p in artifacts
    ensures AllIn(before, artifacts[..|artifacts|], asked) <==> forall p | p in before && before[p].Pending? :: asked(p)
  {
    assert artifacts[..|artifacts|] == artifacts;
  }

  /** The plan of a source names the repository that resolution found. */
  predicate PlansAnswered(plans: map<Source, Option<string>>, answer: Source -> Resolution) {
    forall p | p in plans :: answer(p).Resolved? && plans[p] == answer(p).repository
  }

  /** The artifacts among the entries go where their content sends them. */
  ghost predicate Spaced(entries: seq<Entry>, routeLayers: bool, namespaces: map<Source, Namespace>) {
    forall e | e in entries && FirstState(e).Pending? :: e.path in namespaces && namespaces[e.path] == NamespaceOf(e.content, routeLayers)
  }

  lemma SpacedStep(entries: seq<Entry>, i: nat, routeLayers: bool, namespaces: map<Source, Namespace>)
    requires i < |entries| && DistinctPaths(entries) && Spaced(entries[..i], routeLayers, namespaces)
    ensures var e := entries[i];
      Spaced(entries[..i + 1], routeLayers, if FirstState(e).Pending? then namespaces[e.path := NamespaceOf(e.content, routeLayers)] else namespaces)
  {
    assert entries[..i + 1] == entries[..i] + [entries[i]];
  }

  // --------------------------------------------------------------------------
  // Inventory, on values
  // --------------------------------------------------------------------------

  ghost predicate DistinctPaths(entries: seq<Entry>) {
    forall i, j :: 0 <= i < j < |entries| ==> entries[i].path != entries[j].path
  }

  function NamespaceOf(c: Content, routeLayers: bool): Namespace {
    if c.Recognized? && c.layer && routeLayers then Ledger else Storage
  }

  /** The state of a path right after inventory. */
  function FirstState(e: Entry): State {
    if !e.candidate && e.exclusion.None? then Unselected
    else if e.exclusion.Some? then Excluded
    else if !e.inside || e.directory then Rejected
    else
      match e.content
      case Recognized(_) => Pending
      case Undiscovered(_) => Unrecognized
      case _ => Rejected
  }

  /** Every path of the tree has its first state, and nothing else has one. */
  ghost predicate Inventoried(entries: seq<Entry>, states: map<Source, State>) {
    && (forall e | e in entries :: e.path in states && states[e.path] == FirstState(e))
    && forall p | p in states :: exists e :: e in entries && e.path == p
  }

  lemma InventoriedPaths(entries: seq<Entry>, states: map<Source, State>)
    requires Inventoried(entries, states)
    ensures states.Keys == Paths(entries)
  {
  }

  lemma FreshPath(entries: seq<Entry>, i: nat, states: map<Source, State>)
    requires i < |entries| && DistinctPaths(entries) && Inventoried(entries[..i], states)
    ensures entries[i].path !in states
  {
  }

  lemma InventoryStep(entries: seq<Entry>, i: nat, states: map<Source, State>)
    requires i < |entries| && DistinctPaths(entries) && Inventoried(entries[..i], states)
    ensures Inventoried(entries[..i + 1], states[entries[i].path := FirstState(entries[i])])
  {
    assert entries[..i + 1] == entries[..i] + [entries[i]];
  }
}

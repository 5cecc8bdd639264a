# Verified model of the Traust engine core

This project models the parts of the Traust engine whose promises span several
functions, and proves those promises in Dafny. Code that works by changing things
step by step is modelled by methods and classes that are proved against
specification functions; the promises themselves are lemmas about those functions
and postconditions of the methods. `dafny verify dfyconfig.toml` checks everything.

| file | models |
|---|---|
| `Characters.dfy`, `TextOrder.dfy`, `Findings.dfy` | character classes; the order of strings; reports, findings, and the computations that live in other packages as parameters |
| `MatchLadder.dfy` | the four-tier matcher between two audit reports |
| `Layers.dfy`, `Disposition.dfy` | a ledger layer; alias resolution, event routing, replay, the claim-hash guard |
| `Rebaseline.dfy`, `History.dfy` | what a rebaseline does to a layer, and the joint promise that history is never silently lost |
| `LedgerSnapshots.dfy` | the ledger service: binding, marker-then-layer export, refresh, every write, crashes between steps |
| `MigrationRun.dfy` | the migration rehearsal: one state per source, issues, and the readiness verdict |
| `RowKeys.dfy`, `PythonRepr.dfy`, `Reconciliation.dfy` | row keys, their printed form and fingerprints; the multiset reconciliation of everything written |
| `ValidationWorkers.dfy` | the bounded look-ahead worker window |
| `CallerExpansion.dfy` | the level-by-level caller search and the merge over symbols |
| `OsvCoverage.dfy` | declared packages, transitive resolution, which manifests count as resolved |
| `Precedent.dfy` | the precedent cache with its two indexes |
| `JsonScript.dfy`, `Fence.dfy` | JSON in a script element and text in a Markdown fence, each with its standard reader |
| `Elf.dfy`, `ElfImage.dfy` | needed libraries of an ELF image; a printer of whole images |
| `DiffReader.dfy` | the reader of staged additions, with a printer of the diff format |
| `Stamping.dfy` | fingerprint stamps, and the bulk re-stamp of a tree |

## Where code and documentation disagree

The model follows the code. Each point below has a lemma with a concrete input or
an exact condition.

- "Never silently lost" does not mean "waits for a human". The event of an unmatched finding
  goes to an unrelated new finding that reuses its legacy id (`History.LegacyIdReuse`), or to
  one that a confirmed alias in the shared layer leads to, be it of another report
  (`History.ForeignAliasMisleads`). Without either, and only then, it is parked
  (`History.UnmatchedParkedExactly`). And a human who closes the queued decision on an
  unaliased finding makes later replays fail (`History.ClosingLosesExactly`).
- `_refresh` promises that a failed export removes the stale snapshot, but only for
  operating-system errors. A ledger error while reading the layer back, and a marked old file
  that is not UTF-8, escape after the commit: the caller sees a failure, and the old snapshot
  stays (`LedgerSnapshots.LedgerService.Refresh`, `LedgerSnapshots.LedgerService.Write`). A
  stale file also stays when its unlink fails, and it stays unmarked when only the marker can be
  removed; an unreadable file is removed in this way even when it is up to date
  (`LedgerSnapshots.RefreshFreshExactly`, `LedgerSnapshots.RefreshMarkedExactly`).
- The row key treats `1.0` and `1` as equal, but the fingerprint hashes its printed form
  and tells them apart (`RowKeys.OnePointZeroIsNotOne`).
- "Maven takes the version the project declares": neither a default version nor a tree node is
  checked against names that are declared without a version, and a default is not checked
  against names that are declared with one. So a second version can be listed unless every name
  without a version is declared nowhere with one and is the only Maven dependency to resolve
  (`OsvCoverage.MavenRuleExactly`, `OsvCoverage.Misleading`).
- "A match requires a path hit": a finding whose stamp is cached matches without one
  (`Precedent.StampNeedsNoPath`), and the text that a signature hashes joins paths with `;`, so
  the file `a;b` has the signature of the files `a` and `b` (`Precedent.JoinedPathsCollide`).
  The rule holds for all findings with a stamp exactly when the stamp is not cached and no
  cached signature text can be misread (`Precedent.StampDecidesRule`).
- The bulk re-stamp refuses as a whole, but a report whose metadata is null, false, zero or an
  empty text or list, or with an unstamped finding that cannot be hashed, stops its writing
  pass after earlier reports were written; with leave to move identities, so does any malformed
  document (`Stamping.AllOrNothingExactly`, `Stamping.WhatStopsWriting`, `Stamping.HalfRun`).
- File mode refuses to write beside a snapshot marker, but it looks for the marker beside the
  given path and writes to the client's own file of that stem
  (`LedgerSnapshots.FileWriteKeepsExactly`).
- git prints a tab behind a name with a space, and the diff reader keeps it in the path
  (`DiffReader.ExactUnlessSpaced`).

One result is not about a promise of the documentation: after merging symbols, an entry's depth
is its distance from the first symbol that reaches it, which is the least distance in every call
graph only under the condition of `CallerExpansion.LeastDepthsExactly`.

## Model

| member | source | states |
|---|---|---|
| `MatchLadder.ClaimUnique` | src/traust_engine/_util/finding_identity.py:250-273 | One pass of tier 1 or tier 2 equals a closed form: the pair (o, n) is added exactly when n is the only free new finding of its bucket and o is the first unmapped old finding of that bucket; earlier mappings stay and the mapping stays one to one |
| `MatchLadder.BucketStep` | src/traust_engine/_util/finding_identity.py:254-273 | In the middle of a pass, "exactly one candidate left" is equivalent to the closed-form pair judged on the state before the pass |
| `MatchLadder.PairsDetermine` | src/traust_engine/_util/finding_identity.py:250-273 | The closed form leaves no freedom: any two results that satisfy it have the same mapping |
| `MatchLadder.PickBest` | src/traust_engine/_util/finding_identity.py:282-311 | The chosen new finding is free and acceptable, every one preferred to it (score, tie-break score, then report order) is taken, and nothing is chosen only when nothing acceptable is free |
| `MatchLadder.ClaimBest` | src/traust_engine/_util/finding_identity.py:275-311 | A scored tier is a serial choice: each unmapped old finding in report order gets the best acceptable new finding not claimed before it, and nobody else is mapped |
| `MatchLadder.ChoiceDetermines` | src/traust_engine/_util/finding_identity.py:275-311 | Serial choice determines the mapping uniquely, so the scored tiers have no hidden freedom either |
| `MatchLadder.MatchFindings` | src/traust_engine/_util/finding_identity.py:234-317 | The four tiers in order, each by its closed form; the result is an injective partial map that splits both reports into mapped and unmatched ids in report order, and no acceptable pair (title similarity >= 0.6, or at least half of the paths shared) is left unmatched |
| `MatchLadder.LadderLeavesNothing` | src/traust_engine/_util/finding_identity.py:275-317 | After the two scored tiers no unmapped old and untaken new finding are acceptable to either tier |
| `MatchLadder.UnrelatedStayUnmatched` | src/traust_engine/_util/finding_identity.py:234-317 | On reports without related findings the ladder has one result: every finding stays unmatched |
| `MatchLadder.MatchesExplained` | src/traust_engine/_util/finding_identity.py:234-311 | In terms of the findings alone: every match has its tier's reason (equal stored or computed fingerprint; equal non-empty paths and equal CWE; at least half of the paths shared; title similarity of at least 0.6), and no new finding that stayed free has that reason too or, in the scored tiers, scores higher |
| `MatchLadder.UndoubtedExactly` | src/traust_engine/_util/finding_identity.py:249-273 | The two automatic tiers match two findings exactly when, among what the tiers before left, the new one is the only one with the tier's reason for the old one, and the old one is the first that has it for the new one |
| `MatchLadder.RemainingInOrder` | src/traust_engine/_util/finding_identity.py:313-317 | The unmatched ids keep the order and the repetitions of the report |
| `Disposition.ResolveIdempotent` | src/traust_engine/corpus/disposition.py:79-106 | resolve(resolve(x)) = resolve(x) for every alias table, cycles included |
| `Disposition.ResolveEnd` | src/traust_engine/corpus/disposition.py:100-106 | Resolution follows a walk of confirmed aliases without repeats, and ends where no confirmed alias leads on or at an id already on the walk (the entry point of a cycle) |
| `Disposition.ResolveExactly` | src/traust_engine/corpus/disposition.py:94-106 | Resolution ends at an id exactly when a chain of confirmed aliases leads there and ends there; so every chain has one end |
| `Disposition.NextExactly` | src/traust_engine/corpus/disposition.py:94-106 | An id moves exactly along the confirmed alias that speaks for it: the bare one if there is one, else the only namespaced one |
| `Disposition.AmbiguousNeverRedirects` | src/traust_engine/corpus/disposition.py:79-92 | An id with two namespaced aliases and no bare one resolves to itself and still counts as aliased |
| `Disposition.RouteEvents` | src/traust_engine/corpus/disposition.py:108-122 | The three piles hold exactly the events of their route, in layer order: attached per resolved id, parked, unknown |
| `Disposition.RoutedConserves` | src/traust_engine/corpus/disposition.py:108-122 | Conservation: for every event and route, the pile of that route holds the event as often as the layer does if it is the event's route, else never |
| `Disposition.BuildCumulative` | src/traust_engine/corpus/disposition.py:73-135 | Fails exactly when some event is on an id that is forgotten: not in the report, not a key of the alias table, not named by a namespaced key, and without a pending decision on it; it then names exactly those ids. Otherwise it gives each finding, in order, the disposition derived from exactly the events attached to it |
| `Disposition.UnknownExactly` | src/traust_engine/corpus/disposition.py:85-127 | Over the keys of the alias table and the queue alone: an event is unknown to replay exactly when its id is forgotten, and it is reported under its own id |
| `Disposition.VerifyClaimHashes` | src/traust_engine/corpus/disposition.py:46-70 | "Missing" exactly for pinned ids absent from the report, "edited in place" exactly for pinned findings with another hash that are not marked corrected, drift warnings exactly for those that are, and nothing else |
| `Rebaseline.AliasKeyInjective` | src/traust_engine/_util/finding_identity.py:346-357 | Within one old report no two ids share an alias key, canonical or namespaced |
| `Rebaseline.CanonicalExactly` | src/traust_engine/_util/finding_identity.py:100 | A canonical id is spelled exactly as an upper-case slug, 7 to 12 hex digits and three digits with dashes between them |
| `Rebaseline.SlugOfAudit` | src/traust_engine/_util/finding_identity.py:350-354 | The slug of an audit report is what stands before the suffix of its file name |
| `Rebaseline.SlugOfOther` | src/traust_engine/_util/finding_identity.py:350-354 | Any other file's slug is its name without the last extension, or the whole name when there is none |
| `Rebaseline.WriteAliases` | src/traust_engine/_util/finding_identity.py:359-385 | Every mapped id gets its alias, a settled alias keeps its value and is not queued, no other key changes, and the review items are exactly those of the new non-automatic mappings |
| `Rebaseline.RebaselineLayer` | src/traust_engine/_util/finding_identity.py:320-439 | The whole effect on a layer: alias table, review queue, claim pins; events are untouched and the migrated pins are exactly the covered ids absent from the new report |
| `History.NoHistoryLost` | src/traust_engine/_util/finding_identity.py:345-403 | Right after a reviewed rebaseline no event on a finding of the old report is unknown to replay: it is attached to exactly one finding or parked |
| `History.UnknownExactly` | src/traust_engine/corpus/disposition.py:108-122 | Replay calls an event unknown exactly when its id is not in the report, no pending decision on it is queued, it is no key of the alias table, and no namespaced key names it |
| `History.ParkedExactly` | src/traust_engine/corpus/disposition.py:94-122 | After a reviewed rebaseline an old event is attached to the end of its confirmed chain when the new report holds that end, and parked otherwise |
| `History.MovesOnlyAlongConfirmed` | src/traust_engine/corpus/disposition.py:100-122 | An attached event reaches its finding along a walk of confirmed aliases |
| `History.BatchModeUnknownExactly` | src/traust_engine/_util/finding_identity.py:329-333 | Without queued reviews, an old event is unknown exactly when its finding is unmatched, its id is not reused, and no earlier alias or queued decision speaks about it |
| `History.UnmatchedParkedExactly` | src/traust_engine/_util/finding_identity.py:386-403 | The event of an unmatched finding is parked exactly when no confirmed alias that a lookup of its id uses leads into the new report, and, when none moves it, the new report does not reuse its id |
| `History.UnmatchedLookupStays` | src/traust_engine/_util/finding_identity.py:346-385 | A rebaseline leaves the alias that a lookup of an unmatched id uses as it was, so that part of the condition can be checked before it; unless the id is itself the alias key of a matched finding, and then the lookup finds the alias of that key |
| `History.LegacyIdReuse` | src/traust_engine/_util/finding_identity.py:346-357 | Witness, with the result of the ladder: two unrelated findings named FIND-001 in two reports; whatever the ladder and the rebaseline do, replay attaches the old history to the new finding |
| `History.ForeignAliasMisleads` | src/traust_engine/_util/finding_identity.py:346-357 | Witness, with the result of the ladder: one confirmed alias of report a takes the history of report b's unmatched FIND-001 to an unrelated finding, although the new report does not reuse the id |
| `History.MatchedAttachesExactly` | src/traust_engine/_util/finding_identity.py:345-385 | The history of a matched finding attaches to its new id exactly when the confirmed chain from the old id ends there; one hop suffices when the new id is not moved on |
| `History.FirstHopOfMatch` | src/traust_engine/_util/finding_identity.py:346-385 | The first hop of a fingerprint match goes to the new id exactly when the alias that a lookup of the old id uses leads there: a bare one if there is one, else the only namespaced one, which is the written one unless a human settled it before |
| `History.ProposalWaits` | src/traust_engine/_util/finding_identity.py:359-385 | The history of a match that was not made by fingerprint, with an alias that no human settled and that alone speaks for the old id, moves nowhere: the alias is written neither confirmed nor rejected, and the event is parked unless the new report holds the old id |
| `History.ProposalDecided` | src/traust_engine/_util/finding_identity.py:359-385 | The decision on such a match settles its history: after an acceptance it is attached to the matched new id, unless a confirmed alias moves that id on; after a rejection it stays where it was |
| `History.ConfirmedExactly` | src/traust_engine/_util/finding_identity.py:359-368 | An alias is confirmed after a rebaseline exactly when it was before, or it was open and a fingerprint match wrote it; a rebaseline rejects none and revives none |
| `History.QueueExactly` | src/traust_engine/_util/finding_identity.py:369-403 | A rebaseline queues exactly one kind of item for every open match that was not made by fingerprint and one for every unmatched finding, in review mode only, and leaves the older items in place |
| `History.HistoryFollows` | src/traust_engine/_util/finding_identity.py:320-439 | A finding with campaign ids that is matched through any number of rebaselines, by fingerprint or by an alias that a human accepts later, with any other rebaselines and human decisions between them, takes the history of its first id to its last one |
| `History.SettledForever` | src/traust_engine/_util/finding_identity.py:365-367 | Over any run of rebaselines and human decisions a confirmed or rejected alias never changes |
| `History.AccountedForever` | src/traust_engine/_util/finding_identity.py:359-403 | Over any run of rebaselines and human decisions, what replay accounts for it keeps accounting for, until a human closes the last queued decision on it while no alias speaks about it |
| `History.AccountedOnceExactly` | src/traust_engine/_util/finding_identity.py:359-403 | One rebaseline or human decision keeps an id accounted for, exactly unless it closes the last queued decision on the id without an alias |
| `History.ClosingLosesExactly` | src/traust_engine/corpus/disposition.py:108-131 | After such a closing, replay against a report fails on the id exactly when the report does not contain it |
| `History.NoHistoryLostOverRuns` | src/traust_engine/_util/finding_identity.py:320-439 | After any number of later rebaselines and human decisions, replay against any report still never calls an event on a superseded report's finding unknown, unless a decision on it was closed without an alias |
| `History.CoveredIsAccounted` | src/traust_engine/_util/finding_identity.py:406-421 | Every id that the pin migration calls covered is one that replay accounts for |
| `History.PinsOnlyMoveWithHistory` | src/traust_engine/_util/finding_identity.py:414-425 | A pin goes only when its id is absent from the new report and accounted for; every other pin keeps its value and none appears |
| `History.PinsExactly` | src/traust_engine/_util/finding_identity.py:406-425 | A pin goes exactly when the new report lacks its id and the id is matched, is unmatched with a queued decision, or is named by an alias of the same old report |
| `History.OldPinsMoveExactly` | src/traust_engine/_util/finding_identity.py:414-425 | With queued reviews, a pin of the old report goes exactly when its id is absent from the new one |
| `History.SupersedeAndReplay` | src/traust_engine/corpus/disposition.py:46-135 | Rebaseline, guard and replay on one layer: "missing" is reported exactly for pins that stayed although their finding is gone, dropped pins are accounted for, and replay succeeds when all events are on old findings |
| `LedgerSnapshots.RefreshMarkedExactly` | src/traust_engine/ledger/service.py:300-364 | At every instant of a refresh, crashes between the marker and the layer write included, exported files have their marker, exactly unless the export of an exported file fails, the layer unlink fails too, and the marker unlink succeeds |
| `LedgerSnapshots.ExportKeepsMarked` | src/traust_engine/ledger/service.py:322-371 | Every state that an export passes through shows marked snapshots, and an export that ends leaves the marked file with the text of the layer: as it was, or rewritten as an exported one |
| `LedgerSnapshots.RefreshFreshExactly` | src/traust_engine/ledger/service.py:300-364 | A refresh ends with the file equal to the export or gone, exactly unless both the export and the unlink of a stale file fail |
| `LedgerSnapshots.BindingNeverCrossesOwners` | src/traust_engine/ledger/service.py:62-87 | A binding resolves to a layer exactly when the layer meets every condition it states, fails exactly when none does, and bindings of different owners never resolve to one layer |
| `LedgerSnapshots.LedgerService.LayerFor` | src/traust_engine/ledger/service.py:261-287 | Database mode serves one path and one layer id per service and never rebinds: the first request binds its path and the layer that the binding resolves to, a request is refused exactly when its path is not the bound one or no layer is bound and none resolves; file mode uses the path stem |
| `LedgerSnapshots.LedgerService.WriteTarget` | src/traust_engine/ledger/service.py:289-298 | Judged on the state before the call: a write finds its target exactly when, in database mode, no other path is bound and a layer is bound or resolves, and, in file mode, no marker lies beside the path; the target is the bound layer, or else the one that resolves |
| `LedgerSnapshots.LedgerService.WriteSnapshot` | src/traust_engine/ledger/service.py:322-371 | The disk states of an export: nothing when unchanged, else marker then layer; every failure, an unreadable old file included, leaves exactly the steps before it, and a ledger or decoding error leaves the disk as it was; it succeeds exactly when, on the state before the call, the layer that is meant can be read and exported |
| `LedgerSnapshots.LedgerService.Refresh` | src/traust_engine/ledger/service.py:300-320 | Runs exactly the refresh steps; an error escapes exactly when the layer cannot be read back, or the marked old file cannot be decoded, and then the disk stays as it was |
| `LedgerSnapshots.LedgerService.Write` | src/traust_engine/ledger/service.py:432-475 | Any single-change write: it is refused exactly when, on the state before the call, it has no target or the ledger refuses the change on that target, the ledger changes exactly unless refused, a returned database write has refreshed the snapshot, the call fails after the commit exactly for two errors and then leaves the old files, and file mode never writes a marked path |
| `LedgerSnapshots.LedgerService.SubmitEvents` | src/traust_engine/ledger/service.py:397-430 | Two atomic ledger writes and one refresh: it is refused exactly when, on the state before the call, it has no target or the first change is refused there; what is stored in each outcome, and that the call fails after its first write exactly for an unreadable report, a refused second write or an escaping refresh error |
| `LedgerSnapshots.LedgerService.StampReport` | src/traust_engine/ledger/service.py:573-596 | A report digest is pinned once, in both modes: an unreadable report fails the call first; on the state before the call, the digest is written exactly when the layer can be read, holds no digest and takes the change, and a layer that holds the same digest is left as it is; any other outcome changes nothing |
| `LedgerSnapshots.LedgerService.StoreLayer` | src/traust_engine/ledger/service.py:610-621 | Replaces the layer in the ledger, exactly when the write has a target before the call and the ledger holds it, and is the one write that leaves the snapshot alone |
| `LedgerSnapshots.LedgerService.ReadLayer` | src/traust_engine/ledger/service.py:483-493 | A read returns exactly what the state before the call allows; in database mode it returns the layer that is meant and leaves the file equal to it |
| `LedgerSnapshots.LedgerService.Inspect` | src/traust_engine/ledger/service.py:384-395 | A query or verification returns the layer that is meant before the call, fails exactly when there is none or it cannot be read, and changes neither ledger nor disk |
| `LedgerSnapshots.LedgerService.Run` | src/traust_engine/ledger/service.py:203-621 | Over any sequence of requests, reads included: all ledger calls of database mode use one layer and one path, exported files are marked at every instant under orderly faults, and file mode never touches a marked path, when no unmarked path of a request shares its stem with a marked file of the client |
| `LedgerSnapshots.FileWriteKeepsExactly` | src/traust_engine/ledger/service.py:261-298 | A write in file mode, which goes to the client's file of that stem, keeps every marked path exactly when that file is unmarked or holds the new text already |
| `MigrationRun.Rehearsal.Inventory` | src/traust_engine/corpus/migration_rehearsal.py:274-359 | Every path gets the state its content asks for, the artifacts are exactly the pending ones, and the issues are, in order, one with its code for every refused path and one for an empty inventory |
| `MigrationRun.Rehearsal.ValidateSources` | src/traust_engine/corpus/migration_rehearsal.py:387-412 | Pending sources stay pending exactly without validation failures and are rejected otherwise, with one issue per failure; no other state changes |
| `MigrationRun.Rehearsal.ResolveSources` | src/traust_engine/corpus/migration_rehearsal.py:414-437 | A pending source stays pending and is planned exactly when it can be bound and, for a ledger layer, no earlier bindable ledger source claims the same layer id; otherwise it is blocked, with the issue that says why; every claimed layer id belongs to the first source that claims it |
| `MigrationRun.ClaimableExactly` | src/traust_engine/corpus/migration_rehearsal.py:361-365 | During resolution a layer is free for the next source exactly when no earlier one claims it |
| `MigrationRun.Rehearsal.IngestArtifacts` | src/traust_engine/corpus/migration_rehearsal.py:455-488 | Every pending source ends ingested, already bound, delegated, rejected or blocked as its answer says, with an issue for each refusal; none stays pending |
| `MigrationRun.Rehearsal.Reconcile` | src/traust_engine/corpus/migration_rehearsal.py:490-508 | The load passes exactly when no blocking issue was recorded, and then every state is a final one |
| `MigrationRun.Rehearsal.Rehearse` | src/traust_engine/corpus/migration_rehearsal.py:550-675 | Readiness over the answers of the outside world alone: it holds exactly when there is an artifact, no budget is spent and nothing raises, pins, sources and target are as they should be, every path is left alone or is an artifact that validates, resolves, registers and is stored or, as a ledger layer of its own, delegated, and the ledger takes all delegated layers. It is the same as a verdict that passed, is complete and reconciled, and it implies that no blocking issue was recorded and delegated layer ids are distinct; over the whole run, failed or not, a source that has left the pending state keeps its state |
| `MigrationRun.LoadedExactly` | src/traust_engine/corpus/migration_rehearsal.py:274-488 | When no stage raised, the load goes well by the answers of the outside world exactly when there is an artifact and no source ended refused; the delegated sources are then the ledger layers of the tree |
| `MigrationRun.BlockingExplains` | src/traust_engine/corpus/migration_rehearsal.py:238-255 | Without a blocking issue no source is rejected, unrecognized or blocked |
| `RowKeys.RowKeyIdentifies` | src/traust_engine/corpus/migration_projection.py:27-37 | Row keys are equal exactly for values that are alike up to object member order, for every way of comparing numbers, at every depth |
| `RowKeys.PrintedKeyIdentifies` | src/traust_engine/corpus/migration_projection.py:27-41 | The printed key that is hashed identifies a value exactly up to member order, with every number written alike |
| `PythonRepr.ReprOnce` | src/traust_engine/corpus/migration_projection.py:40-41 | No printed tuple, string, number, boolean or None is the start of another: value and rest can be told from the text, through quotes and escapes |
| `RowKeys.OnePointZeroIsNotOne` | src/traust_engine/corpus/migration_projection.py:27-41 | Witness: 1.0 and 1 have equal row keys and different printed keys |
| `Reconciliation.CountAndDictDecide` | src/traust_engine/corpus/migration_database.py:192-197 | A row count together with a dictionary comparison is multiset equality |
| `Reconciliation.ReconcileExactly` | src/traust_engine/corpus/migration_projection.py:111-144 | The two passes accept exactly the targets that hold the recorded evidence, bindings and rows with multiplicity |
| `Reconciliation.OtherRowsRefused` | src/traust_engine/corpus/migration_projection.py:132-144 | Replacing the rows of one table is accepted exactly when the multiset of (binding, fingerprint) stays the same |
| `Reconciliation.LostOrExtraRowRefused` | src/traust_engine/corpus/migration_projection.py:132-144 | A lost, duplicated or unrecorded row is always refused |
| `Reconciliation.AlteredRowExactly` | src/traust_engine/corpus/migration_projection.py:27-41 | With an injective digest, an altered row is accepted exactly when it keeps its binding and its value up to member order and number spelling |
| `Reconciliation.IngestKeepsHolding` | src/traust_engine/corpus/migration_database.py:135-148 | Recording an ingest and storing its rows, an already bound repeat included, keeps expectation and target equal |
| `Reconciliation.FaithfulStoreReconciles` | src/traust_engine/corpus/migration_database.py:135-148 | After any sequence of ingests a faithful store reconciles |
| `Reconciliation.Expectations.Add` | src/traust_engine/corpus/migration_projection.py:84-99 | Adds evidence, binding and one counted fingerprint per row, and refuses exactly rows of one table with different columns |
| `Reconciliation.Expectations.Reconcile` | src/traust_engine/corpus/migration_database.py:192-197 | The final check passes exactly when the target holds the recorded import, row for row |
| `Reconciliation.Import` | src/traust_engine/corpus/migration_database.py:135-197 | A whole import passes exactly when rows of one table have the same columns throughout and the target holds the recorded import; a store that started empty and kept every ingest passes whenever the columns agree |
| `Reconciliation.RecordedExactly` | src/traust_engine/corpus/migration_projection.py:84-99 | Read off the ingests: expected are exactly the digests and bindings of new bindings, with the size and the record of the last of them, and per table the fingerprints of exactly the rows that new bindings project into it |
| `Reconciliation.DictExactly` | src/traust_engine/corpus/migration_projection.py:111-144 | A dictionary of rows holds for each key the value of its last row |
| `Reconciliation.ColumnsExactly` | src/traust_engine/corpus/migration_projection.py:84-99 | Two rows have the same columns exactly when they have the same member names |
| `ValidationWorkers.SequentialAfter` | src/traust_engine/corpus/migration_workers.py:29-35 | What was yielded so far plus the sequential trace of the rest is the whole sequential trace |
| `ValidationWorkers.ValidationResults` | src/traust_engine/corpus/migration_workers.py:29-48 | For every schedule of completions the pool yields the trace of the one-worker loop, submits each task once and in order, and has at most 2 * workers tasks in flight, a number it reaches when there are that many tasks |
| `ValidationWorkers.ValidateInOrder` | src/traust_engine/corpus/migration_workers.py:31-34 | The one-worker branch yields the sequential trace |
| `CallerExpansion.Expand` | src/traust_engine/impact/expand_advisory_entry_points.py:91-111 | For every call graph, cyclic ones included, the rows of a symbol are exactly the public methods whose shortest caller distance d satisfies 1 <= d <= maxDepth, each once with that d, and the true size of every level searched |
| `CallerExpansion.LevelStep` | src/traust_engine/impact/expand_advisory_entry_points.py:100-110 | The unseen callers of level n are exactly the methods at distance n + 1, and the seen set stays exactly those within the depth |
| `CallerExpansion.NothingBeyond` | src/traust_engine/impact/expand_advisory_entry_points.py:101 | An empty level ends the search: no method is farther away |
| `CallerExpansion.DeeperExtends` | src/traust_engine/impact/expand_advisory_entry_points.py:83-111 | A larger depth only adds entries |
| `CallerExpansion.MergeRows` | src/traust_engine/impact/expand_advisory_entry_points.py:267-284 | Each entry point appears once, with the row that names it first |
| `CallerExpansion.QueryEntryPoints` | src/traust_engine/impact/expand_advisory_entry_points.py:83-284 | Every reachable public method appears once, credited to the first symbol of the list that reaches it, with its distance from that symbol |
| `CallerExpansion.LeastDepthsExactly` | src/traust_engine/impact/expand_advisory_entry_points.py:267-284 | For given symbols and targets, the merged depths are the least ones in every call graph, exactly when the search is at most one level deep or no later symbol's targets leave room to be nearer |
| `CallerExpansion.FirstSymbolWinsOverNearer` | src/traust_engine/impact/expand_advisory_entry_points.py:83-284 | Witness, run through the query: a method at distance 2 from the first symbol and 1 from the second is listed with depth 2 under the first |
| `OsvCoverage.BasisOfAdditions` | src/traust_engine/adapters/osv.py:435-451 | Over any run of additions a key is locked exactly when some addition of it was, no addition weakens it, and its sources are exactly those that named it |
| `OsvCoverage.DeclarationOutranks` | src/traust_engine/adapters/osv.py:441-451 | Whatever was listed before, an entry stays a resolved one exactly when it was one and no declaration adds its key |
| `OsvCoverage.KeyExactly` | src/traust_engine/adapters/osv.py:435-441 | A declaration becomes a key exactly with a name and a usable version, which stays as it is but for one leading v of a Go version |
| `OsvCoverage.CollectedExactly` | src/traust_engine/adapters/osv.py:435-520 | The collected list holds exactly the keys that manifests declare with a usable version, each with those manifests, locked exactly when one of them is exact and at its declared floor otherwise |
| `OsvCoverage.Inventory.Collect` | src/traust_engine/adapters/osv.py:504-520 | One parsed manifest: its usable declarations become keys, the others names, and an unresolved manifest records the count of both |
| `OsvCoverage.Inventory.ResolveTransitive` | src/traust_engine/adapters/osv.py:524-649 | The packages afterwards are the closed form, the unresolved manifests are split by one predicate, and every node of every tree that a manifest declares is on the list, with that manifest and that root when trees alone bring it in, unless a declared name rules it out |
| `OsvCoverage.MergeStep` | src/traust_engine/adapters/osv.py:594-626 | Merging one tree node after another is the closed form over the set of nodes, in any order |
| `OsvCoverage.Explain` | src/traust_engine/adapters/osv.py:627-645 | A manifest has no reason left exactly when it is fully resolved, each of its declarations is a resolved key or has one reason, and a reason is given exactly when the ecosystem is unsupported or the resolver answered so about a declaration |
| `OsvCoverage.StatusesExactly` | src/traust_engine/adapters/osv.py:637-645 | The status that a reason shows is what the resolver answered about a key that the manifest declares, and there is none after a failed probe or without an answer |
| `OsvCoverage.DefaultStatusesExactly` | src/traust_engine/adapters/osv.py:629-636 | So is the status for a name without a version |
| `OsvCoverage.SelectSplits` | src/traust_engine/adapters/osv.py:627-649 | No manifest is lost or duplicated by the split |
| `OsvCoverage.SelectInOrder` | src/traust_engine/adapters/osv.py:627-649 | The split keeps the order |
| `OsvCoverage.ResolvedExactly` | src/traust_engine/adapters/osv.py:504-649 | A collected manifest is called resolved exactly when its ecosystem is supported and, by the answers of the resolver alone, every declaration in it stands on a key, at its own version or the default, whose tree resolved |
| `OsvCoverage.Inventory.Report` | src/traust_engine/adapters/osv.py:504-649 | From parsed manifests with distinct paths to the final list: each manifest without a whole tree is called resolved exactly on that condition, none is lost or duplicated, every node of every tree that stands behind one of its declarations is listed for it unless a declared name rules the node out, and the collected state is exactly the declared one |
| `OsvCoverage.ListedExactly` | src/traust_engine/adapters/osv.py:524-626 | In terms of the collected tables and the answers of the resolver alone: which packages the final list holds, with which basis, sources and roots. A package is listed exactly when it is declared, is the default of a name without a version, or is in the tree of a declared package without being ruled out by a declared name |
| `OsvCoverage.DeclaredKept` | src/traust_engine/adapters/osv.py:544-626 | Resolution never changes the basis of a declared package, credits no tree to one, and adds no manifest to it but those that name it without a version and get it as the default |
| `OsvCoverage.TreesExactly` | src/traust_engine/adapters/osv.py:594-626 | A package that the repository does not declare is listed exactly for the manifests that declare, at its version or by default, a package whose tree contains it, and do not override it |
| `OsvCoverage.OverrideKept` | src/traust_engine/adapters/osv.py:544-549 | A resolved Maven version never carries a name declared with a version anywhere; a resolved PyPI version none declared in the same file |
| `OsvCoverage.MavenRuleExactly` | src/traust_engine/adapters/osv.py:539-626 | No consistent answers of the resolver can put a second version of a declared Maven name on the list, exactly when a name declared without a version is declared nowhere with one and is the only Maven dependency to resolve |
| `OsvCoverage.Misleading` | src/traust_engine/adapters/osv.py:539-626 | Whenever that condition fails, answers of a resolver that put a second version on the list |
| `JsonScript.ScriptSafeKeepsMeaning` | src/traust_engine/escaping.py:47-55 | For every JSON text (RFC 8259), the two replacements change no token and so not the value it denotes |
| `JsonScript.ReplaceKeepsTokens` | src/traust_engine/escaping.py:55 | One replacement changes no token of a JSON text |
| `JsonScript.ReplaceKeepsString` | src/traust_engine/escaping.py:55 | One replacement changes no code unit of a string token and commutes with the text behind it |
| `JsonScript.ScriptSafeOutput` | src/traust_engine/escaping.py:50-55 | For every text, the output contains neither `</` nor `<!--` |
| `JsonScript.NoNewEndTag` | src/traust_engine/escaping.py:55 | The second replacement does not undo the first: an end tag in its output was in its input |
| `JsonScript.DumpsRoundTrip` | src/traust_engine/escaping.py:55 | Reading the printed form of a value gives the value back |
| `JsonScript.JsonScriptRoundTrip` | src/traust_engine/escaping.py:47-55 | The script-safe form of every value decodes to that value and holds neither sequence |
| `Fence.LongestBounds` | src/traust_engine/escaping.py:78-80 | Every backtick run anywhere in the text is at most the longest maximal run |
| `Fence.FenceLengthLeast` | src/traust_engine/escaping.py:75-80 | The fence is exactly as long as needed: at least three backticks, longer than every run in the text, and beyond three just one longer than some run |
| `Fence.CannotClose` | src/traust_engine/escaping.py:72-81 | No part of a line of a text with shorter runs is a closing fence (section 4.5 of CommonMark) |
| `Fence.FenceRoundTrip` | src/traust_engine/escaping.py:72-81 | A CommonMark reader gets back the text plus one line feed, with nothing left outside, exactly when the info string has no backtick and no line ending (but for one final carriage return); it then reports the info string trimmed and interpreted as the standard says |
| `Elf.LoadSegments` | src/traust_engine/_util/elf.py:89-135 | The segments and the dynamic section are those of exactly the program headers that lie in the file; no read leaves the buffer |
| `Elf.ParseHeaderExactly` | src/traust_engine/_util/elf.py:60-74 | Exactly the images of at least 64 bytes with the magic number, a known class and a known byte order are read, and the machine is the two-byte number of that order |
| `Elf.LayoutExactly` | src/traust_engine/_util/elf.py:94-120 | The header fields lie where the structures of the gABI put them, in both classes |
| `Elf.NoLaterHeader` | src/traust_engine/_util/elf.py:105-120 | Stopping at the first header past the end skips no header inside the file |
| `Elf.VaddrToOffset` | src/traust_engine/_util/elf.py:137-144 | The loop finds the offset through the first covering segment, and none when no segment covers the address |
| `Elf.OffsetOfExactly` | src/traust_engine/_util/elf.py:137-144 | An offset is found exactly for a covered address, through the first segment that covers it |
| `Elf.ReadDynamic` | src/traust_engine/_util/elf.py:157-181 | String table address, size and needed indices are those of the entries before the first null entry; no read leaves the section |
| `Elf.StringAtExactly` | src/traust_engine/_util/elf.py:190-200 | A name is found at an index exactly when a non-empty NUL-terminated string of fewer than 256 bytes starts there inside the table and the file |
| `Elf.NamesExactly` | src/traust_engine/_util/elf.py:189-200 | The names are exactly the strings that the needed entries point at |
| `Elf.LinkedLibraries` | src/traust_engine/_util/elf.py:146-201 | For every byte string, both classes and both byte orders, the loops give the reference reading of the image |
| `Elf.PackReadBack` | src/traust_engine/_util/elf.py:188-201 | The names of a packed string table anywhere in a file are read back, all and in order |
| `ElfImage.ImageReadBack` | src/traust_engine/_util/elf.py:60-201 | Whatever names are printed into a whole image, of either class and byte order, at any address and with anything behind it, are the libraries read from it, all and in order |
| `Elf.SpelledBack` | src/traust_engine/_util/elf.py:60-73 | Reading an integer inverts spelling it, in both byte orders |
| `DiffReader.AddedLines` | ci/check_estate_data.py:128-180 | The reader's loop equals the run of its state machine, followed by the merge filter per path |
| `DiffReader.HeaderReadBack` | ci/check_estate_data.py:108 | The hunk header pattern reads back the first new line number of every printed header |
| `DiffReader.HunkExactly` | ci/check_estate_data.py:108 | A line is read as a hunk header exactly when it has two ranges, each a number alone or with a count, between the marks; the number is that of the second range |
| `DiffReader.MarkedAdds` | ci/check_estate_data.py:172-175 | Inside a hunk the added lines are numbered in order, whatever they look like, and removed lines and end-of-file notes add nothing |
| `DiffReader.ReadPrinted` | ci/check_estate_data.py:156-175 | Reading a printed diff files each added line with its number under the printed label of its file |
| `DiffReader.ExactUnlessSpaced` | ci/check_estate_data.py:156-175 | The reader recovers paths, numbers and texts exactly when no file that gains lines has a space in its path |
| `DiffReader.EachFileItsLines` | ci/check_estate_data.py:156-175 | With distinct paths, a file's own added lines are what is filed under its path |
| `DiffReader.FileItsOwnAdditions` | ci/check_estate_data.py:128-180 | From printed diff to filtered result: a file without a space in its path gets exactly its own added lines that the other side of the merge lacks |
| `DiffReader.NumbersAreIndexLines` | ci/check_estate_data.py:128-134 | For a diff against the index, line n of the staged file is the text filed with number n |
| `DiffReader.OursExactly` | ci/check_estate_data.py:176-179 | The merge filter keeps exactly the lines that the other side lacks |
| `Precedent.SelectEvent` | src/traust_engine/corpus/precedent.py:388-408 | The last human event, else the last machine event that is sound where soundness applies; and the number of unsound ones passed over |
| `Precedent.AdmittedOnly` | src/traust_engine/corpus/precedent.py:462-486 | A machine precedent never comes from an unsound event, a contested finding or one with a human event; a human precedent agrees with the current verdict |
| `Precedent.OutcomeExactly` | src/traust_engine/corpus/precedent.py:459-486 | Over the fields of the events: what becomes of a finding in the report. The last human refutation is filed while the disposition agrees with it and is stale otherwise; without one, the last usable machine refutation is contested by any confirming event, else filed while the disposition still refutes the finding, else stale |
| `Precedent.SkippedExactly` | src/traust_engine/corpus/precedent.py:452-458 | A finding is skipped exactly when the report no longer holds it or no human and no machine refuted it |
| `Precedent.BuildCache` | src/traust_engine/corpus/precedent.py:411-560 | The cache files each admitted precedent under its own signature and nowhere else, both indexes agree, and the counters are those of the cases |
| `Precedent.AgreeStep` | src/traust_engine/corpus/precedent.py:497-541 | Filing a precedent keeps both indexes in agreement and the lists without repeats |
| `Precedent.CountersAddUp` | src/traust_engine/corpus/precedent.py:488-560 | The two strength counters add up to the number of precedents, and all counters to the number of cases |
| `Precedent.OfExactly` | src/traust_engine/corpus/precedent.py:497-541 | A precedent appears under exactly its own signature, as often as it was admitted |
| `Precedent.LookupIsScan` | src/traust_engine/corpus/precedent.py:599-603 | A lookup by fingerprint finds exactly the components that a scan for the fingerprint would |
| `Precedent.Match` | src/traust_engine/corpus/precedent.py:586-616 | The hits of a finding are exactly: the listed components for a cached stamp, else the components with its signature or with a shared path and class |
| `Precedent.MisreadExactly` | src/traust_engine/corpus/precedent.py:196-206 | A component with the same signature text and no path in common exists exactly when that text can be cut at three bars so that its path part is a path the component lacks, or two sorted paths joined by a semicolon |
| `Precedent.UnbarredMisreadExactly` | src/traust_engine/corpus/precedent.py:196-206 | Without a bar in its texts, a component can be misread exactly when it has several paths or a path that is two sorted ones joined by a semicolon; its class cannot |
| `Precedent.PayloadReadBack` | src/traust_engine/corpus/precedent.py:196-206 | Components without bars, and without semicolons in their paths, are read back from the signature text |
| `Precedent.StampDecidesRule` | src/traust_engine/corpus/precedent.py:196-616 | All hits of all findings with a given stamp share a path exactly when the stamp is not in the cache and no cached signature text can be misread so; and they agree in class exactly when the stamp is not cached and no cached text can be cut into another class |
| `Precedent.PlainStampDecidesRule` | src/traust_engine/corpus/precedent.py:196-616 | Among components and findings without those separators, all hits share a path and agree in class exactly when the stamp is not cached |
| `Precedent.StampNeedsNoPath` | src/traust_engine/corpus/precedent.py:411-616 | Witness, run through building and matching: a cached stamp hits a component with no shared path or class |
| `Precedent.JoinedPathsCollide` | src/traust_engine/corpus/precedent.py:196-616 | Witness, run through building and matching: an unstamped finding in the file `a;b` hits the component with the files `a` and `b` by signature, without a shared path |
| `Stamping.MovesExactly` | src/traust_engine/_util/finding_identity.py:148-163 | The moves are exactly the stored stamps that differ from the computed ones |
| `Stamping.StampMovesExactly` | src/traust_engine/_util/finding_identity.py:166-209 | Stamping changes a stored stamp exactly when it is among the moves |
| `Stamping.NothingChangedExactly` | src/traust_engine/_util/finding_identity.py:179-209 | The reported count is zero exactly when the report is unchanged, so an unwritten file is an unchanged one |
| `Stamping.FillingMovesNothing` | src/traust_engine/_util/finding_identity.py:534-550 | Filling gaps leaves the moves of a report exactly as they were |
| `Stamping.StampingSettlesExactly` | src/traust_engine/_util/finding_identity.py:166-209 | After a stamping nothing moves any more, exactly when repairing the repository name once more changes no computed stamp |
| `Stamping.Audit.Annotate` | src/traust_engine/_util/finding_identity.py:166-209 | Refuses moves; fails on metadata that is present and falsy, on a stamped finding that cannot be hashed while it searches for moves, and at the first finding that cannot be hashed, with what precedes it stamped; otherwise leaves exactly the stamped report and counts the changed fields |
| `Stamping.Audit.StampMissing` | src/traust_engine/_util/finding_identity.py:534-550 | Stamps exactly the findings without a stamp and counts them, up to the first of them that cannot be hashed |
| `Stamping.Tree.Backfill` | src/traust_engine/_util/finding_identity.py:463-519 | Outcome and tree of a bulk run: an error before any write exactly when some file raises while it is decoded, or moves are searched for and some document is malformed or holds a stamped finding that cannot be hashed; refused exactly when some report would move a stamp; otherwise every report before the first unstampable one is written |
| `Stamping.NoStampMoves` | src/traust_engine/_util/finding_identity.py:463-519 | Without leave to move identities, no run changes a stored stamp of any report |
| `Stamping.AllOrNothingExactly` | src/traust_engine/_util/finding_identity.py:463-519 | A run completes or changes nothing, exactly unless a writing run, with no file that raises while it is decoded, changes a report before the first one that is malformed, has falsy metadata or holds a finding that cannot be hashed |
| `Stamping.WhatStopsWriting` | src/traust_engine/_util/finding_identity.py:148-209 | Without leave to move identities, the file that breaks this has metadata that is present and falsy, or an unstamped finding that cannot be hashed |
| `Stamping.HalfRun` | src/traust_engine/_util/finding_identity.py:463-519 | Witness, run through the bulk stamping: a report is written and the run then fails on null metadata |

## Left out

Hypotheses:

- Finding ids are distinct within a report, and the file slug of the old report contains no `:`.
- Cryptographic hashes are injective where a property needs it (`Reconciliation.AlteredRowExactly`, `Precedent.StampDecidesRule`), as functions of the bytes they hash; elsewhere they are arbitrary functions.
- Which texts the normalization of paths, CWEs, categories and sinks can yield is a parameter (`Precedent.Forms`): no path is empty, two paths joined by a semicolon look like a path, and a category may be absent or the letter x. Cached components and matched findings went through it, and the upper-casing, lower-casing and stripping that the signature applies once more change nothing on them.
- The identity recipe, the claim hash, the derived disposition, title similarity, soundness of a live validation, repair of repository names, and package-name normalization are parameters: any functions at all.
- Different decimals are spelled differently and without quotes, and which characters beyond ASCII Python prints as they are is a parameter (`PythonRepr.Style`).
- The Maven rule ranges over resolvers whose trees list their own root at its own version only, and over collected runs, whose direct declarations are all listed.
- What CommonMark does to backslash escapes and entities in an info string is a parameter; that it trims the info string is modelled.
- In the two witnesses about legacy ids, the titles of the two findings are less than 0.6 similar.
- Diff lines contain none of the characters that Python's `splitlines` splits on, and paths are printed without quotes.
- Full method names and symbols are distinct, and the target list of a symbol has no repeats.
- The tasks of the worker pool are fixed before it starts; the pool has more than one worker (one worker is the sequential branch).

Weaker than the source, or read differently:

- MatchLadder.MatchFindings: the rounded similarity and overlap that are stored beside a match are not modelled; scores are real numbers.
- MatchLadder.ClaimUnique: the dictionary of tier 1 is modelled as a scan of its bucket.
- Rebaseline.CanonicalExactly: the digits of an id are ASCII and it ends with them; Python's pattern also takes other decimal digits and one final line feed.
- Rebaseline.RebaselineLayer: timestamps, quotes and the audit commit of the layer, the dry run and the final signing are not modelled.
- LedgerSnapshots.LedgerService.Refresh: of the errors that are no operating-system errors, a failed ledger read and a decoding error of the old file are modelled.
- LedgerSnapshots.LedgerService.Write: sign, countersign, review decisions, patches and restatements are one method over an arbitrary accepted or refused change of the layer.
- LedgerSnapshots.LedgerService.StoreLayer: only for a layer that exists already; creating layer files (`ensure_layer_file`) is not part of this model.
- LedgerSnapshots.LedgerService.LayerFor: symbolic links in paths are not resolved.
- History.SettledForever: human decisions are confirming or rejecting an alias that nobody settled, and closing a queue item; that a human does not decide twice on one alias, and makes no other edits of a layer, is a hypothesis of every result over runs.
- MigrationRun.Rehearsal.Rehearse: what the file system, the validators, the database and the ledger answer is one scenario value; receipts and checkpoints are not modelled.
- RowKeys.RowKeyIdentifies: JSON values only; column types outside JSON (bytes, dates) are not modelled.
- Reconciliation.Expectations.Add: the decoding of JSON columns and of booleans before the key is taken is not modelled.
- CallerExpansion.QueryEntryPoints: the tab-separated file between query and merge, the count of matched targets, file names and the final sort are not modelled.
- OsvCoverage.Inventory.Collect: discovery and parsing of manifests, Go replacements and the toolchain entry, scopes and superseding lockfiles are not modelled; sources and trees are sets, so the order in which they are listed is not modelled.
- Precedent.BuildCache: grouping events by finding and sorting them by time, the derived disposition, the taxonomy join and the display order of precedents are not modelled.
- Elf.LinkedLibraries: names stay byte strings; the replacement of bytes outside ASCII is not modelled.
- JsonScript.DumpsRoundTrip: strings are UTF-16 units, numbers are their spellings by the grammar; NaN and the infinities, which Python prints and the standard does not know, are excluded.
- Fence.FenceRoundTrip: the fence stands at the top level of a document; the replacement of NUL characters is not modelled.
- DiffReader.HunkExactly: digits are ASCII; Python's pattern also takes other decimal digits.
- DiffReader.AddedLines: running git and the lookup of the other side of a merge are a parameter.
- Stamping.Audit.Annotate: which audit profile is inferred (rpm or code) is not modelled, only that one is set.
- Stamping.Tree.Backfill: a malformed document is one that is no object, or whose metadata or findings are truthy and of another shape; which findings cannot be hashed is a parameter. Failing disk writes and the printed report are not modelled.

Not modelled at all:

- The scanner adapters, network clients, fetchers and storage backends: subprocesses and transport.
- Portfolio, validation and dashboard code, release and gate scripts: thin members.
- The remaining escaping helpers (HTML, Markdown cell, CSV cell, slug): single expressions.
- The string scan of ELF files: a regular-expression search.
- The rendering of the cumulative report and of Markdown.

/** Fingerprint stamps: which would move, stamping one report in place, and the bulk re-stamp of a tree. */
module Stamping {
  import opened Findings

  type Path = string
  type Algo = string

  /** The repository of a report: a string, or anything else that JSON allows there. */
  datatype Repository = Text(url: string) | NotText

  /**
   * The metadata of a report. JSON may hold something that is no object in its place: `Falsy` is
   * null, false, 0, an empty text or list.
   */
  datatype Metadata = Absent | Falsy | Metadata(repository: Repository, profiled: bool)

  /** A finding with its stamp; an empty stamp means none. */
  datatype Stamped = Stamped(id: string, content: Content, stamp: string, algo: Option<Algo>)

  /**
   * A parsed file. `Malformed` is a document that is no object, or that has metadata which is no
   * object and not falsy, or findings which are not falsy and no list of objects.
   */
  datatype Document = Document(metadata: Metadata, findings: seq<Stamped>) | Malformed

  /** A stamp that would change: finding, stored value, computed value. */
  datatype Move = Move(id: string, was: string, now: string)

  /**
   * The identity recipe, on which findings it fails (members of a wrong type), and the repair of
   * malformed repository names.
   */
  datatype Identity = Identity(hash: (Content, Repository) -> string, fails: (Content, Repository) -> bool, version: Algo, repair: string -> string) {
    function Normalize(r: Repository): Repository {
      if r.Text? then Text(repair(r.url)) else r
    }

    function RepositoryOf(m: Metadata): Repository {
      Normalize(if m.Metadata? then m.repository else NotText)
    }

    function Stamp(f: Stamped, r: Repository): Stamped {
      f.(stamp := hash(f.content, r), algo := Some(version))
    }

    function StampAll(fs: seq<Stamped>, r: Repository): (out: seq<Stamped>)
      ensures |out| == |fs|
    {
      seq(|fs|, i requires 0 <= i < |fs| => Stamp(fs[i], r))
    }

    // ------------------------------------------------------------------------
    // What a full stamping does
    // ------------------------------------------------------------------------

    predicate Moves(f: Stamped, r: Repository) {
      f.stamp != "" && hash(f.content, r) != f.stamp
    }

    function MovesOf(fs: seq<Stamped>, r: Repository): seq<Move> {
      if fs == [] then []
      else
        var f := fs[|fs| - 1];
        MovesOf(fs[..|fs| - 1], r) + if Moves(f, r) then [Move(f.id, f.stamp, hash(f.content, r))] else []
    }

    /** The first finding that cannot be hashed, among all or among those that `counts` selects. */
    function FirstFailing(fs: seq<Stamped>, r: Repository, counts: Stamped -> bool): (n: nat)
      ensures n <= |fs| && (forall i | 0 <= i < n :: !(counts(fs[i]) && fails(fs[i].content, r)))
      ensures n < |fs| ==> counts(fs[n]) && fails(fs[n].content, r)
    {
      if fs == [] || (counts(fs[0]) && fails(fs[0].content, r)) then 0 else 1 + FirstFailing(fs[1..], r, counts)
    }

    /** The search for moves hashes the findings with a stamp. */
    predicate SearchFails(d: Document)
      requires d.Document?
    {
      exists i :: 0 <= i < |d.findings| && d.findings[i].stamp != "" && fails(d.findings[i].content, RepositoryOf(d.metadata))
    }

    /** A full stamping hashes every finding. */
    predicate StampingFails(d: Document)
      requires d.Document?
    {
      exists i :: 0 <= i < |d.findings| && fails(d.findings[i].content, RepositoryOf(d.metadata))
    }

    /** The report with the first `n` findings stamped and the repository repaired. */
    function Partly(d: Document, n: nat): Document
      requires d.Document? && n <= |d.findings|
    {
      var r := RepositoryOf(d.metadata);
      Document(Metadata(r, d.metadata.Metadata? && d.metadata.profiled), StampAll(d.findings[..n], r) + d.findings[n..])
    }

    /** The report with every finding stamped, the repository repaired and a profile set. */
    function Annotated(d: Document): Document
      requires d.Document?
    {
      Document(Metadata(RepositoryOf(d.metadata), true), StampAll(d.findings, RepositoryOf(d.metadata)))
    }

    function Changed(fs: seq<Stamped>, r: Repository): nat {
      if fs == [] then 0
      else Changed(fs[..|fs| - 1], r) + if Stamp(fs[|fs| - 1], r) != fs[|fs| - 1] then 1 else 0
    }

    /** The number of changed fields that is reported. */
    function ChangedFields(d: Document): nat
      requires d.Document?
    {
      (if d.metadata.Metadata? && d.metadata.repository != Normalize(d.metadata.repository) then 1 else 0)
      + Changed(d.findings, RepositoryOf(d.metadata))
      + if d.metadata.Metadata? && d.metadata.profiled then 0 else 1
    }

    /** Findings without a stamp get one; the others stay. */
    function Filled(fs: seq<Stamped>, r: Repository): (out: seq<Stamped>)
      ensures |out| == |fs|
    {
      seq(|fs|, i requires 0 <= i < |fs| => Fill(fs[i], r))
    }

    function Fill(f: Stamped, r: Repository): Stamped {
      if f.stamp != "" then f else Stamp(f, r)
    }

    function Unstamped(fs: seq<Stamped>): nat {
      if fs == [] then 0 else Unstamped(fs[..|fs| - 1]) + if fs[|fs| - 1].stamp == "" then 1 else 0
    }

    lemma FailsAt(fs: seq<Stamped>, r: Repository, counts: Stamped -> bool, i: nat)
      requires i < |fs| && i <= FirstFailing(fs, r, counts)
      ensures counts(fs[i]) && fails(fs[i].content, r) <==> FirstFailing(fs, r, counts) == i
    {
    }

    /** The first `n` findings are stamped, and `changed` of them changed. */
    ghost predicate StampedTo(was: seq<Stamped>, r: Repository, n: nat, now: seq<Stamped>, changed: nat)
      requires n <= |was|
    {
      now == StampAll(was[..n], r) + was[n..] && changed == Changed(was[..n], r)
    }

    lemma NoneStamped(was: seq<Stamped>, r: Repository)
      ensures StampedTo(was, r, 0, was, 0)
    {
    }

    lemma StampedStep(was: seq<Stamped>, r: Repository, i: nat, now: seq<Stamped>, changed: nat)
      requires i < |was| && StampedTo(was, r, i, now, changed)
      ensures |now| == |was| && now[i] == was[i]
      ensures StampedTo(was, r, i + 1, now[i := Stamp(was[i], r)], changed + if Stamp(was[i], r) != was[i] then 1 else 0)
      ensures now[i := now[i]] == now
    {
      assert was[..i + 1][..i] == was[..i];
      assert StampAll(was[..i + 1], r) == StampAll(was[..i], r) + [Stamp(was[i], r)];
    }

    lemma StampedIs(was: seq<Stamped>, r: Repository, n: nat, now: seq<Stamped>, changed: nat)
      requires n <= |was| && StampedTo(was, r, n, now, changed)
      ensures now == StampAll(was[..n], r) + was[n..] && changed == Changed(was[..n], r)
    {
    }

    lemma FilledIs(was: seq<Stamped>, r: Repository, n: nat, now: seq<Stamped>, stamped: nat)
      requires n <= |was| && FilledTo(was, r, n, now, stamped)
      ensures now == Filled(was[..n], r) + was[n..] && stamped == Unstamped(was[..n])
    {
    }

    lemma AllStamped(was: seq<Stamped>, r: Repository)
      ensures StampAll(was[..|was|], r) + was[|was|..] == StampAll(was, r) && Changed(was[..|was|], r) == Changed(was, r)
    {
      assert was[..|was|] == was;
    }

    /** The first `n` findings have a stamp, and `stamped` of them had none. */
    ghost predicate FilledTo(was: seq<Stamped>, r: Repository, n: nat, now: seq<Stamped>, stamped: nat)
      requires n <= |was|
    {
      now == Filled(was[..n], r) + was[n..] && stamped == Unstamped(was[..n])
    }

    lemma NoneFilled(was: seq<Stamped>, r: Repository)
      ensures FilledTo(was, r, 0, was, 0)
    {
    }

    lemma FilledStep(was: seq<Stamped>, r: Repository, i: nat, now: seq<Stamped>, stamped: nat)
      requires i < |was| && FilledTo(was, r, i, now, stamped)
      ensures |now| == |was| && now[i] == was[i]
      ensures FilledTo(was, r, i + 1, now[i := Fill(was[i], r)], stamped + if was[i].stamp == "" then 1 else 0)
      ensures now[i := now[i]] == now
    {
      assert was[..i + 1][..i] == was[..i];
      assert Filled(was[..i + 1], r) == Filled(was[..i], r) + [Fill(was[i], r)];
    }
  }

  /** The stamps that would move are exactly the stored ones that differ from the computed ones. */
  lemma {:induction false} MovesExactly(identity: Identity, fs: seq<Stamped>, r: Repository, m: Move)
    ensures m in identity.MovesOf(fs, r) <==>
      exists i :: 0 <= i < |fs| && identity.Moves(fs[i], r) && m == Move(fs[i].id, fs[i].stamp, identity.hash(fs[i].content, r))
  {
    if fs != [] {
      var n := |fs| - 1;
      MovesExactly(identity, fs[..n], r, m);
      assert forall i | 0 <= i < n :: fs[..n][i] == fs[i];
    }
  }

  lemma {:induction false} NoMovesExactly(identity: Identity, fs: seq<Stamped>, r: Repository)
    ensures identity.MovesOf(fs, r) == [] <==> forall i | 0 <= i < |fs| :: !identity.Moves(fs[i], r)
  {
    if fs != [] {
      var n := |fs| - 1;
      NoMovesExactly(identity, fs[..n], r);
      assert forall i | 0 <= i < n :: fs[..n][i] == fs[i];
    }
  }

  /** Stamping changes a stored stamp exactly when it is among the moves. */
  lemma StampMovesExactly(identity: Identity, d: Document, i: nat)
    requires d.Document? && i < |d.findings| && d.findings[i].stamp != ""
    ensures identity.Annotated(d).findings[i].stamp != d.findings[i].stamp <==> identity.Moves(d.findings[i], identity.RepositoryOf(d.metadata))
  {
  }

  /** Nothing is counted as changed exactly when nothing changed, so an unwritten file is an unchanged one. */
  lemma NothingChangedExactly(identity: Identity, d: Document)
    requires d.Document? && !d.metadata.Falsy?
    ensures identity.ChangedFields(d) == 0 <==> identity.Annotated(d) == d
  {
    NoneChangedExactly(identity, d.findings, identity.RepositoryOf(d.metadata));
  }

  lemma {:induction false} NoneChangedExactly(identity: Identity, fs: seq<Stamped>, r: Repository)
    ensures identity.Changed(fs, r) == 0 <==> identity.StampAll(fs, r) == fs
  {
    if fs != [] {
      var n := |fs| - 1;
      NoneChangedExactly(identity, fs[..n], r);
      assert identity.StampAll(fs, r) == identity.StampAll(fs[..n], r) + [identity.Stamp(fs[n], r)];
      assert fs == fs[..n] + [fs[n]];
    }
  }

  /** Filling gaps leaves the moves of a report exactly as they were. */
  lemma {:induction false} FillingMovesNothing(identity: Identity, fs: seq<Stamped>, r: Repository)
    ensures identity.MovesOf(identity.Filled(fs, r), r) == identity.MovesOf(fs, r)
  {
    if fs != [] {
      var n := |fs| - 1;
      FillingMovesNothing(identity, fs[..n], r);
      assert identity.Filled(fs, r)[..n] == identity.Filled(fs[..n], r);
    }
  }

  /** After a stamping nothing moves any more, exactly when repairing the repository once more changes no computed stamp. */
  lemma StampingSettlesExactly(identity: Identity, d: Document)
    requires d.Document?
    ensures var after, r := identity.Annotated(d), identity.RepositoryOf(d.metadata);
      identity.MovesOf(after.findings, identity.RepositoryOf(after.metadata)) == [] <==>
        forall i | 0 <= i < |d.findings| :: StaysPut(identity, d.findings[i].content, r)
  {
    var after, r := identity.Annotated(d), identity.RepositoryOf(d.metadata);
    NoMovesExactly(identity, after.findings, identity.Normalize(r));
    assert forall i | 0 <= i < |d.findings| :: after.findings[i] == identity.Stamp(d.findings[i], r);
  }

  predicate StaysPut(identity: Identity, c: Content, r: Repository) {
    identity.hash(c, r) == "" || identity.hash(c, identity.Normalize(r)) == identity.hash(c, r)
  }

  // --------------------------------------------------------------------------
  // One report in place
  // --------------------------------------------------------------------------

  datatype Result = Stamps(changed: nat) | MovesRefused(moves: seq<Move>) | Crashed

  class Audit {
    const identity: Identity
    var metadata: Metadata
    var findings: seq<Stamped>

    ghost function Value(): (d: Document)
      reads this
      ensures d.Document?
    {
      Document(metadata, findings)
    }

    constructor (identity: Identity, d: Document)
      requires d.Document?
      ensures this.identity == identity && Value() == d
    {
      this.identity, metadata, findings := identity, d.metadata, d.findings;
    }

    /** The stamps that would move; `raised` is a finding that cannot be hashed. */
    method IdentityMoves() returns (moves: seq<Move>, raised: bool)
      ensures raised <==> identity.SearchFails(Value())
      ensures !raised ==> moves == identity.MovesOf(findings, identity.RepositoryOf(metadata))
    {
      var r := identity.RepositoryOf(metadata);
      moves, raised := [], false;
      for i := 0 to |findings|
        invariant moves == identity.MovesOf(findings[..i], r)
        invariant forall k | 0 <= k < i && findings[k].stamp != "" :: !identity.fails(findings[k].content, r)
      {
        assert findings[..i + 1][..i] == findings[..i];
        var f := findings[i];
        if f.stamp != "" {
          if identity.fails(f.content, r) {
            return moves, true;
          }
          if identity.hash(f.content, r) != f.stamp {
            moves := moves + [Move(f.id, f.stamp, identity.hash(f.content, r))];
          }
        }
      }
      assert findings[..|findings|] == findings;
    }

    /** Stamps every finding; refuses moves unless allowed, and fails on falsy metadata and on the first finding that cannot be hashed. */
    method Annotate(allowMoves: bool) returns (r: Result)
      modifies this
      ensures var was := old(Value());
        var moves := identity.MovesOf(was.findings, identity.RepositoryOf(was.metadata));
        if !allowMoves && identity.SearchFails(was) then r == Crashed && Value() == was
        else if !allowMoves && moves != [] then r == MovesRefused(moves) && Value() == was
        else if was.metadata.Falsy? then r == Crashed && Value() == was
        else StampedReport(identity, was, r, Value())
    {
      hide StampedReport, Identity.SearchFails;
      if !allowMoves {
        var moves, raised := IdentityMoves();
        if raised {
          return Crashed;
        }
        if moves != [] {
          return MovesRefused(moves);
        }
      }
      if metadata.Falsy? {
        return Crashed;
      }
      r := StampReport();
    }

    method StampReport() returns (r: Result)
      requires !metadata.Falsy?
      modifies this
      ensures StampedReport(identity, old(Value()), r, Value())
    {
      hide Identity.StampAll, Identity.Changed, Identity.FirstFailing;
      ghost var was := Value();
      var changed := RepairMetadata();
      var more, raised := StampFindings(metadata.repository);
      if raised {
        return Crashed;
      }
      identity.AllStamped(was.findings, metadata.repository);
      changed := changed + more;
      if !metadata.profiled {
        metadata := metadata.(profiled := true);
        changed := changed + 1;
      }
      r := Stamps(changed);
    }

    method RepairMetadata() returns (changed: nat)
      requires !metadata.Falsy?
      modifies this`metadata
      ensures metadata == Metadata(identity.RepositoryOf(old(metadata)), old(metadata).Metadata? && old(metadata).profiled)
      ensures changed == if old(metadata).Metadata? && old(metadata).repository != identity.Normalize(old(metadata).repository) then 1 else 0
    {
      changed := 0;
      if metadata.Absent? {
        metadata := Metadata(NotText, false);
      }
      if metadata.repository.Text? {
        var repaired := identity.repair(metadata.repository.url);
        if repaired != metadata.repository.url {
          metadata := metadata.(repository := Text(repaired));
          changed := 1;
        }
      }
    }

    method StampFindings(r: Repository) returns (changed: nat, raised: bool)
      modifies this`findings
      ensures var was, n := old(findings), identity.FirstFailing(old(findings), r, _ => true);
        && (raised <==> n < |was|)
        && findings == identity.StampAll(was[..n], r) + was[n..]
        && changed == identity.Changed(was[..n], r)
    {
      hide Identity.FirstFailing, Identity.StampedTo;
      ghost var was := findings;
      ghost var n := identity.FirstFailing(was, r, _ => true);
      changed, raised := 0, false;
      identity.NoneStamped(was, r);
      for i := 0 to |findings|
        invariant i <= n <= |was| == |findings| && identity.StampedTo(was, r, i, findings, changed)
      {
        identity.StampedStep(was, r, i, findings, changed);
        identity.FailsAt(was, r, _ => true, i);
        if identity.fails(findings[i].content, r) {
          identity.StampedIs(was, r, i, findings, changed);
          return changed, true;
        }
        var fp := identity.hash(findings[i].content, r);
        if findings[i].stamp != fp || findings[i].algo != Some(identity.version) {
          findings := findings[i := findings[i].(stamp := fp, algo := Some(identity.version))];
          changed := changed + 1;
        }
      }
      identity.StampedIs(was, r, n, findings, changed);
    }

    /** Stamps only the findings without a stamp, up to the first one that cannot be hashed. */
    method StampMissing() returns (stamped: nat, raised: bool)
      modifies this`findings
      ensures var was, r := old(findings), identity.RepositoryOf(metadata);
        var n := identity.FirstFailing(was, r, HasNoStamp);
        && (raised <==> n < |was|)
        && findings == identity.Filled(was[..n], r) + was[n..]
        && stamped == identity.Unstamped(was[..n])
    {
      hide Identity.FirstFailing, Identity.FilledTo;
      ghost var was := findings;
      var r := identity.RepositoryOf(metadata);
      ghost var n := identity.FirstFailing(was, r, HasNoStamp);
      stamped, raised := 0, false;
      identity.NoneFilled(was, r);
      for i := 0 to |findings|
        invariant i <= n <= |was| == |findings| && identity.FilledTo(was, r, i, findings, stamped)
      {
        identity.FilledStep(was, r, i, findings, stamped);
        identity.FailsAt(was, r, HasNoStamp, i);
        if findings[i].stamp == "" {
          if identity.fails(findings[i].content, r) {
            identity.FilledIs(was, r, i, findings, stamped);
            return stamped, true;
          }
          findings := findings[i := findings[i].(stamp := identity.hash(findings[i].content, r), algo := Some(identity.version))];
          stamped := stamped + 1;
        }
      }
      identity.FilledIs(was, r, n, findings, stamped);
    }
  }

  predicate HasNoStamp(f: Stamped) {
    f.stamp == ""
  }

  /** What stamping does to a report without falsy metadata: all of it, or what precedes the first finding that cannot be hashed. */
  ghost predicate StampedReport(identity: Identity, was: Document, r: Result, now: Document)
    requires was.Document?
  {
    var n := identity.FirstFailing(was.findings, identity.RepositoryOf(was.metadata), _ => true);
    if n < |was.findings| then r == Crashed && now == identity.Partly(was, n)
    else r == Stamps(identity.ChangedFields(was)) && now == identity.Annotated(was)
  }

  // --------------------------------------------------------------------------
  // A tree of reports
  // --------------------------------------------------------------------------

  datatype Outcome = Refused | Done | Raised

  /**
   * What reading a file gives. A file that cannot be read, or holds no JSON, is skipped; one whose
   * reading raises anything else is `Undecodable`: bytes that are not UTF-8, numbers of too many digits.
   */
  datatype OnDisk = Skipped | Undecodable | Parsed(value: Document)

  type Files = map<Path, OnDisk>

  predicate Readable(files: Files, p: Path) {
    p in files && files[p].Parsed?
  }

  predicate HasUndecodable(files: Files, paths: seq<Path>) {
    exists p :: p in paths && p in files && files[p].Undecodable?
  }

  /** Some report of the tree holds a stamp that would move. */
  predicate Blocked(identity: Identity, files: Files, paths: seq<Path>) {
    exists p :: p in paths && Readable(files, p) && MovesIn(identity, files[p].value) != []
  }

  function MovesIn(identity: Identity, d: Document): seq<Move> {
    if d.Malformed? then [] else identity.MovesOf(d.findings, identity.RepositoryOf(d.metadata))
  }

  /** The search for moves fails on the file at `p`. */
  predicate Unsearchable(identity: Identity, files: Files, p: Path) {
    Readable(files, p) && (files[p].value.Malformed? || identity.SearchFails(files[p].value))
  }

  /** Stamping fails on the file at `p`. */
  predicate Unstampable(identity: Identity, files: Files, p: Path) {
    Readable(files, p) && (files[p].value.Malformed? || files[p].value.metadata.Falsy? || identity.StampingFails(files[p].value))
  }

  /** The first `n` paths stamped. */
  function StampedUpTo(identity: Identity, files: Files, paths: seq<Path>, n: nat): Files
    requires n <= |paths|
  {
    map p | p in files :: if p in paths[..n] && files[p].Parsed? && files[p].value.Document? then Parsed(identity.Annotated(files[p].value)) else files[p]
  }

  /** The first file that cannot be stamped. */
  function FirstBad(identity: Identity, files: Files, paths: seq<Path>): (n: nat)
    ensures n <= |paths| && (forall i | 0 <= i < n :: !Unstampable(identity, files, paths[i])) && (n < |paths| ==> Unstampable(identity, files, paths[n]))
  {
    if paths == [] || Unstampable(identity, files, paths[0]) then 0 else 1 + FirstBad(identity, files, paths[1..])
  }

  predicate Distinct(paths: seq<Path>) {
    forall i, j | 0 <= i < j < |paths| :: paths[i] != paths[j]
  }

  predicate HasUnsearchable(identity: Identity, files: Files, paths: seq<Path>) {
    exists p :: p in paths && Unsearchable(identity, files, p)
  }

  /** The outcome and the tree after a run. */
  function After(identity: Identity, files: Files, paths: seq<Path>, dryRun: bool, allowMoves: bool): (Outcome, Files) {
    if HasUndecodable(files, paths) || (!allowMoves && HasUnsearchable(identity, files, paths)) then (Raised, files)
    else if !allowMoves && Blocked(identity, files, paths) then (Refused, files)
    else
      var n := FirstBad(identity, files, paths);
      (if n < |paths| then Raised else Done, if dryRun then files else StampedUpTo(identity, files, paths, n))
  }

  class Tree {
    const identity: Identity
    var files: Files

    constructor (identity: Identity, files: Files)
      ensures this.identity == identity && this.files == files
    {
      this.identity, this.files := identity, files;
    }

    /** Re-stamps the reports at `paths`: adjudicates all of them first, then writes. */
    method Backfill(paths: seq<Path>, dryRun: bool, allowMoves: bool) returns (r: Outcome)
      requires Distinct(paths)
      modifies this`files
      ensures (r, files) == After(identity, old(files), paths, dryRun, allowMoves)
    {
      var reports, verdict := Adjudicate(paths, allowMoves);
      if !verdict.Done? {
        return verdict;
      }
      r := WriteAll(paths, reports, dryRun);
    }

    /** The first pass: reads every report and looks for moves. No writes. */
    method Adjudicate(paths: seq<Path>, allowMoves: bool) returns (reports: seq<Option<Document>>, verdict: Outcome)
      ensures verdict ==
        if HasUndecodable(files, paths) || (!allowMoves && HasUnsearchable(identity, files, paths)) then Raised
        else if !allowMoves && Blocked(identity, files, paths) then Refused else Done
      ensures !verdict.Raised? ==> |reports| == |paths| && forall i | 0 <= i < |paths| :: reports[i] == Read(files, paths[i])
    {
      hide Identity.MovesOf, Identity.SearchFails;
      reports := [];
      var blocked := false;
      for i := 0 to |paths|
        invariant |reports| == i && forall k | 0 <= k < i :: reports[k] == Read(files, paths[k])
        invariant blocked <==> !allowMoves && Blocked(identity, files, paths[..i])
        invariant !HasUndecodable(files, paths[..i]) && (!allowMoves ==> !HasUnsearchable(identity, files, paths[..i]))
      {
        assert forall p :: p in paths[..i + 1] <==> p in paths[..i] || p == paths[i];
        if paths[i] in files && files[paths[i]].Undecodable? {
          return [], Raised;
        }
        var d := if paths[i] in files && files[paths[i]].Parsed? then Some(files[paths[i]].value) else None;
        if d.Some? && !allowMoves {
          var moves, raised := MovesBy(d.value);
          if raised {
            assert Unsearchable(identity, files, paths[i]) && paths[i] in paths;
            return [], Raised;
          }
          blocked := blocked || moves != [];
        }
        reports := reports + [d];
      }
      assert paths[..|paths|] == paths;
      verdict := if blocked then Refused else Done;
    }

    method MovesBy(d: Document) returns (moves: seq<Move>, raised: bool)
      ensures raised <==> d.Malformed? || identity.SearchFails(d)
      ensures !raised ==> moves == MovesIn(identity, d)
    {
      if d.Malformed? {
        return [], true;
      }
      var report := new Audit(identity, d);
      moves, raised := report.IdentityMoves();
    }

    /** The second pass: stamps and writes the reports in order, and stops at a file it cannot stamp. */
    method WriteAll(paths: seq<Path>, reports: seq<Option<Document>>, dryRun: bool) returns (r: Outcome)
      requires Distinct(paths) && |reports| == |paths| && forall i | 0 <= i < |paths| :: reports[i] == Read(files, paths[i])
      modifies this`files
      ensures r == if FirstBad(identity, old(files), paths) < |paths| then Raised else Done
      ensures files == if dryRun then old(files) else StampedUpTo(identity, old(files), paths, FirstBad(identity, old(files), paths))
    {
      ghost var was := files;
      assert StampedUpTo(identity, was, paths, 0) == was;
      for i := 0 to |paths|
        invariant i <= FirstBad(identity, was, paths)
        invariant files == if dryRun then was else StampedUpTo(identity, was, paths, i)
      {
        FirstBadAt(identity, was, paths, i);
        StampStep(identity, was, paths, i);
        if reports[i].Some? {
          if reports[i].value.Malformed? {
            return Raised;
          }
          var written, after := StampOne(reports[i].value);
          if written.Crashed? {
            return Raised;
          }
          if written.changed > 0 && !dryRun {
            files := files[paths[i] := Parsed(after)];
          }
        }
      }
      r := Done;
    }

    /** Stamps one report in memory. */
    method StampOne(d: Document) returns (r: Result, after: Document)
      requires d.Document?
      ensures if d.metadata.Falsy? || identity.StampingFails(d) then r == Crashed else r.Stamps? && after == identity.Annotated(d) && (r.changed == 0 <==> after == d)
    {
      var report := new Audit(identity, d);
      r := report.Annotate(true);
      after := Document(report.metadata, report.findings);
      if !d.metadata.Falsy? {
        NothingChangedExactly(identity, d);
      }
    }
  }

  function Read(files: Files, p: Path): Option<Document> {
    if Readable(files, p) then Some(files[p].value) else None
  }

  lemma FirstBadAt(identity: Identity, files: Files, paths: seq<Path>, i: nat)
    requires i < |paths| && i <= FirstBad(identity, files, paths)
    ensures FirstBad(identity, files, paths) == i <==> Unstampable(identity, files, paths[i])
  {
  }

  lemma StampStep(identity: Identity, files: Files, paths: seq<Path>, i: nat)
    requires i < |paths| && Distinct(paths)
    ensures var before, after := StampedUpTo(identity, files, paths, i), StampedUpTo(identity, files, paths, i + 1);
      after == if Readable(files, paths[i]) && files[paths[i]].value.Document? then before[paths[i] := Parsed(identity.Annotated(files[paths[i]].value))] else before
    ensures Readable(files, paths[i]) ==> StampedUpTo(identity, files, paths, i)[paths[i]] == files[paths[i]]
  {
    assert forall p :: p in paths[..i + 1] <==> p in paths[..i] || p == paths[i];
    assert paths[i] !in paths[..i];
  }

  // --------------------------------------------------------------------------
  // All or nothing
  // --------------------------------------------------------------------------

  /** Without leave to move identities, no run changes a stored stamp of any report. */
  lemma NoStampMoves(identity: Identity, files: Files, paths: seq<Path>, dryRun: bool, p: Path, i: nat)
    requires Readable(files, p) && files[p].value.Document? && i < |files[p].value.findings| && files[p].value.findings[i].stamp != ""
    ensures var after := After(identity, files, paths, dryRun, false).1;
      Readable(after, p) && after[p].value.Document? && i < |after[p].value.findings| && after[p].value.findings[i].stamp == files[p].value.findings[i].stamp
  {
    var d := files[p].value;
    NoMovesExactly(identity, d.findings, identity.RepositoryOf(d.metadata));
    StampMovesExactly(identity, d, i);
    assert forall q, n: nat | n <= |paths| && q in paths[..n] :: q in paths;
  }

  /** A run is all or nothing when it completes every report or changes none. */
  predicate AllOrNothing(identity: Identity, files: Files, paths: seq<Path>, dryRun: bool, allowMoves: bool) {
    var r := After(identity, files, paths, dryRun, allowMoves);
    r.0.Done? || r.1 == files
  }

  /** It is so unless the writing pass of a run changes a report before the first file that it cannot stamp. */
  lemma AllOrNothingExactly(identity: Identity, files: Files, paths: seq<Path>, dryRun: bool, allowMoves: bool)
    ensures AllOrNothing(identity, files, paths, dryRun, allowMoves) <==>
      || dryRun || HasUndecodable(files, paths) || (!allowMoves && (HasUnsearchable(identity, files, paths) || Blocked(identity, files, paths)))
      || !exists j :: 0 <= j < FirstBad(identity, files, paths) < |paths| && Changes(identity, files, paths[j])
  {
    StampedSame(identity, files, paths, FirstBad(identity, files, paths));
    hide StampedUpTo, Changes, Blocked, HasUnsearchable, HasUndecodable, Unstampable;
  }

  /** Stamping good files changes the tree exactly when it changes one of them. */
  lemma StampedSame(identity: Identity, files: Files, paths: seq<Path>, n: nat)
    requires n <= |paths| && forall i | 0 <= i < n :: !Unstampable(identity, files, paths[i])
    ensures StampedUpTo(identity, files, paths, n) == files <==> !exists j :: 0 <= j < n && Changes(identity, files, paths[j])
  {
    var after := StampedUpTo(identity, files, paths, n);
    if j :| 0 <= j < n && Changes(identity, files, paths[j]) {
      assert paths[..n][j] == paths[j];
      assert after[paths[j]] != files[paths[j]];
    } else {
      forall p | p in files ensures after[p] == files[p] {
        if p in paths[..n] && files[p].Parsed? {
          var j :| 0 <= j < n && paths[..n][j] == p;
          assert paths[j] == p && !Changes(identity, files, paths[j]) && !Unstampable(identity, files, paths[j]);
        }
      }
      assert after == files;
    }
  }

  /** Without leave to move identities, the file that stops the writing pass has falsy metadata, or an unstamped finding that cannot be hashed. */
  lemma WhatStopsWriting(identity: Identity, files: Files, paths: seq<Path>, dryRun: bool)
    requires !AllOrNothing(identity, files, paths, dryRun, false)
    ensures var p := paths[FirstBad(identity, files, paths)];
      && Readable(files, p) && files[p].value.Document? && !identity.SearchFails(files[p].value)
      && (files[p].value.metadata.Falsy? || UnstampedFails(identity, files[p].value))
  {
    AllOrNothingExactly(identity, files, paths, dryRun, false);
    var p := paths[FirstBad(identity, files, paths)];
    assert !Unsearchable(identity, files, p) by {
      assert p in paths;
    }
  }

  predicate UnstampedFails(identity: Identity, d: Document)
    requires d.Document?
  {
    exists i :: 0 <= i < |d.findings| && d.findings[i].stamp == "" && identity.fails(d.findings[i].content, identity.RepositoryOf(d.metadata))
  }

  /** Two reports, the second with `null` metadata: the run writes the first and then fails. */
  method HalfRun(identity: Identity, content: Content) returns (r: Outcome, after: Files)
    requires !identity.fails(content, NotText)
    ensures r.Raised? && after.Keys == {"a", "b"} && after["b"] == Parsed(Document(Falsy, []))
    ensures var was := Document(Absent, [Stamped("F-1", content, "", None)]);
      after["a"] == Parsed(identity.Annotated(was)) && identity.Annotated(was) != was
  {
    var one := Document(Absent, [Stamped("F-1", content, "", None)]);
    var start: Files := map["a" := Parsed(one), "b" := Parsed(Document(Falsy, []))];
    var tree := new Tree(identity, start);
    r := tree.Backfill(["a", "b"], false, false);
    after := tree.files;
    HalfRunAfter(identity, start, ["a", "b"], one);
  }

  lemma HalfRunAfter(identity: Identity, files: Files, paths: seq<Path>, one: Document)
    requires paths == ["a", "b"] && one.Document? && one.metadata.Absent? && |one.findings| == 1 && one.findings[0].stamp == ""
    requires !identity.fails(one.findings[0].content, NotText)
    requires files == map["a" := Parsed(one), "b" := Parsed(Document(Falsy, []))]
    ensures After(identity, files, paths, false, false) == (Raised, files["a" := Parsed(identity.Annotated(one))])
    ensures identity.Annotated(one) != one
  {
    assert paths[1..] == ["b"] && !Unstampable(identity, files, paths[0]) && Unstampable(identity, files, paths[1..][0]);
    assert FirstBad(identity, files, paths[1..]) == 0 && FirstBad(identity, files, paths) == 1;
    NoMovesExactly(identity, one.findings, identity.RepositoryOf(Absent));
    assert MovesIn(identity, one) == [] && MovesIn(identity, Document(Falsy, [])) == [];
    assert forall p | p in paths :: !Unsearchable(identity, files, p) && MovesIn(identity, files[p].value) == [];
    assert paths[..1] == ["a"];
    assert StampedUpTo(identity, files, paths, 1) == files["a" := Parsed(identity.Annotated(one))];
  }

  /** Stamping would change the report at `p`. */
  predicate Changes(identity: Identity, files: Files, p: Path) {
    Readable(files, p) && !Unstampable(identity, files, p) && identity.Annotated(files[p].value) != files[p].value
  }
}

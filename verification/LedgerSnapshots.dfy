/** The ledger gateway: one bound layer, one bound path, and the marker-then-layer snapshot protocol. */
module LedgerSnapshots {
  import opened Findings

  type Path = string
  type LayerId = string
  type Text = string

  datatype Error = LedgerError | OsError | DecodeError

  datatype Result<+T> = Ok(value: T) | Err(error: Error)

  // --------------------------------------------------------------------------
  // The disk and its atomic steps
  // --------------------------------------------------------------------------

  /** A layer file; `exported` files are snapshots of the database layer. */
  datatype File = File(text: Text, exported: bool)

  /** What a reader, or a crash, sees at one instant: layer files and the markers beside them. */
  datatype Disk = Disk(files: map<Path, File>, markers: set<Path>) {
    function PutMarker(p: Path): Disk { this.(markers := markers + {p}) }
    function PutLayer(p: Path, text: Text): Disk { this.(files := files[p := File(text, true)]) }
    function DropLayer(p: Path): Disk { this.(files := files - {p}) }
    function DropMarker(p: Path): Disk { this.(markers := markers - {p}) }

    /** Nothing to rewrite: the file holds `text` and its marker is there. */
    predicate Holds(p: Path, text: Text) { p in files && p in markers && files[p].text == text }

    /** The file equals the export, or there is none. */
    predicate Fresh(p: Path, text: Text) { p in files ==> files[p].text == text }

    /** Every exported layer file has its marker beside it. */
    predicate Marked() { forall p | p in files && files[p].exported :: p in markers }
  }

  /**
   * Which operations of one call fail: reading the layer from the database, reading the old file
   * to compare it, decoding it, reading the report to pin, the two atomic writes (preparing the
   * directory counts as part of the marker write), the two unlinks.
   */
  datatype Faults = Faults(readLayer: bool, readFile: bool, decodeFile: bool, readReport: bool,
                           writeMarker: bool, writeLayer: bool, unlinkLayer: bool, unlinkMarker: bool) {
    /** A layer file that cannot be removed keeps its marker. */
    predicate Orderly() { unlinkLayer ==> unlinkMarker }
  }

  /** The old file is compared only beside its marker: reading it may raise an operating-system error. */
  predicate Unreadable(d: Disk, p: Path, f: Faults) {
    f.readFile && p in d.files && p in d.markers
  }

  /** The old file is read and is not UTF-8: the error is no operating-system error. */
  predicate Undecodable(d: Disk, p: Path, f: Faults) {
    f.decodeFile && !f.readFile && p in d.files && p in d.markers
  }

  /** The two errors of an export that a refresh does not catch. */
  predicate Escapes(d: Disk, p: Path, f: Faults) {
    f.readLayer || Undecodable(d, p, f)
  }

  /** The export stops with an operating-system error, be it on a file that is up to date. */
  predicate ExportFails(d: Disk, p: Path, text: Text, f: Faults) {
    Unreadable(d, p, f) || (!d.Holds(p, text) && (f.writeMarker || f.writeLayer))
  }

  /** The disk states an export passes through, marker first. */
  function ExportSteps(d: Disk, p: Path, text: Text, f: Faults): seq<Disk> {
    if Unreadable(d, p, f) || d.Holds(p, text) || f.writeMarker then []
    else if f.writeLayer then [d.PutMarker(p)]
    else [d.PutMarker(p), d.PutMarker(p).PutLayer(p, text)]
  }

  /** The disk states of removing a stale snapshot, layer file first. */
  function CleanupSteps(d: Disk, p: Path, f: Faults): seq<Disk> {
    var d1 := if f.unlinkLayer then d else d.DropLayer(p);
    [d1, if f.unlinkMarker then d1 else d1.DropMarker(p)]
  }

  function LastOf(d: Disk, steps: seq<Disk>): Disk {
    if steps == [] then d else steps[|steps| - 1]
  }

  /** The disk states of a refresh: an export, and the cleanup when it fails. */
  function RefreshSteps(d: Disk, p: Path, text: Text, f: Faults): seq<Disk> {
    var steps := ExportSteps(d, p, text, f);
    if ExportFails(d, p, text, f) then steps + CleanupSteps(LastOf(d, steps), p, f) else steps
  }

  /** The one way to lose a marker: the stale layer file stays although its marker goes. */
  predicate LosesMarker(d: Disk, p: Path, text: Text, f: Faults) {
    ExportFails(d, p, text, f) && f.unlinkLayer && !f.unlinkMarker && p in d.files && d.files[p].exported
  }

  /** The one way to keep a stale file: the export and the unlink of the old file both fail. */
  predicate StaysStale(d: Disk, p: Path, text: Text, f: Faults) {
    ExportFails(d, p, text, f) && f.unlinkLayer && !d.Fresh(p, text)
  }

  lemma ExportKeepsMarked(d: Disk, p: Path, text: Text, f: Faults)
    requires d.Marked()
    ensures forall s | s in ExportSteps(d, p, text, f) :: s.Marked()
    ensures !ExportFails(d, p, text, f) ==> LastOf(d, ExportSteps(d, p, text, f)).Holds(p, text)
    ensures ExportFails(d, p, text, f) || d.Holds(p, text) || LastOf(d, ExportSteps(d, p, text, f)) == Disk(d.files[p := File(text, true)], d.markers + {p})
  {
  }

  /** Every instant of a refresh shows marked snapshots, unless that one combination of faults occurs. */
  lemma RefreshMarkedExactly(d: Disk, p: Path, text: Text, f: Faults)
    requires d.Marked()
    ensures (forall s | s in RefreshSteps(d, p, text, f) :: s.Marked()) <==> !LosesMarker(d, p, text, f)
  {
    ExportKeepsMarked(d, p, text, f);
    if ExportFails(d, p, text, f) {
      var steps := ExportSteps(d, p, text, f);
      var d0 := LastOf(d, steps);
      var cleanup := CleanupSteps(d0, p, f);
      assert d0.Marked();
      assert forall s | s in RefreshSteps(d, p, text, f) :: s in steps || s == cleanup[0] || s == cleanup[1];
      assert cleanup[1] in RefreshSteps(d, p, text, f) by {
        assert RefreshSteps(d, p, text, f)[|steps| + 1] == cleanup[1];
      }
      assert LosesMarker(d, p, text, f) ==> p in cleanup[1].files && cleanup[1].files[p].exported && p !in cleanup[1].markers;
    }
  }

  /** A refresh ends with the file equal to the export or gone, unless both the export and the unlink fail. */
  lemma RefreshFreshExactly(d: Disk, p: Path, text: Text, f: Faults)
    ensures LastOf(d, RefreshSteps(d, p, text, f)).Fresh(p, text) <==> !StaysStale(d, p, text, f)
  {
  }

  // --------------------------------------------------------------------------
  // The layer binding
  // --------------------------------------------------------------------------

  datatype Binding = Binding(layerId: Option<LayerId>, productRepo: Option<string>)

  /** Which layer a binding means. */
  function ResolveBinding(b: Binding, owners: map<string, LayerId>): Result<LayerId> {
    if b.productRepo.Some? && b.productRepo.value !in owners then Err(LedgerError)
    else if b.productRepo.Some? && b.layerId.Some? && owners[b.productRepo.value] != b.layerId.value then Err(LedgerError)
    else if b.layerId.Some? then Ok(b.layerId.value)
    else if b.productRepo.Some? then Ok(owners[b.productRepo.value])
    else Err(LedgerError)
  }

  /** `id` meets every condition that the binding states, and it states one. */
  predicate Meets(b: Binding, owners: map<string, LayerId>, id: LayerId) {
    && (b.layerId.Some? || b.productRepo.Some?)
    && (b.layerId.Some? ==> id == b.layerId.value)
    && (b.productRepo.Some? ==> b.productRepo.value in owners && owners[b.productRepo.value] == id)
  }

  predicate OneOwnerEach(owners: map<string, LayerId>) {
    forall x, y | x in owners && y in owners && owners[x] == owners[y] :: x == y
  }

  /** A binding resolves to the layer that meets it, and fails when none does; bindings of different owners never share a layer. */
  lemma BindingNeverCrossesOwners(b: Binding, c: Binding, owners: map<string, LayerId>)
    ensures forall id :: ResolveBinding(b, owners) == Ok(id) <==> Meets(b, owners, id)
    ensures ResolveBinding(b, owners).Err? <==> forall id :: !Meets(b, owners, id)
    ensures OneOwnerEach(owners) && b.productRepo.Some? && c.productRepo.Some? && b.productRepo != c.productRepo ==>
      ResolveBinding(b, owners).Err? || ResolveBinding(c, owners) != ResolveBinding(b, owners)
  {
    if ResolveBinding(b, owners).Ok? {
      assert Meets(b, owners, ResolveBinding(b, owners).value);
    }
  }

  // --------------------------------------------------------------------------
  // The world outside the service
  // --------------------------------------------------------------------------

  datatype Call = Call(id: LayerId, path: Path)

  /** A change that the ledger accepts (the new layer) or refuses. */
  type Change = Text -> Option<Text>

  /** The ledger database, the disk with every state it went through, and the calls made to the ledger. */
  class World {
    var layers: map<LayerId, Text>
    var owners: map<string, LayerId>
    var disk: Disk
    var trace: seq<Disk>
    var calls: seq<Call>

    ghost predicate Valid()
      reads this
    {
      trace != [] && trace[|trace| - 1] == disk
    }

    constructor (layers: map<LayerId, Text>, owners: map<string, LayerId>, disk: Disk)
      ensures Valid() && this.layers == layers && this.owners == owners && this.disk == disk && trace == [disk] && calls == []
    {
      this.layers, this.owners, this.disk, this.trace, this.calls := layers, owners, disk, [disk], [];
    }

    method SetDisk(d: Disk)
      modifies this`disk, this`trace
      ensures disk == d && trace == old(trace) + [d] && Valid()
    {
      disk := d;
      trace := trace + [d];
    }

    /** One read of a layer from the ledger. */
    method Get(id: LayerId, path: Path, fails: bool) returns (r: Result<Text>)
      modifies this`calls
      ensures calls == old(calls) + [Call(id, path)]
      ensures r == if fails || id !in layers then Err(LedgerError) else Ok(layers[id])
    {
      calls := calls + [Call(id, path)];
      r := if fails || id !in layers then Err(LedgerError) else Ok(layers[id]);
    }

    /** One atomic ledger write; `false` is a refusal. */
    method Mutate(id: LayerId, path: Path, change: Change) returns (ok: bool)
      modifies this`layers, this`calls
      ensures calls == old(calls) + [Call(id, path)]
      ensures ok <==> id in old(layers) && change(old(layers)[id]).Some?
      ensures layers == if ok then old(layers)[id := change(old(layers)[id]).value] else old(layers)
    {
      calls := calls + [Call(id, path)];
      ok := id in layers && change(layers[id]).Some?;
      if ok {
        layers := layers[id := change(layers[id]).value];
      }
    }

    /** The file-mode backend: the layer file is the ledger. */
    method MutateFile(id: LayerId, path: Path, change: Change) returns (ok: bool)
      requires Valid()
      modifies this`disk, this`trace, this`calls
      ensures Valid() && calls == old(calls) + [Call(id, path)]
      ensures ok <==> path in old(disk).files && change(old(disk).files[path].text).Some?
      ensures disk == if ok then old(disk).(files := old(disk).files[path := File(change(old(disk).files[path].text).value, false)]) else old(disk)
      ensures trace == old(trace) + if ok then [disk] else []
    {
      calls := calls + [Call(id, path)];
      ok := path in disk.files && change(disk.files[path].text).Some?;
      if ok {
        SetDisk(disk.(files := disk.files[path := File(change(disk.files[path].text).value, false)]));
      }
    }
  }

  // --------------------------------------------------------------------------
  // The service
  // --------------------------------------------------------------------------

  /** A write committed to the database although the method raised: the caller must not retry. */
  datatype Outcome = Returned | Refused(error: Error) | RaisedAfterCommit(error: Error)

  class LedgerService {
    const world: World
    const database: bool
    const binding: Binding
    const stem: Path -> LayerId
    /** Where the client of file mode keeps a layer: a file in its own data directory. */
    const home: LayerId -> Path
    var boundId: Option<LayerId>
    var boundPath: Option<Path>

    /** Database mode: every ledger call so far used the bound layer and the bound path. */
    ghost predicate Valid()
      reads this, world
    {
      && world.Valid()
      && (database ==>
            && (boundId.Some? ==> boundPath.Some?)
            && forall c | c in world.calls :: boundId == Some(c.id) && boundPath == Some(c.path))
    }

    /** No binding is ever replaced. */
    twostate predicate Rebinds()
      reads this
    {
      (old(boundId).Some? && boundId != old(boundId)) || (old(boundPath).Some? && boundPath != old(boundPath))
    }

    constructor (world: World, database: bool, binding: Binding, stem: Path -> LayerId, home: LayerId -> Path)
      requires world.Valid() && world.calls == []
      ensures Valid() && this.world == world && this.database == database && boundId == boundPath == None
    {
      this.world, this.database, this.binding, this.stem, this.home := world, database, binding, stem, home;
      boundId, boundPath := None, None;
    }

    /** The layer that a request for `path` means now: the bound one, or else the one the binding resolves to; none for another path. */
    ghost function Meant(path: Path): Option<LayerId>
      reads this, world
    {
      if !database then Some(stem(path))
      else if boundPath.Some? && boundPath != Some(path) then None
      else if boundId.Some? then boundId
      else if ResolveBinding(binding, world.owners).Ok? then Some(ResolveBinding(binding, world.owners).value)
      else None
    }

    /** Where a write to `path` would go now: the layer that is meant, or the client's file of that stem; nowhere beside a marker. */
    ghost function Goal(path: Path): Option<string>
      reads this, world
    {
      if database then Meant(path) else if path in world.disk.markers then None else Some(home(stem(path)))
    }

    /** What a read of `path` gives now: in database mode the layer, when the ledger, the old file and the export allow it. */
    ghost function Seen(path: Path, f: Faults): Option<Text>
      reads this, world
    {
      if !database then (if path in world.disk.files then Some(world.disk.files[path].text) else None)
      else
        var id := Meant(path);
        if f.readLayer || Undecodable(world.disk, path, f) || id.None? || id.value !in world.layers then None
        else if ExportFails(world.disk, path, world.layers[id.value], f) then None
        else Some(world.layers[id.value])
    }

    /** The layer id for `path`; database mode accepts one path and resolves one id per service. */
    method LayerFor(path: Path) returns (r: Result<LayerId>)
      requires Valid()
      modifies this
      ensures Valid() && !Rebinds()
      ensures !database ==> r == Ok(stem(path)) && boundId == old(boundId) && boundPath == old(boundPath)
      ensures database ==> (r.Ok? <==> (old(boundPath) == None || old(boundPath) == Some(path))
                                       && (old(boundId).Some? || ResolveBinding(binding, world.owners).Ok?))
      ensures database ==> (r.Ok? <==> boundId.Some? && boundPath == Some(path))
      ensures (if r.Ok? then Some(r.value) else None) == old(Meant(path))
      ensures database ==> boundPath == (if old(boundPath).None? then Some(path) else old(boundPath)) && boundId == if r.Ok? then Some(r.value) else old(boundId)
      ensures database && r.Ok? ==> boundId == Some(r.value)
      ensures r.Err? ==> r.error == LedgerError
    {
      if !database {
        return Ok(stem(path));
      }
      if boundPath.None? {
        boundPath := Some(path);
      } else if boundPath != Some(path) {
        return Err(LedgerError);
      }
      if boundId.None? {
        var id := ResolveBinding(binding, world.owners);
        if id.Err? {
          return id;
        }
        boundId := Some(id.value);
      }
      r := Ok(boundId.value);
    }

    /** The layer id for a write; file mode refuses a path that carries a snapshot marker. */
    method WriteTarget(path: Path) returns (r: Result<LayerId>)
      requires Valid()
      modifies this
      ensures Valid() && !Rebinds()
      ensures r.Ok? <==> Writable(path, Key(path))
      ensures r.Ok? ==> if database then boundId == Some(r.value) else r.value == stem(path)
      ensures r.Ok? <==> old(Goal(path)).Some?
      ensures r.Ok? ==> Key(path) == old(Goal(path)).value
      ensures r.Err? ==> r.error == LedgerError
    {
      if !database && path in world.disk.markers {
        return Err(LedgerError);
      }
      r := LayerFor(path);
    }

    /** Exports the bound layer: marker first, then the layer file, each atomically. */
    method WriteSnapshot(path: Path, f: Faults) returns (r: Result<Text>)
      requires Valid()
      modifies this, world`disk, world`trace, world`calls
      ensures Valid() && !Rebinds()
      ensures r.Ok? ==> database && boundPath == Some(path) && boundId.Some? && boundId.value in world.layers && r.value == world.layers[boundId.value]
      ensures r.Ok? ==> !ExportFails(old(world.disk), path, r.value, f)
      ensures r.Ok? ==> world.trace == old(world.trace) + ExportSteps(old(world.disk), path, r.value, f)
      ensures r.Err? && r.error.OsError? ==> boundId.Some? && boundId.value in world.layers && boundPath == Some(path)
      ensures r.Err? && r.error.OsError? ==> ExportFails(old(world.disk), path, world.layers[boundId.value], f)
      ensures r.Err? && r.error.OsError? ==> world.trace == old(world.trace) + ExportSteps(old(world.disk), path, world.layers[boundId.value], f)
      ensures r.Err? && !r.error.OsError? ==> world.trace == old(world.trace)
      ensures old(world.trace) <= world.trace
      ensures (if r.Ok? then Some(r.value) else None) == if database then old(Seen(path, f)) else None
      ensures r.Ok? || (r.Err? && r.error.OsError?) ==> boundId == old(Meant(path))
      ensures database && old(boundPath) == Some(path) && old(boundId).Some? && old(boundId).value in world.layers ==>
        && (r == Err(LedgerError) <==> f.readLayer)
        && (r == Err(DecodeError) <==> !f.readLayer && Undecodable(old(world.disk), path, f))
      ensures f.readLayer ==> r == Err(LedgerError)
    {
      if !database {
        return Err(LedgerError);
      }
      var id := LayerFor(path);
      if id.Err? {
        return Err(LedgerError);
      }
      var layer := world.Get(id.value, path, f.readLayer);
      if layer.Err? {
        return layer;
      }
      var text := layer.value;
      if path in world.disk.files && path in world.disk.markers {
        if f.readFile {
          return Err(OsError);
        }
        if f.decodeFile {
          return Err(DecodeError);
        }
        if world.disk.files[path].text == text {
          return Ok(text);
        }
      }
      if f.writeMarker {
        return Err(OsError);
      }
      world.SetDisk(world.disk.PutMarker(path));
      if f.writeLayer {
        return Err(OsError);
      }
      world.SetDisk(world.disk.PutLayer(path, text));
      r := Ok(text);
    }

    /** Re-exports after a committed write; a failed export removes the stale snapshot instead of raising. */
    method Refresh(path: Path, f: Faults) returns (r: Result<()>)
      requires Valid()
      requires database ==> boundPath == Some(path) && boundId.Some? && boundId.value in world.layers
      modifies this, world`disk, world`trace, world`calls
      ensures Valid() && boundId == old(boundId) && boundPath == old(boundPath)
      ensures !database ==> r.Ok? && world.trace == old(world.trace)
      ensures database ==> (r.Err? <==> Escapes(old(world.disk), path, f))
      ensures database && r.Err? ==> world.trace == old(world.trace) && r.error == (if f.readLayer then LedgerError else DecodeError)
      ensures database && r.Ok? ==>
        world.trace == old(world.trace) + RefreshSteps(old(world.disk), path, world.layers[boundId.value], f)
    {
      if !database {
        return Ok(());
      }
      ghost var d, text := world.disk, world.layers[boundId.value];
      var s := WriteSnapshot(path, f);
      if s.Err? && s.error != OsError {
        return Err(s.error);
      }
      if s.Err? {
        ghost var steps := ExportSteps(d, path, text, f);
        ghost var d0 := world.disk;
        assert d0 == LastOf(d, steps) by {
          assert steps == [] ==> world.trace == old(world.trace);
        }
        if f.unlinkLayer {
          world.SetDisk(world.disk);
        } else {
          world.SetDisk(world.disk.DropLayer(path));
        }
        if f.unlinkMarker {
          world.SetDisk(world.disk);
        } else {
          world.SetDisk(world.disk.DropMarker(path));
        }
        assert world.trace == old(world.trace) + (steps + CleanupSteps(d0, path, f));
        assert RefreshSteps(d, path, text, f) == steps + CleanupSteps(d0, path, f);
      }
      r := Ok(());
    }

    /** What the ledger of the mode holds. */
    ghost function Stored(): Backend
      reads this, world
    {
      if database then Layers(world.layers) else Files(world.disk)
    }

    /** A write to `path` may go to the ledger under `key`. */
    ghost predicate Writable(path: Path, key: string)
      reads this, world
    {
      if database then boundId == Some(key) && boundPath == Some(path) else key == home(stem(path)) && path !in world.disk.markers
    }

    /** Sends one change to the ledger backend of the mode. */
    method Commit(id: LayerId, path: Path, change: Change) returns (ok: bool)
      requires Valid() && Writable(path, Key(path)) && Key(path) == if database then id else home(id)
      modifies world
      ensures Valid() && Writable(path, Key(path))
      ensures ok <==> Applied(old(Stored()), Key(path), change).Some?
      ensures Stored() == Applied(old(Stored()), Key(path), change).GetOr(old(Stored()))
      ensures database ==> world.trace == old(world.trace)
      ensures old(world.trace) <= world.trace && (!database ==> world.disk.markers == old(world.disk.markers))
      ensures Sheltered(path, old(world.disk.markers)) ==> AllKeepMarkedPaths(old(world.disk), old(world.trace), world.trace)
    {
      if database {
        ok := world.Mutate(id, path, change);
      } else {
        ok := world.MutateFile(id, home(id), change);
      }
    }

    /** The snapshot at `path` is the export of the bound layer, or the export and the removal both failed. */
    ghost predicate Refreshed(path: Path, before: Disk, f: Faults)
      reads this, world
    {
      && boundPath == Some(path) && boundId.Some? && boundId.value in world.layers
      && (world.disk.Fresh(path, world.layers[boundId.value]) <==> !StaysStale(before, path, world.layers[boundId.value], f))
    }

    /** The ledger key of a write to `path`: the bound layer, or the client's file of that stem. */
    ghost function Key(path: Path): string
      reads this
    {
      if database then boundId.GetOr("") else home(stem(path))
    }

    /** Where a read of `path` finds the layer. */
    ghost function ReadKey(path: Path): string
      reads this
    {
      if database then boundId.GetOr("") else path
    }

    /** The client's file is not a snapshot, or a write is refused beside the given path already. */
    ghost predicate Sheltered(path: Path, markers: set<Path>) {
      database || home(stem(path)) !in markers || path in markers
    }

    /**
     * The refreshing writes of one change: sign, resolve a review item, countersign, patch
     * metadata, restate, stamp event identities.
     */
    method Write(path: Path, change: Change, f: Faults) returns (o: Outcome)
      requires Valid()
      modifies this, world
      ensures Valid() && !Rebinds() && old(world.trace) <= world.trace
      ensures o.Refused? <==> old(Goal(path)).None? || Applied(old(Stored()), old(Goal(path)).value, change).None?
      ensures Writable(path, Key(path)) <==> old(Goal(path)).Some?
      ensures old(Goal(path)).Some? ==> Key(path) == old(Goal(path)).value
      ensures o.Refused? <==> !Writable(path, Key(path)) || Applied(old(Stored()), Key(path), change).None?
      ensures o.Refused? ==> Stored() == old(Stored()) && o.error == LedgerError
      ensures o.RaisedAfterCommit? ==> o.error == if f.readLayer then LedgerError else DecodeError
      ensures !o.Refused? ==> Some(Stored()) == Applied(old(Stored()), Key(path), change)
      ensures !o.Refused? ==> (o.RaisedAfterCommit? <==> database && Escapes(old(world.disk), path, f))
      ensures !database ==> world.disk.markers == old(world.disk.markers)
      ensures !database && Sheltered(path, old(world.disk.markers)) ==> AllKeepMarkedPaths(old(world.disk), old(world.trace), world.trace)
      ensures database && o.Returned? ==> Refreshed(path, old(world.disk), f)
      ensures database && !o.Returned? ==> world.trace == old(world.trace)
      ensures database && f.Orderly() && AllMarked(old(world.trace)) ==> AllMarked(world.trace)
    {
      o := Refused(LedgerError);
      var id := WriteTarget(path);
      if id.Ok? {
        var ok := Commit(id.value, path, change);
        if ok {
          o := RefreshAfterWrite(path, f);
        }
      }
    }

    /** Appends events and, when a report is given, pins its digest: two atomic writes, one refresh. */
    method SubmitEvents(path: Path, append: Change, pin: Option<Change>, f: Faults) returns (o: Outcome)
      requires Valid()
      modifies this, world
      ensures Valid() && !Rebinds() && old(world.trace) <= world.trace
      ensures o.Refused? <==> old(Goal(path)).None? || Applied(old(Stored()), old(Goal(path)).value, append).None?
      ensures old(Goal(path)).Some? ==> Key(path) == old(Goal(path)).value
      ensures o.Refused? <==> !Writable(path, Key(path)) || Applied(old(Stored()), Key(path), append).None?
      ensures Stored() == if o.Refused? then old(Stored()) else AppliedBoth(old(Stored()), Key(path), append, if f.readReport then None else pin)
      ensures !o.Refused? ==>
        (o.RaisedAfterCommit? <==> PinFails(old(Stored()), Key(path), append, pin, f) || (database && Escapes(old(world.disk), path, f)))
      ensures o.Refused? ==> o.error == LedgerError
      ensures !database ==> world.disk.markers == old(world.disk.markers)
      ensures !database && Sheltered(path, old(world.disk.markers)) ==> AllKeepMarkedPaths(old(world.disk), old(world.trace), world.trace)
      ensures database && o.Returned? ==> Refreshed(path, old(world.disk), f)
      ensures database && !o.Returned? ==> world.trace == old(world.trace)
      ensures database && f.Orderly() && AllMarked(old(world.trace)) ==> AllMarked(world.trace)
    {
      hide AllMarked, KeepsMarkedPaths, Escapes, StaysStale, Applied;
      o := Refused(LedgerError);
      var id := WriteTarget(path);
      if id.Ok? {
        var first, second := CommitBoth(id.value, path, append, if f.readReport then None else pin);
        if first && second && !(pin.Some? && f.readReport) {
          o := RefreshAfterWrite(path, f);
        } else if first {
          o := RaisedAfterCommit(if pin.Some? && f.readReport then OsError else LedgerError);
        }
      }
    }

    method CommitBoth(id: LayerId, path: Path, append: Change, pin: Option<Change>) returns (first: bool, second: bool)
      requires Valid() && Writable(path, Key(path)) && Key(path) == if database then id else home(id)
      modifies world
      ensures Valid() && Writable(path, Key(path))
      ensures first <==> Applied(old(Stored()), Key(path), append).Some?
      ensures second <==> first && !PinRefused(old(Stored()), Key(path), append, pin)
      ensures Stored() == if first then AppliedBoth(old(Stored()), Key(path), append, pin) else old(Stored())
      ensures database ==> world.trace == old(world.trace)
      ensures first && database ==> Key(path) in world.layers
      ensures old(world.trace) <= world.trace && (!database ==> world.disk.markers == old(world.disk.markers))
      ensures Sheltered(path, old(world.disk.markers)) ==> AllKeepMarkedPaths(old(world.disk), old(world.trace), world.trace)
    {
      hide AllKeepMarkedPaths, KeepsMarkedPaths;
      first := Commit(id, path, append);
      second := first;
      if first && pin.Some? {
        ghost var d, t := world.disk, world.trace;
        second := Commit(id, path, pin.value);
        if Sheltered(path, old(world.disk.markers)) {
          KeptAcross(old(world.disk), old(world.trace), d, t, world.trace);
        }
      }
    }

    method RefreshAfterWrite(path: Path, f: Faults) returns (o: Outcome)
      requires Valid()
      requires database ==> boundPath == Some(path) && boundId.Some? && boundId.value in world.layers
      modifies this, world`disk, world`trace, world`calls
      ensures Valid() && boundId == old(boundId) && boundPath == old(boundPath) && old(world.trace) <= world.trace
      ensures !o.Refused? && (o.RaisedAfterCommit? <==> database && Escapes(old(world.disk), path, f))
      ensures o.RaisedAfterCommit? ==> o.error == if f.readLayer then LedgerError else DecodeError
      ensures Stored() == old(Stored()) && Key(path) == old(Key(path))
      ensures !o.Returned? || !database ==> world.trace == old(world.trace)
      ensures database && o.Returned? ==> Refreshed(path, old(world.disk), f)
      ensures database && f.Orderly() && AllMarked(old(world.trace)) ==> AllMarked(world.trace)
    {
      ghost var d, t := world.disk, world.trace;
      var r := Refresh(path, f);
      if database && r.Ok? {
        RefreshFreshExactly(d, path, world.layers[boundId.value], f);
        MarkedAfterRefresh(t, d, path, world.layers[boundId.value], f);
        LastOfTrace(t, d, RefreshSteps(d, path, world.layers[boundId.value], f));
      }
      o := if r.Ok? then Returned else RaisedAfterCommit(r.error);
    }

    /** Replaces the whole layer; the one write that does not refresh the snapshot. */
    method StoreLayer(path: Path, text: Text) returns (o: Outcome)
      requires Valid()
      modifies this, world
      ensures Valid() && !Rebinds() && !o.RaisedAfterCommit?
      ensures o.Returned? <==> old(Goal(path)).Some? && old(Stored()).Contains(old(Goal(path)).value)
      ensures o.Refused? ==> o.error == LedgerError
      ensures old(Goal(path)).Some? ==> Key(path) == old(Goal(path)).value
      ensures Stored() == if o.Returned? then old(Stored()).With(Key(path), text) else old(Stored())
      ensures database ==> world.trace == old(world.trace)
      ensures old(world.trace) <= world.trace && (!database ==> world.disk.markers == old(world.disk.markers))
      ensures Sheltered(path, old(world.disk.markers)) ==> AllKeepMarkedPaths(old(world.disk), old(world.trace), world.trace)
    {
      var id := WriteTarget(path);
      if id.Err? {
        return Refused(id.error);
      }
      var ok := Commit(id.value, path, _ => Some(text));
      o := if ok then Returned else Refused(LedgerError);
    }

    /** Reads the layer: the file in file mode, the database (with a re-export) in database mode. */
    method ReadLayer(path: Path, f: Faults) returns (r: Result<Text>)
      requires Valid()
      modifies this, world`disk, world`trace, world`calls
      ensures Valid() && !Rebinds() && old(world.trace) <= world.trace
      ensures !database ==> world.trace == old(world.trace) && world.disk == old(world.disk)
      ensures !database ==> r == if path in world.disk.files then Ok(world.disk.files[path].text) else Err(OsError)
      ensures database && r.Ok? ==> boundPath == Some(path) && boundId.Some? && boundId.value in world.layers
      ensures database && r.Ok? ==> r.value == world.layers[boundId.value] && world.disk.Holds(path, r.value)
      ensures (if r.Ok? then Some(r.value) else None) == old(Seen(path, f))
      ensures database && r.Ok? ==> boundId == old(Meant(path))
      ensures database && AllMarked(old(world.trace)) ==> AllMarked(world.trace)
    {
      if !database {
        return if path in world.disk.files then Ok(world.disk.files[path].text) else Err(OsError);
      }
      ghost var d, t := world.disk, world.trace;
      r := WriteSnapshot(path, f);
      assert d in t by { assert t[|t| - 1] == d; }
      if boundId.Some? && boundId.value in world.layers {
        MarkedAfterExport(t, d, path, world.layers[boundId.value], f);
        LastOfTrace(t, d, ExportSteps(d, path, world.layers[boundId.value], f));
      }
    }

    /** Pins a report digest once; a layer pinned to other report bytes is refused. */
    method StampReport(path: Path, pinOf: Text -> Option<string>, digest: string, pin: Change, f: Faults, g: Faults)
      returns (o: Outcome, written: bool)
      requires Valid()
      modifies this, world
      ensures Valid() && !Rebinds() && old(world.trace) <= world.trace
      ensures !database ==> world.disk.markers == old(world.disk.markers)
      ensures !database && Sheltered(path, old(world.disk.markers)) ==> AllKeepMarkedPaths(old(world.disk), old(world.trace), world.trace)
      ensures f.readReport ==> o == Refused(OsError)
      ensures o.Returned? && !written <==> !f.readReport && old(Seen(path, f)).Some? && pinOf(old(Seen(path, f)).value) == Some(digest)
      ensures o.RaisedAfterCommit? || written <==>
        !f.readReport && old(Seen(path, f)).Some? && pinOf(old(Seen(path, f)).value).None?
          && old(Goal(path)).Some? && Applied(old(Stored()), old(Goal(path)).value, pin).Some?
      ensures written ==> o.Returned?
      ensures o.Returned? || o.RaisedAfterCommit? ==> old(Stored()).Contains(ReadKey(path))
      ensures o.Returned? && !written ==> Stored() == old(Stored()) && pinOf(old(Stored()).At(ReadKey(path))) == Some(digest)
      ensures written || o.RaisedAfterCommit? ==> Writable(path, Key(path)) && pinOf(old(Stored()).At(ReadKey(path))).None?
      ensures written || o.RaisedAfterCommit? ==> Applied(old(Stored()), Key(path), pin) == Some(Stored())
      ensures o.Refused? ==> Stored() == old(Stored())
      ensures database && written && !g.unlinkLayer ==>
        boundId.Some? && boundId.value in world.layers && world.disk.Fresh(path, world.layers[boundId.value])
      ensures database && g.Orderly() && AllMarked(old(world.trace)) ==> AllMarked(world.trace)
    {
      written := false;
      if f.readReport {
        return Refused(OsError), false;
      }
      var text := ReadLayer(path, f);
      if text.Err? {
        return Refused(text.error), false;
      }
      var current := pinOf(text.value);
      if current == Some(digest) {
        return Returned, false;
      }
      if current.Some? {
        return Refused(LedgerError), false;
      }
      o := Write(path, pin, g);
      written := o.Returned?;
    }

    /** Queries or verifies the layer: one ledger call, and neither ledger nor disk changes. */
    method Inspect(path: Path, f: Faults) returns (r: Result<Text>)
      requires Valid()
      modifies this, world`calls
      ensures Valid() && !Rebinds() && (r.Err? ==> r.error == LedgerError)
      ensures database ==> (r.Ok? <==> old(Meant(path)).Some? && old(Meant(path)).value in world.layers && !f.readLayer)
      ensures database && r.Ok? ==> r.value == world.layers[old(Meant(path)).value]
      ensures !database ==> r == if Key(path) in world.disk.files then Ok(world.disk.files[Key(path)].text) else Err(LedgerError)
    {
      var id := LayerFor(path);
      if id.Err? {
        return Err(LedgerError);
      }
      if !database {
        var file := home(stem(path));
        return if file in world.disk.files then Ok(world.disk.files[file].text) else Err(LedgerError);
      }
      r := world.Get(id.value, path, f.readLayer);
    }

    method Serve(q: Request)
      requires Valid()
      modifies this, world
      ensures Valid() && !Rebinds() && old(world.trace) <= world.trace
      ensures !database ==> world.disk.markers == old(world.disk.markers)
      ensures !database && Sheltered(q.path, old(world.disk.markers)) ==> AllKeepMarkedPaths(old(world.disk), old(world.trace), world.trace)
      ensures database && q.Orderly() && AllMarked(old(world.trace)) ==> AllMarked(world.trace)
    {
      match q.op
      case WriteOp(change) => var _ := Write(q.path, change, q.faults);
      case SubmitOp(append, report) => var _ := SubmitEvents(q.path, append, report, q.faults);
      case StoreOp(text) => var _ := StoreLayer(q.path, text);
      case ReadOp => var _ := ReadLayer(q.path, q.faults);
      case InspectOp => var _ := Inspect(q.path, q.faults);
      case StampOp(pinOf, digest, pin) => var _, _ := StampReport(q.path, pinOf, digest, pin, q.readFaults, q.faults);
    }

    /**
     * Any run of any requests, reads included: one layer, one path, marked snapshots at every instant, and in
     * file mode marked paths untouched, when no unmarked path shares its stem with a marked file of the client.
     */
    method Run(requests: seq<Request>)
      requires Valid()
      modifies this, world
      ensures Valid() && !Rebinds()
      ensures database ==> forall c, d | c in world.calls && d in world.calls :: c == d
      ensures database && (forall q | q in requests :: q.Orderly()) && AllMarked(old(world.trace)) ==> AllMarked(world.trace)
      ensures !database && (forall q | q in requests :: Sheltered(q.path, old(world.disk.markers))) ==>
        AllKeepMarkedPaths(old(world.disk), old(world.trace), world.trace)
    {
      for i := 0 to |requests|
        invariant Valid() && !Rebinds() && old(world.trace) <= world.trace && (!database ==> world.disk.markers == old(world.disk.markers))
        invariant database && (forall q | q in requests :: q.Orderly()) && AllMarked(old(world.trace)) ==> AllMarked(world.trace)
        invariant !database && (forall q | q in requests :: Sheltered(q.path, old(world.disk.markers))) ==>
          AllKeepMarkedPaths(old(world.disk), old(world.trace), world.trace)
      {
        ghost var d, t := world.disk, world.trace;
        Serve(requests[i]);
        if !database && forall q | q in requests :: Sheltered(q.path, old(world.disk.markers)) {
          KeptAcross(old(world.disk), old(world.trace), d, t, world.trace);
        }
      }
      assert database ==> forall c, d | c in world.calls && d in world.calls :: boundId == Some(c.id) && boundId == Some(d.id);
    }
  }

  datatype Op =
    | WriteOp(change: Change)
    | SubmitOp(append: Change, report: Option<Change>)
    | StoreOp(text: Text)
    | ReadOp
    | InspectOp
    | StampOp(pinOf: Text -> Option<string>, digest: string, pin: Change)

  datatype Request = Request(op: Op, path: Path, readFaults: Faults, faults: Faults) {
    predicate Orderly() { faults.Orderly() }
  }

  lemma KeptAcross(d: Disk, start: seq<Disk>, mid: Disk, before: seq<Disk>, after: seq<Disk>)
    requires start != [] && start[|start| - 1] == d && before != [] && before[|before| - 1] == mid
    requires AllKeepMarkedPaths(d, start, before) && AllKeepMarkedPaths(mid, before, after)
    ensures AllKeepMarkedPaths(d, start, after)
  {
    assert KeepsMarkedPaths(d, mid) by {
      assert |before| > |start| ==> KeepsMarkedPaths(d, before[|before| - 1]);
    }
    forall i | |start| <= i < |after| ensures KeepsMarkedPaths(d, after[i]) {
      if i < |before| {
        assert after[i] == before[i];
      } else {
        assert KeepsMarkedPaths(mid, after[i]);
      }
    }
  }

  /** The store behind the ledger client: database layers, or the layer files themselves. */
  datatype Backend = Layers(layers: map<LayerId, Text>) | Files(disk: Disk) {
    predicate Contains(key: string) {
      match this
      case Layers(l) => key in l
      case Files(d) => key in d.files
    }

    function At(key: string): Text
      requires Contains(key)
    {
      match this
      case Layers(l) => l[key]
      case Files(d) => d.files[key].text
    }

    function With(key: string, text: Text): Backend {
      match this
      case Layers(l) => Layers(l[key := text])
      case Files(d) => Files(d.(files := d.files[key := File(text, false)]))
    }
  }

  /** `stored` after one accepted change to `key`; nothing when the change is refused. */
  function Applied(stored: Backend, key: string, change: Change): Option<Backend> {
    if stored.Contains(key) && change(stored.At(key)).Some? then Some(stored.With(key, change(stored.At(key)).value)) else None
  }

  /** The second of two changes is refused after the first was accepted. */
  predicate PinRefused(stored: Backend, key: string, append: Change, pin: Option<Change>) {
    && pin.Some? && Applied(stored, key, append).Some?
    && Applied(Applied(stored, key, append).value, key, pin.value).None?
  }

  /** After the first change was accepted, the report cannot be read or the second change is refused. */
  predicate PinFails(stored: Backend, key: string, append: Change, pin: Option<Change>, f: Faults) {
    pin.Some? && (f.readReport || PinRefused(stored, key, append, pin))
  }

  /** `stored` after an accepted change and, where accepted, a second one. */
  function AppliedBoth(stored: Backend, key: string, append: Change, pin: Option<Change>): Backend {
    var appended := Applied(stored, key, append).GetOr(stored);
    if pin.Some? then Applied(appended, key, pin.value).GetOr(appended) else appended
  }

  ghost predicate AllMarked(trace: seq<Disk>) {
    forall s | s in trace :: s.Marked()
  }

  lemma LastOfTrace(trace: seq<Disk>, d: Disk, steps: seq<Disk>)
    requires trace != [] && trace[|trace| - 1] == d
    ensures (trace + steps)[|trace + steps| - 1] == LastOf(d, steps)
  {
    if steps == [] {
      assert trace + steps == trace;
    }
  }

  lemma MarkedAfterExport(trace: seq<Disk>, d: Disk, p: Path, text: Text, f: Faults)
    ensures AllMarked(trace) && d in trace ==> AllMarked(trace + ExportSteps(d, p, text, f))
  {
    if AllMarked(trace) && d in trace {
      ExportKeepsMarked(d, p, text, f);
    }
  }

  lemma MarkedAfterRefresh(trace: seq<Disk>, d: Disk, p: Path, text: Text, f: Faults)
    ensures AllMarked(trace) && d in trace && f.Orderly() ==> AllMarked(trace + RefreshSteps(d, p, text, f))
  {
    if AllMarked(trace) && d in trace {
      RefreshMarkedExactly(d, p, text, f);
    }
  }

  /** Every disk state after `before` keeps the marked paths of `d`. */
  ghost predicate AllKeepMarkedPaths(d: Disk, before: seq<Disk>, trace: seq<Disk>) {
    && before <= trace
    && forall i | |before| <= i < |trace| :: KeepsMarkedPaths(d, trace[i])
  }

  /** File mode leaves every path that carries a marker exactly as it was, and moves no marker. */
  ghost predicate KeepsMarkedPaths(d: Disk, d': Disk) {
    && d'.markers == d.markers
    && forall p | p in d.markers :: (p in d.files <==> p in d'.files) && (p in d.files ==> d'.files[p] == d.files[p])
  }

  /** A write in file mode keeps every marked path exactly when the client's file is unmarked, or holds the new text already. */
  lemma FileWriteKeepsExactly(d: Disk, key: Path, text: Text)
    requires key in d.files
    ensures KeepsMarkedPaths(d, Files(d).With(key, text).disk) <==> key !in d.markers || d.files[key] == File(text, false)
  {
    assert Files(d).With(key, text).disk.files[key] == File(text, false);
  }
}

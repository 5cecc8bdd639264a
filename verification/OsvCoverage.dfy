/** Collected package declarations, their transitive resolution, and which manifests count as resolved. */
module OsvCoverage {
  import opened Findings

  type Path = string

  /** Package ecosystems; deps.dev resolves the first four. */
  datatype Eco = Maven | PyPI | Npm | Cargo | Go | Other(called: string) {
    predicate Supported(): (r: bool)
      ensures r <==> !Go? && !Other?
    {
      Maven? || PyPI? || Npm? || Cargo?
    }
  }

  datatype Name = Name(eco: Eco, name: string)
  datatype Key = Key(eco: Eco, name: string, version: string) {
    function Of(): Name { Name(eco, name) }
  }

  datatype Basis = Locked | ManifestFloor | GoDirective | Resolved | ResolvedDefault

  datatype Entry = Entry(sources: set<Path>, basis: Basis, via: set<Key>)
  type Packages = map<Key, Entry>

  // --------------------------------------------------------------------------
  // Collecting declarations
  // --------------------------------------------------------------------------

  datatype Declaration = Declaration(name: string, version: string)

  /** A parsed manifest; `exact` versions are what runs, a `wholeTree` needs no resolution. */
  datatype Parsed = Parsed(path: Path, eco: Eco, exact: bool, wholeTree: bool, deps: seq<Declaration>, bare: seq<string>) {
    function BasisOf(): Basis { if exact then Locked else ManifestFloor }
    function Declared(): nat { |deps| + |bare| }
  }

  /** A manifest whose tree is not known, with the number of its declarations. */
  datatype Manifest = Manifest(path: Path, eco: Eco, declarations: nat)

  /** One call of the collector's `add`. */
  datatype Addition = Addition(key: Key, source: Path, basis: Basis)

  function KeyOf(usable: string -> bool, eco: Eco, d: Declaration): Option<Key> {
    if d.name == "" || !usable(d.version) then None
    else Some(Key(eco, d.name, if eco.Go? && "v" <= d.version then d.version[1..] else d.version))
  }

  /** The key of a declaration has its name and version; Go versions lose one leading v. */
  lemma KeyExactly(usable: string -> bool, eco: Eco, d: Declaration, k: Key)
    ensures KeyOf(usable, eco, d) == Some(k) <==>
      d.name != "" && usable(d.version) && k.eco == eco && k.name == d.name && VersionReads(eco, d.version, k.version)
  {
    if eco.Go? && d.version == "v" + k.version {
      assert ("v" + k.version)[1..] == k.version;
    }
    if eco.Go? && "v" <= d.version {
      assert d.version == "v" + d.version[1..];
    }
  }

  predicate VersionReads(eco: Eco, declared: string, version: string) {
    declared == (if eco.Go? && declared != "" && declared[0] == 'v' then "v" + version else version)
  }

  function WithAddition(packages: Packages, a: Addition): Packages {
    var e := if a.key in packages then packages[a.key] else Entry({}, a.basis, {});
    packages[a.key := Entry(e.sources + {a.source},
                            if a.basis.Locked? then Locked else if e.basis.Resolved? then a.basis else e.basis, e.via)]
  }

  function WithAll(packages: Packages, adds: seq<Addition>): Packages {
    if adds == [] then packages else WithAddition(WithAll(packages, adds[..|adds| - 1]), adds[|adds| - 1])
  }

  /** The keys of the usable declarations, in order. */
  function KeysOf(usable: string -> bool, eco: Eco, deps: seq<Declaration>): seq<Key> {
    if deps == [] then []
    else
      var k := KeyOf(usable, eco, deps[|deps| - 1]);
      KeysOf(usable, eco, deps[..|deps| - 1]) + if k.Some? then [k.value] else []
  }

  /** The names of the others. */
  function NamesOf(usable: string -> bool, eco: Eco, deps: seq<Declaration>): seq<Name> {
    if deps == [] then []
    else
      var d := deps[|deps| - 1];
      NamesOf(usable, eco, deps[..|deps| - 1]) + if KeyOf(usable, eco, d).None? && d.name != "" then [Name(eco, d.name)] else []
  }

  function BareNames(p: Parsed): (r: seq<Name>)
    ensures |r| == |p.bare| && forall i | 0 <= i < |r| :: r[i] == Name(p.eco, p.bare[i])
  {
    seq(|p.bare|, i requires 0 <= i < |p.bare| => Name(p.eco, p.bare[i]))
  }

  function AdditionsOf(p: Parsed, keys: seq<Key>): (r: seq<Addition>)
    ensures |r| == |keys|
  {
    seq(|keys|, i requires 0 <= i < |keys| => Addition(keys[i], p.path, p.BasisOf()))
  }

  /** Locked exactly when some declaration of the key was locked; else the first declaration decides. */
  lemma {:induction false} BasisOfAdditions(adds: seq<Addition>, k: Key)
    requires forall a | a in adds :: !a.basis.Resolved?
    ensures var r := WithAll(map[], adds);
      && (k in r <==> exists i :: 0 <= i < |adds| && adds[i].key == k)
      && (k in r ==> !r[k].basis.Resolved?)
      && (k in r ==> (r[k].basis.Locked? <==> exists i :: 0 <= i < |adds| && adds[i].key == k && adds[i].basis.Locked?))
      && (k in r ==> forall m :: m in r[k].sources <==> exists i :: 0 <= i < |adds| && adds[i].key == k && adds[i].source == m)
      && (k in r ==> r[k].via == {} && (r[k].basis.Locked? || exists i :: FirstOf(adds, i, k) && r[k].basis == adds[i].basis))
    decreases |adds|
  {
    if adds != [] {
      var n := |adds| - 1;
      var before := WithAll(map[], adds[..n]);
      BasisOfAdditions(adds[..n], k);
      assert forall i | 0 <= i < n :: adds[..n][i] == adds[i];
      assert adds[n] in adds;
      if k in before {
        assert forall i | FirstOf(adds[..n], i, k) :: FirstOf(adds, i, k);
      } else if adds[n].key == k {
        assert FirstOf(adds, n, k);
      }
    }
  }

  /** A declaration outranks a resolved version whenever it comes, and nothing turns a declared entry into a resolved one. */
  lemma {:induction false} DeclarationOutranks(packages: Packages, adds: seq<Addition>, k: Key)
    requires forall a | a in adds :: !a.basis.Resolved?
    ensures var r := WithAll(packages, adds);
      k in r ==> (r[k].basis.Resolved? <==> k in packages && packages[k].basis.Resolved? && forall a | a in adds :: a.key != k)
  {
    if adds != [] {
      var n := |adds| - 1;
      DeclarationOutranks(packages, adds[..n], k);
      assert forall a :: a in adds <==> a in adds[..n] || a == adds[n];
    }
  }

  /** Addition `i` is the first one of `k`. */
  predicate FirstOf(adds: seq<Addition>, i: int, k: Key) {
    0 <= i < |adds| && adds[i].key == k && forall j | 0 <= j < i :: adds[j].key != k
  }

  /** The additions of all manifests, in order. */
  function AllAdditions(usable: string -> bool, manifests: seq<Parsed>): seq<Addition> {
    if manifests == [] then []
    else
      var p := manifests[|manifests| - 1];
      AllAdditions(usable, manifests[..|manifests| - 1]) + AdditionsOf(p, KeysOf(usable, p.eco, p.deps))
  }

  /** `p` declares `k` with a usable version. */
  ghost predicate DeclaredIn(usable: string -> bool, p: Parsed, k: Key) {
    exists d :: d in p.deps && KeyOf(usable, p.eco, d) == Some(k)
  }

  lemma {:induction false} AllAdditionsExactly(usable: string -> bool, manifests: seq<Parsed>, a: Addition)
    ensures a in AllAdditions(usable, manifests) <==>
      exists p :: p in manifests && a.source == p.path && a.basis == p.BasisOf() && DeclaredIn(usable, p, a.key)
  {
    hide DeclaredIn, KeysOf;
    if manifests != [] {
      var n := |manifests| - 1;
      AllAdditionsExactly(usable, manifests[..n], a);
      AdditionsExactly(usable, manifests[n], a);
      assert forall p :: p in manifests <==> p in manifests[..n] || p == manifests[n];
    }
  }

  lemma AdditionsExactly(usable: string -> bool, p: Parsed, a: Addition)
    ensures a in AdditionsOf(p, KeysOf(usable, p.eco, p.deps)) <==> a.source == p.path && a.basis == p.BasisOf() && DeclaredIn(usable, p, a.key)
  {
    var keys := KeysOf(usable, p.eco, p.deps);
    DeclarationsSplit(usable, p.eco, p.deps);
    hide KeyOf, KeysOf;
    var adds := AdditionsOf(p, keys);
    if a in adds {
      var i :| 0 <= i < |adds| && adds[i] == a;
      assert keys[i] in keys;
    }
    if a.key in keys && a.source == p.path && a.basis == p.BasisOf() {
      var i :| 0 <= i < |keys| && keys[i] == a.key;
      assert adds[i] == a;
    }
  }

  lemma {:induction false} WithAllAppends(packages: Packages, a: seq<Addition>, b: seq<Addition>)
    ensures WithAll(WithAll(packages, a), b) == WithAll(packages, a + b)
    decreases |b|
  {
    hide WithAddition;
    if b == [] {
      assert a + b == a;
    } else {
      var n := |b| - 1;
      WithAllAppends(packages, a, b[..n]);
      assert (a + b)[..|a| + n] == a + b[..n];
    }
  }

  /**
   * What the collector lists: the keys that manifests declare with a usable version, each with those
   * manifests, locked exactly when one of them is exact and at its declared floor otherwise.
   */
  lemma CollectedExactly(usable: string -> bool, manifests: seq<Parsed>, k: Key)
    ensures var listed := WithAll(map[], AllAdditions(usable, manifests));
      && (k in listed <==> exists p :: p in manifests && DeclaredIn(usable, p, k))
      && (k in listed ==> forall m :: m in listed[k].sources <==> exists p :: p in manifests && p.path == m && DeclaredIn(usable, p, k))
      && (k in listed ==> listed[k].basis == (if exists p :: p in manifests && p.exact && DeclaredIn(usable, p, k) then Locked else ManifestFloor))
      && (k in listed ==> listed[k].via == {})
  {
    hide DeclaredIn, WithAll, AllAdditions, KeyOf;
    var adds := AllAdditions(usable, manifests);
    forall a ensures a in adds <==> exists p :: p in manifests && a.source == p.path && a.basis == p.BasisOf() && DeclaredIn(usable, p, a.key) {
      AllAdditionsExactly(usable, manifests, a);
    }
    BasisOfAdditions(adds, k);
    assert forall i | 0 <= i < |adds| :: adds[i] in adds;
    forall p | p in manifests && DeclaredIn(usable, p, k) ensures exists i :: 0 <= i < |adds| && adds[i] == Addition(k, p.path, p.BasisOf()) {
      assert Addition(k, p.path, p.BasisOf()) in adds;
    }
  }

  // --------------------------------------------------------------------------
  // Answers of the resolver
  // --------------------------------------------------------------------------

  datatype Res = Res(status: string, nodes: seq<(string, string)>) {
    predicate Ok() { status == "ok" }
  }

  /** What an install of a name without version gets today. */
  datatype Default = Default(status: string, version: string) {
    predicate Ok() { status == "ok" }
  }

  datatype Resolver = Resolver(probeFails: bool, defaultOf: Name -> Option<Default>, resultOf: Key -> Option<Res>,
                               lower: string -> string, norm: string -> string)

  /** A package that the tree of `root` contains, and the manifests it would be credited to. */
  datatype Offer = Offer(root: Key, key: Key, sources: set<Path>)

  datatype Reason = NotResolvable(eco: Eco) | NoVersion(status: Option<string>) | NoFloor | DepsDev(status: Option<string>)

  /** One resolution: the collected state and the resolver that answers. */
  datatype Run = Run(packages: Packages, direct: map<Path, seq<Key>>, unversioned: map<Path, seq<Name>>, resolver: Resolver) {

    function Direct(m: Path): seq<Key> { if m in direct then direct[m] else [] }
    function Unversioned(m: Path): seq<Name> { if m in unversioned then unversioned[m] else [] }

    function Wanted(): set<Key> { set m, k | m in direct && k in direct[m] && k.eco.Supported() :: k }
    function Bare(): set<Name> { set m, n | m in unversioned && n in unversioned[m] && n.eco.Supported() :: n }

    predicate Failed() { (Wanted() != {} || Bare() != {}) && resolver.probeFails }

    function DefaultOf(n: Name): Option<Default> {
      if Failed() || n !in Bare() then None else resolver.defaultOf(n)
    }

    /** The key that stands for a declaration without version. */
    function DefaultKey(n: Name): Option<Key> {
      var d := DefaultOf(n);
      if d.Some? && d.value.Ok() then Some(Key(n.eco, n.name, d.value.version)) else None
    }

    predicate AtDefault(k: Key) { DefaultKey(k.Of()) == Some(k) }

    function Todo(): set<Key> {
      Wanted() + set n | n in Bare() && DefaultKey(n).Some? :: DefaultKey(n).value
    }

    function Result(k: Key): Option<Res> {
      if Failed() || k !in Todo() then None else resolver.resultOf(k)
    }

    predicate Fine(k: Key) { Result(k).Some? && Result(k).value.Ok() }

    // Declared names that override a resolved version.

    function MavenDeclared(): set<string> {
      set k | k in packages && k.eco.Maven? :: resolver.lower(k.name)
    }

    function PypiDeclared(m: Path): set<string> {
      set k | k in packages && k.eco.PyPI? && m in packages[k].sources :: resolver.norm(k.name)
    }

    /** The manifests that declare `k`, with that version or with none. */
    function Declarers(k: Key): set<Path> {
      (set m | m in direct && k in direct[m]) + if AtDefault(k) then Namers(k.Of()) else {}
    }

    function Namers(n: Name): set<Path> {
      set m | m in unversioned && n in unversioned[m]
    }

    function Credited(root: Key, name: string): set<Path> {
      if root.eco.Maven? && resolver.lower(name) in MavenDeclared() then {}
      else if root.eco.PyPI? then set m | m in Declarers(root) && resolver.norm(name) !in PypiDeclared(m)
      else Declarers(root)
    }

    function OfferAt(root: Key, i: nat): Offer
      requires Fine(root) && i < |Result(root).value.nodes|
    {
      var node := Result(root).value.nodes[i];
      Offer(root, Key(root.eco, node.0, node.1), Credited(root, node.0))
    }

    function OffersOf(root: Key, n: nat): set<Offer>
      requires Fine(root) && n <= |Result(root).value.nodes|
    {
      set i | 0 <= i < n :: OfferAt(root, i)
    }

    function AllOffers(roots: set<Key>): set<Offer> {
      set k, o | k in roots && Fine(k) && o in OffersOf(k, |Result(k).value.nodes|) :: o
    }

    /** The packages with an entry for every default version. */
    function Defaulted(names: set<Name>): Packages {
      var added := set n | n in names && DefaultKey(n).Some? :: DefaultKey(n).value;
      map k | k in packages.Keys + added ::
        var e := if k in packages then packages[k] else Entry({}, ResolvedDefault, {});
        if k in added then e.(sources := e.sources + Namers(k.Of())) else e
    }

    /** The keys of a manifest once defaults are known. */
    function Keys(m: Path): seq<Key> { Direct(m) + DefaultKeys(Unversioned(m)) }

    function DefaultKeys(names: seq<Name>): seq<Key> {
      if names == [] then []
      else
        var k := DefaultKey(names[|names| - 1]);
        DefaultKeys(names[..|names| - 1]) + if k.Some? then [k.value] else []
    }

    /** Nothing is left to explain: supported, every name defaulted, every declaration a key, every key resolved. */
    predicate FullyResolved(m: Manifest) {
      && m.eco.Supported() && m.declarations <= |Keys(m.path)|
      && (forall n | n in Unversioned(m.path) :: DefaultKey(n).Some?)
      && forall k | k in Keys(m.path) :: Fine(k)
    }
  }

  // --------------------------------------------------------------------------
  // Merging trees
  // --------------------------------------------------------------------------

  function SourcesFrom(offers: set<Offer>, k: Key): set<Path> {
    set o, m | o in offers && o.key == k && m in o.sources :: m
  }

  function RootsFrom(offers: set<Offer>, k: Key): set<Key> {
    set o | o in offers && o.key == k && o.sources != {} :: o.root
  }

  function Credit(offers: set<Offer>): set<Key> {
    set o | o in offers && o.sources != {} :: o.key
  }

  /** Declared and locked entries stay; resolved ones collect sources. */
  function EntryWith(base: Packages, offers: set<Offer>, k: Key): Entry {
    var e := if k in base then base[k] else Entry({}, Resolved, {});
    if e.basis.Resolved? then Entry(e.sources + SourcesFrom(offers, k), Resolved, e.via + RootsFrom(offers, k)) else e
  }

  /** `base` with every credited offer. */
  function Merged(base: Packages, offers: set<Offer>): Packages {
    map k | k in base.Keys + Credit(offers) :: EntryWith(base, offers, k)
  }

  function WithOffer(packages: Packages, o: Offer): Packages {
    if o.sources == {} then packages
    else
      var e := if o.key in packages then packages[o.key] else Entry({}, Resolved, {});
      if e.basis.Resolved? then packages[o.key := Entry(e.sources + o.sources, Resolved, e.via + {o.root})] else packages
  }

  lemma FromStep(done: set<Offer>, o: Offer, k: Key)
    ensures SourcesFrom(done + {o}, k) == SourcesFrom(done, k) + if k == o.key then o.sources else {}
    ensures RootsFrom(done + {o}, k) == RootsFrom(done, k) + if k == o.key && o.sources != {} then {o.root} else {}
    ensures k !in Credit(done) ==> SourcesFrom(done, k) == {} && RootsFrom(done, k) == {}
  {
  }

  lemma EntryStep(base: Packages, done: set<Offer>, o: Offer, k: Key)
    ensures var was, now := EntryWith(base, done, k), EntryWith(base, done + {o}, k);
      now == if k == o.key && o.sources != {} && was.basis.Resolved? then Entry(was.sources + o.sources, Resolved, was.via + {o.root}) else was
    ensures k !in base.Keys + Credit(done) ==> EntryWith(base, done, k) == Entry({}, Resolved, {})
  {
    hide SourcesFrom, RootsFrom, Credit;
    FromStep(done, o, k);
    var e := if k in base then base[k] else Entry({}, Resolved, {});
    assert e.sources + (SourcesFrom(done, k) + o.sources) == e.sources + SourcesFrom(done, k) + o.sources;
    assert e.via + (RootsFrom(done, k) + {o.root}) == e.via + RootsFrom(done, k) + {o.root};
  }

  lemma MergeStep(base: Packages, done: set<Offer>, o: Offer)
    ensures WithOffer(Merged(base, done), o) == Merged(base, done + {o})
  {
    hide EntryWith;
    var before, after := Merged(base, done), Merged(base, done + {o});
    assert Credit(done + {o}) == Credit(done) + if o.sources != {} then {o.key} else {};
    EntryStep(base, done, o, o.key);
    forall k | k in after ensures k in WithOffer(before, o) && WithOffer(before, o)[k] == after[k] {
      EntryStep(base, done, o, k);
    }
    assert WithOffer(before, o).Keys == after.Keys;
  }

  lemma MergeNothing(base: Packages)
    ensures Merged(base, {}) == base
  {
    forall k | k in base ensures Merged(base, {})[k] == base[k] {
      assert SourcesFrom({}, k) == {} && RootsFrom({}, k) == {};
    }
  }

  // --------------------------------------------------------------------------
  // The collector's tables
  // --------------------------------------------------------------------------

  function Select(ms: seq<Manifest>, p: Manifest -> bool): seq<Manifest> {
    if ms == [] then [] else Select(ms[..|ms| - 1], p) + if p(ms[|ms| - 1]) then [ms[|ms| - 1]] else []
  }

  function Not(p: Manifest -> bool): Manifest -> bool {
    m => !p(m)
  }

  function ResolvedIn(run: Run): Manifest -> bool {
    m => run.FullyResolved(m)
  }

  class Inventory {
    const usable: string -> bool
    var packages: Packages
    var direct: map<Path, seq<Key>>
    var unversioned: map<Path, seq<Name>>
    var unresolved: seq<Manifest>
    var resolved: seq<Manifest>

    constructor (usable: string -> bool)
      ensures packages == map[] && direct == map[] && unversioned == map[] && unresolved == [] && resolved == []
    {
      this.usable := usable;
      packages, direct, unversioned, unresolved, resolved := map[], map[], map[], [], [];
    }

    method Add(eco: Eco, d: Declaration, source: Path, basis: Basis) returns (k: Option<Key>)
      modifies this`packages
      ensures k == KeyOf(usable, eco, d)
      ensures packages == if k.Some? then WithAddition(old(packages), Addition(k.value, source, basis)) else old(packages)
    {
      k := KeyOf(usable, eco, d);
      if k.Some? {
        packages := WithAddition(packages, Addition(k.value, source, basis));
      }
    }

    /** Files one parsed manifest. */
    method Collect(p: Parsed)
      modifies this`packages, this`direct, this`unversioned, this`unresolved
      ensures var keys := KeysOf(usable, p.eco, p.deps);
        && packages == WithAll(old(packages), AdditionsOf(p, keys))
        && direct == (if p.wholeTree then old(direct) else old(direct)[p.path := keys])
        && unversioned == (if p.wholeTree then old(unversioned) else old(unversioned)[p.path := NamesOf(usable, p.eco, p.deps) + BareNames(p)])
        && unresolved == old(unresolved) + (if p.wholeTree then [] else [Manifest(p.path, p.eco, p.Declared())])
    {
      hide KeyOf, WithAddition, Collected;
      var keys, names := [], [];
      CollectStart(usable, p, packages);
      for i := 0 to |p.deps|
        invariant Collected(usable, p, old(packages), i, keys, names, packages)
        invariant direct == old(direct) && unversioned == old(unversioned) && unresolved == old(unresolved)
      {
        CollectStep(usable, p, old(packages), i, keys, names, packages);
        var k := Add(p.eco, p.deps[i], p.path, p.BasisOf());
        if k.Some? {
          keys := keys + [k.value];
        } else if p.deps[i].name != "" {
          names := names + [Name(p.eco, p.deps[i].name)];
        }
      }
      CollectedAll(usable, p, old(packages), keys, names, packages);
      if !p.wholeTree {
        unresolved := unresolved + [Manifest(p.path, p.eco, p.Declared())];
        direct := direct[p.path := keys];
        unversioned := unversioned[p.path := names + BareNames(p)];
      }
    }

    ghost function View(r: Resolver): Run
      reads this
    {
      Run(packages, direct, unversioned, r)
    }

    /** Resolves every unresolved manifest through `r`. */
    method ResolveTransitive(r: Resolver)
      modifies this`packages, this`unresolved, this`resolved
      ensures forall m, root, k | Declares(old(View(r)), m, root) && TreeHolds(r, root, k) ::
        Overridden(old(View(r)), m, k) || Credits(packages, m, root, k)
      ensures var run := old(View(r));
        && packages == Final(run)
        && resolved == Select(old(unresolved), ResolvedIn(run))
        && unresolved == Select(old(unresolved), Not(ResolvedIn(run)))
    {
      var run := Run(packages, direct, unversioned, r);
      packages := AddDefaults(run);
      packages := AddTrees(run, packages);
      unresolved, resolved := SplitManifests(run, unresolved);
      forall m, root, k | Declares(run, m, root) && TreeHolds(r, root, k)
        ensures Overridden(run, m, k) || Credits(packages, m, root, k)
      {
        if !Overridden(run, m, k) {
          TreesListed(run, m, root, k);
        }
      }
    }

    /** Collects all manifests of a repository. */
    method CollectAll(manifests: seq<Parsed>)
      requires packages == map[] && direct == map[] && unversioned == map[] && unresolved == [] && DistinctPaths(manifests)
      modifies this`packages, this`direct, this`unversioned, this`unresolved
      ensures Gathered(usable, manifests, |manifests|, packages, direct, unversioned) && unresolved == Partial(manifests)
    {
      hide Gathered, DistinctPaths;
      NoneGathered(usable, manifests);
      for i := 0 to |manifests|
        invariant Gathered(usable, manifests, i, packages, direct, unversioned) && unresolved == Partial(manifests[..i])
      {
        GatherStep(usable, manifests, i, packages, direct, unversioned);
        assert manifests[..i + 1][..i] == manifests[..i];
        Collect(manifests[i]);
      }
      assert manifests[..|manifests|] == manifests;
    }

    /**
     * From parsed manifests to the final list: a manifest is called resolved exactly when its ecosystem is
     * supported and each of its declarations stands on a key whose tree resolved.
     */
    method Report(manifests: seq<Parsed>, r: Resolver) returns (ghost run: Run)
      requires packages == map[] && direct == map[] && unversioned == map[] && unresolved == [] && DistinctPaths(manifests)
      modifies this`packages, this`direct, this`unversioned, this`unresolved, this`resolved
      ensures run.resolver == r && Listed(run) && packages == Final(run) && run.packages == WithAll(map[], AllAdditions(usable, manifests))
      ensures forall p | p in manifests && !p.wholeTree :: Holds(run, usable, p)
      ensures forall m | m in run.direct.Keys + run.unversioned.Keys :: exists p :: p in manifests && !p.wholeTree && p.path == m
      ensures forall p | p in manifests && !p.wholeTree :: Manifest(p.path, p.eco, p.Declared()) in resolved <==> AllSettled(r, usable, p)
      ensures forall p, root, k | p in manifests && !p.wholeTree && Stands(r, usable, p, root) && TreeHolds(r, root, k) ::
        Overridden(run, p.path, k) || Credits(packages, p.path, root, k)
      ensures multiset(resolved) + multiset(unresolved) == multiset(Partial(manifests))
    {
      CollectAll(manifests);
      run := View(r);
      ghost var ms := unresolved;
      ResolveTransitive(r);
      SelectSplits(ms, ResolvedIn(run));
      hide Gathered, Holds, AllSettled, Listed, Final, Select, Stands, TreeHolds, Overridden, Credits, Declares;
      GatheredHolds(usable, manifests, run);
      forall p | p in manifests && !p.wholeTree
        ensures Manifest(p.path, p.eco, p.Declared()) in resolved <==> AllSettled(r, usable, p)
      {
        ResolvedExactly(run, usable, p);
        PartialHas(manifests, p);
        SelectHas(ms, ResolvedIn(run), Manifest(p.path, p.eco, p.Declared()));
      }
      forall p, root, k | p in manifests && !p.wholeTree && Stands(r, usable, p, root) && TreeHolds(r, root, k)
        ensures Overridden(run, p.path, k) || Credits(packages, p.path, root, k)
      {
        StandsIsDeclared(run, usable, p, root);
      }
    }
  }

  predicate DistinctPaths(manifests: seq<Parsed>) {
    forall i, j | 0 <= i < j < |manifests| :: manifests[i].path != manifests[j].path
  }

  /** The manifests whose trees are not known, in order. */
  function Partial(manifests: seq<Parsed>): seq<Manifest> {
    if manifests == [] then []
    else
      var p := manifests[|manifests| - 1];
      Partial(manifests[..|manifests| - 1]) + if p.wholeTree then [] else [Manifest(p.path, p.eco, p.Declared())]
  }

  lemma {:induction false} PartialHas(manifests: seq<Parsed>, p: Parsed)
    requires p in manifests && !p.wholeTree
    ensures Manifest(p.path, p.eco, p.Declared()) in Partial(manifests)
  {
    var n := |manifests| - 1;
    if p != manifests[n] {
      assert p in manifests[..n];
      PartialHas(manifests[..n], p);
    }
  }

  lemma {:induction false} SelectHas(ms: seq<Manifest>, p: Manifest -> bool, m: Manifest)
    ensures m in Select(ms, p) <==> m in ms && p(m)
  {
    if ms != [] {
      var n := |ms| - 1;
      SelectHas(ms[..n], p, m);
      assert ms == ms[..n] + [ms[n]];
    }
  }

  /** The tables hold what was collected from the first `n` manifests, and all their direct declarations are listed. */
  ghost predicate Gathered(usable: string -> bool, manifests: seq<Parsed>, n: nat, packages: Packages, direct: map<Path, seq<Key>>, unversioned: map<Path, seq<Name>>)
    requires n <= |manifests|
  {
    && direct.Keys == unversioned.Keys
    && packages == WithAll(map[], AllAdditions(usable, manifests[..n]))
    && (forall m | m in direct :: exists i :: 0 <= i < n && manifests[i].path == m && !manifests[i].wholeTree)
    && (forall i | 0 <= i < n && !manifests[i].wholeTree :: Filed(usable, manifests[i], direct, unversioned))
    && forall m, k | m in direct && k in direct[m] :: k in packages
  }

  /** The tables hold what was collected from `p`. */
  predicate Filed(usable: string -> bool, p: Parsed, direct: map<Path, seq<Key>>, unversioned: map<Path, seq<Name>>) {
    && p.path in direct && direct[p.path] == KeysOf(usable, p.eco, p.deps)
    && p.path in unversioned && unversioned[p.path] == NamesOf(usable, p.eco, p.deps) + BareNames(p)
  }

  lemma NoneGathered(usable: string -> bool, manifests: seq<Parsed>)
    ensures Gathered(usable, manifests, 0, map[], map[], map[])
  {
  }

  lemma {:induction false} AddedKeys(packages: Packages, adds: seq<Addition>)
    ensures packages.Keys <= WithAll(packages, adds).Keys
    ensures forall a | a in adds :: a.key in WithAll(packages, adds)
  {
    if adds != [] {
      var n := |adds| - 1;
      AddedKeys(packages, adds[..n]);
      assert adds == adds[..n] + [adds[n]];
    }
  }

  lemma GatherStep(usable: string -> bool, manifests: seq<Parsed>, i: nat, packages: Packages, direct: map<Path, seq<Key>>, unversioned: map<Path, seq<Name>>)
    requires i < |manifests| && DistinctPaths(manifests) && Gathered(usable, manifests, i, packages, direct, unversioned)
    ensures var p := manifests[i]; var keys := KeysOf(usable, p.eco, p.deps);
      Gathered(usable, manifests, i + 1, WithAll(packages, AdditionsOf(p, keys)),
               if p.wholeTree then direct else direct[p.path := keys],
               if p.wholeTree then unversioned else unversioned[p.path := NamesOf(usable, p.eco, p.deps) + BareNames(p)])
  {
    hide WithAll, AdditionsOf, KeysOf, NamesOf, BareNames;
    var p := manifests[i];
    AllAdded(packages, p, KeysOf(usable, p.eco, p.deps));
    WithAllAppends(map[], AllAdditions(usable, manifests[..i]), AdditionsOf(p, KeysOf(usable, p.eco, p.deps)));
    assert manifests[..i + 1][..i] == manifests[..i];
  }

  lemma AllAdded(packages: Packages, p: Parsed, keys: seq<Key>)
    ensures packages.Keys <= WithAll(packages, AdditionsOf(p, keys)).Keys
    ensures forall k | k in keys :: k in WithAll(packages, AdditionsOf(p, keys))
  {
    hide WithAll;
    var adds := AdditionsOf(p, keys);
    AddedKeys(packages, adds);
    forall k | k in keys ensures k in WithAll(packages, adds) {
      var j :| 0 <= j < |keys| && keys[j] == k;
      assert adds[j].key == k && adds[j] in adds;
    }
  }

  lemma GatheredHolds(usable: string -> bool, manifests: seq<Parsed>, run: Run)
    requires Gathered(usable, manifests, |manifests|, run.packages, run.direct, run.unversioned)
    ensures Listed(run) && forall p | p in manifests && !p.wholeTree :: Holds(run, usable, p)
    ensures run.packages == WithAll(map[], AllAdditions(usable, manifests))
    ensures forall m | m in run.direct.Keys + run.unversioned.Keys :: exists p :: p in manifests && !p.wholeTree && p.path == m
  {
    hide KeysOf, NamesOf, BareNames, WithAll, AllAdditions;
    assert manifests[..|manifests|] == manifests;
    forall m | m in run.direct ensures exists p :: p in manifests && !p.wholeTree && p.path == m {
      var i :| 0 <= i < |manifests| && manifests[i].path == m && !manifests[i].wholeTree;
      assert manifests[i] in manifests;
    }
    forall p | p in manifests && !p.wholeTree ensures Holds(run, usable, p) {
      var i :| 0 <= i < |manifests| && manifests[i] == p;
      assert Filed(usable, manifests[i], run.direct, run.unversioned);
    }
  }

  /** The first `n` declarations of a manifest are filed. */
  ghost predicate Collected(usable: string -> bool, p: Parsed, before: Packages, n: nat, keys: seq<Key>, names: seq<Name>, packages: Packages)
    requires n <= |p.deps|
  {
    && keys == KeysOf(usable, p.eco, p.deps[..n]) && names == NamesOf(usable, p.eco, p.deps[..n])
    && packages == WithAll(before, AdditionsOf(p, keys))
  }

  lemma CollectStart(usable: string -> bool, p: Parsed, before: Packages)
    ensures Collected(usable, p, before, 0, [], [], before)
  {
  }

  lemma CollectStep(usable: string -> bool, p: Parsed, before: Packages, i: nat, keys: seq<Key>, names: seq<Name>, packages: Packages)
    requires i < |p.deps| && Collected(usable, p, before, i, keys, names, packages)
    ensures var k, name := KeyOf(usable, p.eco, p.deps[i]), p.deps[i].name;
      if k.Some? then Collected(usable, p, before, i + 1, keys + [k.value], names, WithAddition(packages, Addition(k.value, p.path, p.BasisOf())))
      else Collected(usable, p, before, i + 1, keys, if name != "" then names + [Name(p.eco, name)] else names, packages)
  {
    DeclarationStep(usable, p.eco, p.deps, i);
    var k := KeyOf(usable, p.eco, p.deps[i]);
    if k.Some? {
      AdditionStep(p, before, keys, k.value);
    }
    hide WithAddition, KeyOf, KeysOf, NamesOf, WithAll, AdditionsOf;
  }

  lemma DeclarationStep(usable: string -> bool, eco: Eco, deps: seq<Declaration>, i: nat)
    requires i < |deps|
    ensures var k, name := KeyOf(usable, eco, deps[i]), deps[i].name;
      && KeysOf(usable, eco, deps[..i + 1]) == KeysOf(usable, eco, deps[..i]) + (if k.Some? then [k.value] else [])
      && NamesOf(usable, eco, deps[..i + 1]) == NamesOf(usable, eco, deps[..i]) + if k.None? && name != "" then [Name(eco, name)] else []
  {
    hide KeyOf;
    assert deps[..i + 1][..i] == deps[..i];
  }

  lemma AdditionStep(p: Parsed, before: Packages, keys: seq<Key>, k: Key)
    ensures WithAll(before, AdditionsOf(p, keys + [k])) == WithAddition(WithAll(before, AdditionsOf(p, keys)), Addition(k, p.path, p.BasisOf()))
  {
    hide WithAddition;
    assert AdditionsOf(p, keys + [k])[..|keys|] == AdditionsOf(p, keys);
  }

  lemma CollectedAll(usable: string -> bool, p: Parsed, before: Packages, keys: seq<Key>, names: seq<Name>, packages: Packages)
    requires Collected(usable, p, before, |p.deps|, keys, names, packages)
    ensures keys == KeysOf(usable, p.eco, p.deps) && names == NamesOf(usable, p.eco, p.deps)
    ensures packages == WithAll(before, AdditionsOf(p, keys))
  {
    assert p.deps[..|p.deps|] == p.deps;
  }

  method AddDefaults(run: Run) returns (packages: Packages)
    ensures packages == run.Defaulted(run.Bare())
  {
    packages := run.packages;
    var todo := run.Bare();
    ghost var done: set<Name> := {};
    assert packages == run.Defaulted({});
    while todo != {}
      invariant done == run.Bare() - todo && todo <= run.Bare()
      invariant packages == run.Defaulted(done)
    {
      var n :| n in todo;
      DefaultStep(run, done, n);
      var k := run.DefaultKey(n);
      if k.Some? {
        var e := if k.value in packages then packages[k.value] else Entry({}, ResolvedDefault, {});
        packages := packages[k.value := e.(sources := e.sources + run.Namers(n))];
      }
      done := done + {n};
      todo := todo - {n};
    }
    assert done == run.Bare();
  }

  lemma DefaultStep(run: Run, done: set<Name>, n: Name)
    requires n !in done
    ensures var k, before := run.DefaultKey(n), run.Defaulted(done);
      run.Defaulted(done + {n}) ==
        if k.None? then before
        else
          var e := if k.value in before then before[k.value] else Entry({}, ResolvedDefault, {});
          before[k.value := e.(sources := e.sources + run.Namers(n))]
  {
    hide Run.DefaultKey, Run.Namers;
    var k, before, after := run.DefaultKey(n), run.Defaulted(done), run.Defaulted(done + {n});
    if k.None? {
      assert before == after;
    } else {
      var e := if k.value in before then before[k.value] else Entry({}, ResolvedDefault, {});
      DefaultOfName(run, n);
      assert forall m | m in done && run.DefaultKey(m).Some? :: run.DefaultKey(m).value.Of() == m by {
        forall m | m in done && run.DefaultKey(m).Some? ensures run.DefaultKey(m).value.Of() == m {
          DefaultOfName(run, m);
        }
      }
      assert before[k.value := e.(sources := e.sources + run.Namers(n))] == after;
    }
  }

  lemma DefaultOfName(run: Run, n: Name)
    requires run.DefaultKey(n).Some?
    ensures run.DefaultKey(n).value.Of() == n
  {
  }

  method AddTrees(run: Run, base: Packages) returns (packages: Packages)
    ensures packages == Merged(base, run.AllOffers(run.Todo()))
  {
    packages := base;
    MergeNothing(base);
    var todo := run.Todo();
    ghost var done: set<Key> := {};
    assert run.AllOffers({}) == {};
    while todo != {}
      invariant done == run.Todo() - todo && todo <= run.Todo()
      invariant packages == Merged(base, run.AllOffers(done))
    {
      var root :| root in todo;
      if run.Fine(root) {
        packages := AddTree(run, base, run.AllOffers(done), root, packages);
        assert run.AllOffers(done + {root}) == run.AllOffers(done) + run.OffersOf(root, |run.Result(root).value.nodes|);
      } else {
        assert run.AllOffers(done + {root}) == run.AllOffers(done);
      }
      done := done + {root};
      todo := todo - {root};
    }
    assert done == run.Todo();
  }

  method AddTree(run: Run, ghost base: Packages, ghost done: set<Offer>, root: Key, before: Packages) returns (packages: Packages)
    requires run.Fine(root) && before == Merged(base, done)
    ensures packages == Merged(base, done + run.OffersOf(root, |run.Result(root).value.nodes|))
  {
    hide Merged, WithOffer, Run.OfferAt;
    packages := before;
    assert done + run.OffersOf(root, 0) == done;
    for i := 0 to |run.Result(root).value.nodes|
      invariant packages == Merged(base, done + run.OffersOf(root, i))
    {
      var o := run.OfferAt(root, i);
      MergeStep(base, done + run.OffersOf(root, i), o);
      assert done + run.OffersOf(root, i + 1) == done + run.OffersOf(root, i) + {o};
      packages := WithOffer(packages, o);
    }
  }

  // --------------------------------------------------------------------------
  // Which manifests are resolved
  // --------------------------------------------------------------------------

  method SplitManifests(run: Run, ms: seq<Manifest>) returns (still: seq<Manifest>, resolved: seq<Manifest>)
    ensures resolved == Select(ms, ResolvedIn(run)) && still == Select(ms, Not(ResolvedIn(run)))
  {
    still, resolved := [], [];
    for i := 0 to |ms|
      invariant resolved == Select(ms[..i], ResolvedIn(run)) && still == Select(ms[..i], Not(ResolvedIn(run)))
    {
      assert ms[..i + 1][..i] == ms[..i];
      var reasons := Explain(run, ms[i]);
      if reasons != multiset{} {
        still := still + [ms[i]];
      } else {
        resolved := resolved + [ms[i]];
      }
    }
    assert ms[..|ms|] == ms;
  }

  function Unresolvable(run: Run, ks: seq<Key>): multiset<Reason> {
    if ks == [] then multiset{}
    else
      var k := ks[|ks| - 1];
      Unresolvable(run, ks[..|ks| - 1]) + if run.Fine(k) then multiset{} else multiset{DepsDev(StatusOf(run, k))}
  }

  function StatusOf(run: Run, k: Key): Option<string> {
    if run.Result(k).Some? then Some(run.Result(k).value.status) else None
  }

  function DefaultStatus(run: Run, n: Name): Option<string> {
    if run.DefaultOf(n).Some? then Some(run.DefaultOf(n).value.status) else None
  }

  function Undefaulted(run: Run, names: seq<Name>): multiset<Reason> {
    if names == [] then multiset{}
    else
      var n := names[|names| - 1];
      Undefaulted(run, names[..|names| - 1]) + if run.DefaultKey(n).Some? then multiset{} else multiset{NoVersion(DefaultStatus(run, n))}
  }

  /** The reasons of the declarations without a version, and the keys of those with a default. */
  method ExplainNames(run: Run, names: seq<Name>) returns (ks: seq<Key>, reasons: multiset<Reason>)
    ensures ks == run.DefaultKeys(names) && reasons == Undefaulted(run, names)
  {
    hide Run.DefaultKey, DefaultStatus;
    ks, reasons := [], multiset{};
    for i := 0 to |names|
      invariant reasons == Undefaulted(run, names[..i]) && ks == run.DefaultKeys(names[..i])
    {
      assert names[..i + 1][..i] == names[..i];
      var k := run.DefaultKey(names[i]);
      if k.Some? {
        ks := ks + [k.value];
      } else {
        reasons := reasons + multiset{NoVersion(DefaultStatus(run, names[i]))};
      }
    }
    assert names[..|names|] == names;
  }

  method ExplainKeys(run: Run, ks: seq<Key>) returns (reasons: multiset<Reason>)
    ensures reasons == Unresolvable(run, ks)
  {
    hide Run.Fine, StatusOf;
    reasons := multiset{};
    for i := 0 to |ks|
      invariant reasons == Unresolvable(run, ks[..i])
    {
      assert ks[..i + 1][..i] == ks[..i];
      if !run.Fine(ks[i]) {
        reasons := reasons + multiset{DepsDev(StatusOf(run, ks[i]))};
      }
    }
    assert ks[..|ks|] == ks;
  }

  /** Why a manifest is not resolved: empty exactly for a fully resolved one, and one reason per unresolved declaration. */
  method Explain(run: Run, m: Manifest) returns (reasons: multiset<Reason>)
    ensures reasons == multiset{} <==> run.FullyResolved(m)
    ensures forall reason: Reason | !reason.NoFloor? :: reason in reasons <==> Gives(run, m, reason)
    ensures m.eco.Supported() && |run.Direct(m.path)| + |run.Unversioned(m.path)| <= m.declarations ==>
      |reasons| + CountFine(run, run.Keys(m.path)) == m.declarations
  {
    hide Run.Fine, Run.DefaultKey, Unresolvable, Undefaulted, Run.DefaultKeys, CountFine, Run.Direct, Run.Unversioned, StatusOf, DefaultStatus, Gives;
    var names := run.Unversioned(m.path);
    var more, missing := ExplainNames(run, names);
    var ks := run.Direct(m.path) + more;
    reasons := missing + NotSupported(m.eco);
    UndefaultedExactly(run, names);
    var gap := m.declarations - |ks| - |reasons|;
    if gap > 0 {
      var none: multiset<Reason> := multiset{};
      reasons := reasons + none[NoFloor := gap];
    }
    var failing := ExplainKeys(run, ks);
    UnresolvableExactly(run, ks);
    reasons := reasons + failing;
    assert reasons == multiset{} <==> |reasons| == 0;
    ReasonsGive(run, m, reasons);
  }

  lemma ReasonsGive(run: Run, m: Manifest, reasons: multiset<Reason>)
    requires forall reason: Reason | !reason.NoFloor? :: reasons[reason] == Given(run, m)[reason]
    ensures forall reason: Reason | !reason.NoFloor? :: reason in reasons <==> Gives(run, m, reason)
  {
    hide Undefaulted, Unresolvable, Run.Unversioned, Run.Keys, Run.Fine, Run.DefaultKey, StatusOf, DefaultStatus;
    forall reason: Reason | !reason.NoFloor? ensures reason in reasons <==> Gives(run, m, reason) {
      UndefaultedHas(run, run.Unversioned(m.path), reason);
      UnresolvableHas(run, run.Keys(m.path), reason);
    }
  }

  function Given(run: Run, m: Manifest): multiset<Reason> {
    Undefaulted(run, run.Unversioned(m.path)) + Unresolvable(run, run.Keys(m.path)) + NotSupported(m.eco)
  }

  function NotSupported(eco: Eco): multiset<Reason> {
    if eco.Supported() then multiset{} else multiset{NotResolvable(eco)}
  }

  /** A reason names the ecosystem, or what the resolver said of one declaration. */
  predicate Gives(run: Run, m: Manifest, reason: Reason) {
    match reason
    case NotResolvable(eco) => eco == m.eco && !m.eco.Supported()
    case NoVersion(st) => exists n :: n in run.Unversioned(m.path) && run.DefaultKey(n).None? && st == DefaultStatus(run, n)
    case DepsDev(st) => exists k :: k in run.Keys(m.path) && !run.Fine(k) && st == StatusOf(run, k)
    case NoFloor => true
  }

  lemma {:induction false} UndefaultedHas(run: Run, names: seq<Name>, reason: Reason)
    ensures reason in Undefaulted(run, names) <==>
      reason.NoVersion? && exists n :: n in names && run.DefaultKey(n).None? && reason.status == DefaultStatus(run, n)
  {
    hide Run.DefaultKey, DefaultStatus;
    if names != [] {
      var k := |names| - 1;
      UndefaultedHas(run, names[..k], reason);
      assert forall n :: n in names <==> n in names[..k] || n == names[k];
    }
  }

  lemma {:induction false} UnresolvableHas(run: Run, ks: seq<Key>, reason: Reason)
    ensures reason in Unresolvable(run, ks) <==>
      reason.DepsDev? && exists k :: k in ks && !run.Fine(k) && reason.status == StatusOf(run, k)
  {
    hide Run.Fine, StatusOf;
    if ks != [] {
      var n := |ks| - 1;
      UnresolvableHas(run, ks[..n], reason);
      assert forall k :: k in ks <==> k in ks[..n] || k == ks[n];
    }
  }

  function CountFine(run: Run, ks: seq<Key>): nat {
    if ks == [] then 0 else CountFine(run, ks[..|ks| - 1]) + if run.Fine(ks[|ks| - 1]) then 1 else 0
  }

  lemma {:induction false} UnresolvableExactly(run: Run, ks: seq<Key>)
    ensures |Unresolvable(run, ks)| + CountFine(run, ks) == |ks|
    ensures |Unresolvable(run, ks)| == 0 <==> forall k | k in ks :: run.Fine(k)
  {
    hide Run.Fine, StatusOf;
    if ks != [] {
      var n := |ks| - 1;
      UnresolvableExactly(run, ks[..n]);
      assert forall k :: k in ks <==> k in ks[..n] || k == ks[n];
    }
  }

  lemma {:induction false} UndefaultedExactly(run: Run, names: seq<Name>)
    ensures |Undefaulted(run, names)| + |run.DefaultKeys(names)| == |names|
    ensures |Undefaulted(run, names)| == 0 <==> forall n | n in names :: run.DefaultKey(n).Some?
  {
    hide Run.DefaultKey, DefaultStatus;
    if names != [] {
      var k := |names| - 1;
      UndefaultedExactly(run, names[..k]);
      assert forall n :: n in names <==> n in names[..k] || n == names[k];
    }
  }

  // --------------------------------------------------------------------------
  // Coverage is never overstated
  // --------------------------------------------------------------------------

  /** The two halves of a split hold each manifest as often as before. */
  lemma {:induction false} SelectSplits(ms: seq<Manifest>, p: Manifest -> bool)
    ensures multiset(Select(ms, p)) + multiset(Select(ms, Not(p))) == multiset(ms)
  {
    if ms != [] {
      var rest, m := ms[..|ms| - 1], ms[|ms| - 1];
      SelectSplits(rest, p);
      var yes, no := Select(rest, p), Select(rest, Not(p));
      assert multiset(yes + [m]) == multiset(yes) + multiset{m} && multiset(no + [m]) == multiset(no) + multiset{m};
      assert ms == rest + [m];
      if p(m) {
        assert Select(ms, p) == yes + [m] && Select(ms, Not(p)) == no;
      } else {
        assert Select(ms, p) == yes && Select(ms, Not(p)) == no + [m];
      }
    }
  }

  /** Selecting keeps the order. */
  lemma {:induction false} SelectInOrder(a: seq<Manifest>, b: seq<Manifest>, p: Manifest -> bool)
    ensures Select(a + b, p) == Select(a, p) + Select(b, p)
    decreases |b|
  {
    if b == [] {
      assert a + b == a;
    } else {
      var n := |b| - 1;
      SelectInOrder(a, b[..n], p);
      assert (a + b)[..|a| + n] == a + b[..n] && (a + b)[|a| + n] == b[n];
    }
  }

  lemma {:induction false} DeclarationsSplit(usable: string -> bool, eco: Eco, deps: seq<Declaration>)
    ensures |KeysOf(usable, eco, deps)| + |NamesOf(usable, eco, deps)| <= |deps|
    ensures |KeysOf(usable, eco, deps)| + |NamesOf(usable, eco, deps)| == |deps| <==>
      forall d | d in deps :: KeyOf(usable, eco, d).Some? || d.name != ""
    ensures forall k :: k in KeysOf(usable, eco, deps) <==> exists d :: d in deps && KeyOf(usable, eco, d) == Some(k)
    ensures forall n :: n in NamesOf(usable, eco, deps) <==> exists d :: d in deps && KeyOf(usable, eco, d).None? && d.name != "" && n == Name(eco, d.name)
  {
    if deps != [] {
      var n := |deps| - 1;
      DeclarationsSplit(usable, eco, deps[..n]);
      assert forall d :: d in deps <==> d in deps[..n] || d == deps[n];
    }
  }

  lemma {:induction false} DefaultKeysAre(run: Run, names: seq<Name>)
    ensures forall k :: k in run.DefaultKeys(names) <==> exists n :: n in names && run.DefaultKey(n) == Some(k)
    ensures |run.DefaultKeys(names)| == |names| <==> forall n | n in names :: run.DefaultKey(n).Some?
    ensures |run.DefaultKeys(names)| <= |names|
  {
    if names != [] {
      var k := |names| - 1;
      DefaultKeysAre(run, names[..k]);
      assert forall n :: n in names <==> n in names[..k] || n == names[k];
    }
  }

  function Final(run: Run): Packages {
    Merged(run.Defaulted(run.Bare()), run.AllOffers(run.Todo()))
  }

  // The same in terms of the collected tables and the resolver's answers alone.

  /** What an install of `n` without a version gets today. */
  predicate DefaultsTo(r: Resolver, n: Name, k: Key) {
    !r.probeFails && n.eco.Supported() && n == Name(k.eco, k.name) && r.defaultOf(n) == Some(Default("ok", k.version))
  }

  /** Manifest `m` names `k` without a version, and `k` is its default. */
  predicate NamesAtDefault(run: Run, m: Path, k: Key) {
    m in run.unversioned && Name(k.eco, k.name) in run.unversioned[m] && DefaultsTo(run.resolver, Name(k.eco, k.name), k)
  }

  predicate Declares(run: Run, m: Path, k: Key) {
    (m in run.direct && k in run.direct[m]) || NamesAtDefault(run, m, k)
  }

  /** The resolver knows the tree of `k`. */
  predicate Settles(r: Resolver, k: Key) {
    !r.probeFails && r.resultOf(k).Some? && r.resultOf(k).value.status == "ok"
  }

  /** The tree of `root` holds `k`. */
  predicate TreeHolds(r: Resolver, root: Key, k: Key) {
    root.eco.Supported() && Settles(r, root) && k.eco == root.eco && (k.name, k.version) in r.resultOf(root).value.nodes
  }

  /** A declared name rules out resolved versions of it: a Maven name everywhere, a PyPI name in the same file. */
  ghost predicate Overridden(run: Run, m: Path, k: Key) {
    exists j :: j in run.packages && Overrides(run, j, m, k)
  }

  predicate Overrides(run: Run, j: Key, m: Path, k: Key)
    requires j in run.packages
  {
    && j.eco == k.eco
    && match k.eco {
         case Maven => run.resolver.lower(j.name) == run.resolver.lower(k.name)
         case PyPI => m in run.packages[j].sources && run.resolver.norm(j.name) == run.resolver.norm(k.name)
         case _ => false
       }
  }

  /** `m` declares `root`, whose tree holds `k`, and no declared name rules `k` out. */
  ghost predicate InTreeOf(run: Run, root: Key, k: Key, m: Path) {
    Declares(run, m, root) && TreeHolds(run.resolver, root, k) && !Overridden(run, m, k)
  }

  ghost predicate InTree(run: Run, k: Key, m: Path) {
    exists root :: InTreeOf(run, root, k, m)
  }

  lemma DefaultExactly(run: Run, n: Name, k: Key)
    ensures run.DefaultKey(n) == Some(k) <==> n in run.Bare() && DefaultsTo(run.resolver, n, k)
  {
  }

  lemma NamersExactly(run: Run, m: Path, k: Key)
    ensures NamesAtDefault(run, m, k) <==> run.DefaultKey(k.Of()) == Some(k) && m in run.Namers(k.Of())
  {
    DefaultExactly(run, k.Of(), k);
    hide Run.DefaultKey;
  }

  lemma DeclarersExactly(run: Run, m: Path, k: Key)
    ensures m in run.Declarers(k) <==> Declares(run, m, k)
  {
    hide Run.DefaultKey, Run.Namers, NamesAtDefault;
    NamersExactly(run, m, k);
  }

  lemma FineExactly(run: Run, k: Key)
    ensures k in run.Todo() && run.Fine(k) <==> run.Fine(k)
    ensures run.Fine(k) <==> k.eco.Supported() && Settles(run.resolver, k) && exists m :: Declares(run, m, k)
  {
    AskedExactly(run, k);
    hide Run.Todo, Declares;
  }

  lemma AskedExactly(run: Run, k: Key)
    ensures k in run.Todo() <==> k.eco.Supported() && exists m :: Declares(run, m, k)
    ensures k in run.Todo() && run.resolver.probeFails ==> run.Failed()
  {
    DefaultExactly(run, k.Of(), k);
    hide Run.DefaultKey;
    if k in run.Wanted() {
      var m :| m in run.direct && k in run.direct[m];
      assert Declares(run, m, k);
    } else if k in run.Todo() {
      var n :| n in run.Bare() && run.DefaultKey(n) == Some(k);
      DefaultOfName(run, n);
      var m :| m in run.unversioned && n in run.unversioned[m];
      assert Declares(run, m, k);
    }
    if m :| k.eco.Supported() && Declares(run, m, k) {
      assert k in run.Wanted() || k.Of() in run.Bare();
    }
  }

  lemma CreditedExactly(run: Run, root: Key, k: Key, m: Path)
    requires k.eco == root.eco
    ensures m in run.Credited(root, k.name) <==> Declares(run, m, root) && !Overridden(run, m, k)
  {
    DeclarersExactly(run, m, root);
    hide Run.Declarers, Declares;
    assert Overridden(run, m, k) <==>
      (k.eco.Maven? && run.resolver.lower(k.name) in run.MavenDeclared()) || (k.eco.PyPI? && run.resolver.norm(k.name) in run.PypiDeclared(m)) by {
      if k.eco.Maven? && run.resolver.lower(k.name) in run.MavenDeclared() {
        var j :| j in run.packages && j.eco.Maven? && run.resolver.lower(j.name) == run.resolver.lower(k.name);
        assert Overrides(run, j, m, k);
      }
      if k.eco.PyPI? && run.resolver.norm(k.name) in run.PypiDeclared(m) {
        var j :| j in run.packages && j.eco.PyPI? && m in run.packages[j].sources && run.resolver.norm(j.name) == run.resolver.norm(k.name);
        assert Overrides(run, j, m, k);
      }
    }
  }

  /** The offers of the trees are exactly the nodes that no declared name rules out. */
  lemma OffersExactly(run: Run, k: Key, root: Key, m: Path)
    ensures InTreeOf(run, root, k, m) <==> exists o :: o in run.AllOffers(run.Todo()) && o.root == root && o.key == k && m in o.sources
  {
    hide Run.Todo, Run.Credited, Run.Fine, Run.Result, Declares, Overridden;
    if InTreeOf(run, root, k, m) {
      OfferOfNode(run, root, k, m);
    }
    if o :| o in run.AllOffers(run.Todo()) && o.root == root && o.key == k && m in o.sources {
      NodeOfOffer(run, o, m);
    }
  }

  lemma OfferOfNode(run: Run, root: Key, k: Key, m: Path)
    requires InTreeOf(run, root, k, m)
    ensures exists o :: o in run.AllOffers(run.Todo()) && o.root == root && o.key == k && m in o.sources
  {
    FineExactly(run, root);
    AskedExactly(run, root);
    CreditedExactly(run, root, k, m);
    assert run.Fine(root) && run.Result(root) == run.resolver.resultOf(root);
    hide Run.Todo, Run.Credited, Run.Fine, Run.Result, Declares, Overridden;
    var nodes := run.Result(root).value.nodes;
    var i: nat :| i < |nodes| && nodes[i] == (k.name, k.version);
    var o := run.OfferAt(root, i);
    assert o in run.OffersOf(root, |nodes|);
    assert o in run.AllOffers(run.Todo());
  }

  lemma NodeOfOffer(run: Run, o: Offer, m: Path)
    requires o in run.AllOffers(run.Todo()) && m in o.sources
    ensures InTreeOf(run, o.root, o.key, m)
  {
    var root :| root in run.Todo() && run.Fine(root) && o in run.OffersOf(root, |run.Result(root).value.nodes|);
    var i: nat :| i < |run.Result(root).value.nodes| && o == run.OfferAt(root, i);
    FineExactly(run, root);
    CreditedExactly(run, root, o.key, m);
    assert run.Result(root) == run.resolver.resultOf(root);
    hide Run.Todo, Run.Credited, Run.Fine, Run.Result, Declares, Overridden;
    assert run.resolver.resultOf(root).value.nodes[i] in run.resolver.resultOf(root).value.nodes;
  }

  ghost function BasisInList(run: Run, k: Key): Basis {
    if k in run.packages then run.packages[k].basis else if exists m :: NamesAtDefault(run, m, k) then ResolvedDefault else Resolved
  }

  lemma DefaultedExactly(run: Run, k: Key)
    ensures var d, named := run.Defaulted(run.Bare()), exists m :: NamesAtDefault(run, m, k);
      && (k in d <==> k in run.packages || named)
      && (k in d ==> d[k].basis == if k in run.packages then run.packages[k].basis else ResolvedDefault)
      && (k in d ==> d[k].via == if k in run.packages then run.packages[k].via else {})
      && (k in d ==> forall m :: m in d[k].sources <==> (k in run.packages && m in run.packages[k].sources) || NamesAtDefault(run, m, k))
  {
    hide NamesAtDefault, Run.DefaultKey, Run.Bare;
    forall m ensures NamesAtDefault(run, m, k) <==> run.DefaultKey(k.Of()) == Some(k) && m in run.Namers(k.Of()) {
      NamersExactly(run, m, k);
    }
    var added := set n | n in run.Bare() && run.DefaultKey(n).Some? :: run.DefaultKey(n).value;
    assert k in added <==> run.DefaultKey(k.Of()) == Some(k) by {
      if k in added {
        var n :| n in run.Bare() && run.DefaultKey(n) == Some(k);
        DefaultOfName(run, n);
      }
      DefaultNamed(run, k);
    }
    DefaultNamed(run, k);
  }

  lemma DefaultNamed(run: Run, k: Key)
    ensures run.DefaultKey(k.Of()) == Some(k) ==> k.Of() in run.Bare() && exists m :: m in run.Namers(k.Of())
  {
    if run.DefaultKey(k.Of()) == Some(k) {
      var m :| m in run.unversioned && k.Of() in run.unversioned[m];
      assert m in run.Namers(k.Of());
    }
  }

  lemma SourcesExactly(run: Run, k: Key)
    ensures var offers := run.AllOffers(run.Todo());
      && (forall m :: m in SourcesFrom(offers, k) <==> InTree(run, k, m))
      && (forall root :: root in RootsFrom(offers, k) <==> exists m :: InTreeOf(run, root, k, m))
      && (k in Credit(offers) <==> exists m :: InTree(run, k, m))
  {
    hide Run.AllOffers, Run.Todo, InTreeOf;
    var offers := run.AllOffers(run.Todo());
    forall root, m ensures InTreeOf(run, root, k, m) <==> exists o :: o in offers && o.root == root && o.key == k && m in o.sources {
      OffersExactly(run, k, root, m);
    }
    forall o | o in offers && o.key == k && o.sources != {} ensures exists m :: InTreeOf(run, o.root, k, m) {
      var m :| m in o.sources;
      assert InTreeOf(run, o.root, k, m);
    }
    forall m ensures m in SourcesFrom(offers, k) <==> InTree(run, k, m) {
      if InTree(run, k, m) {
        var root :| InTreeOf(run, root, k, m);
      }
      if o :| o in offers && o.key == k && m in o.sources {
        assert InTreeOf(run, o.root, k, m);
      }
    }
    if k in Credit(offers) {
      var o :| o in offers && o.key == k && o.sources != {};
      var m :| InTreeOf(run, o.root, k, m);
      assert InTree(run, k, m);
    }
  }

  /**
   * What the final list holds. A package is listed exactly when a manifest declares it, names it without a
   * version and it is the default, or has it in a tree where no declared name rules it out. What is
   * declared keeps its basis; a package that trees alone bring in is listed for all their manifests and roots.
   */
  lemma ListedExactly(run: Run, k: Key)
    ensures k in Final(run) <==>
      k in run.packages || (exists m :: NamesAtDefault(run, m, k)) || exists m :: InTree(run, k, m)
    ensures k in Final(run) ==> Final(run)[k].basis == BasisInList(run, k)
    ensures k in Final(run) ==> forall m :: m in Final(run)[k].sources <==>
      (k in run.packages && m in run.packages[k].sources) || NamesAtDefault(run, m, k) || (Final(run)[k].basis.Resolved? && InTree(run, k, m))
    ensures k in Final(run) ==> forall root :: root in Final(run)[k].via <==>
      (k in run.packages && root in run.packages[k].via) || (Final(run)[k].basis.Resolved? && exists m :: InTreeOf(run, root, k, m))
  {
    DefaultedExactly(run, k);
    SourcesExactly(run, k);
    hide Run.AllOffers, Run.Todo, Run.Defaulted, Run.Bare, InTree, InTreeOf, NamesAtDefault, SourcesFrom, RootsFrom, Credit;
  }

  /** What the repository declares keeps its basis; a locked or floor entry gains no sources but by its default. */
  lemma DeclaredKept(run: Run, k: Key)
    requires k in run.packages
    ensures var e, f := run.packages[k], Final(run);
      && k in f && f[k].basis == e.basis && e.sources <= f[k].sources
      && (!e.basis.Resolved? ==> f[k].via == e.via && forall m :: m in f[k].sources <==> m in e.sources || NamesAtDefault(run, m, k))
  {
    ListedExactly(run, k);
    hide Final, InTree, InTreeOf, NamesAtDefault;
  }

  /** A package that the repository did not declare is listed exactly for the manifests whose trees contain it. */
  lemma TreesExactly(run: Run, k: Key)
    requires k !in run.packages && forall m :: !NamesAtDefault(run, m, k)
    ensures k in Final(run) <==> exists m :: InTree(run, k, m)
    ensures k in Final(run) ==> Final(run)[k].basis.Resolved? && forall m :: m in Final(run)[k].sources <==> InTree(run, k, m)
  {
    ListedExactly(run, k);
    hide Final, InTree, InTreeOf, NamesAtDefault;
  }

  /** Every node of every declared tree is listed, with its declarer and its root unless the repository declares it too. */
  lemma TreesListed(run: Run, m: Path, root: Key, k: Key)
    requires Declares(run, m, root) && TreeHolds(run.resolver, root, k) && !Overridden(run, m, k)
    ensures Credits(Final(run), m, root, k)
  {
    hide Final, Declares, TreeHolds, Overridden, NamesAtDefault, BasisInList;
    assert InTreeOf(run, root, k, m);
    assert InTree(run, k, m);
    ListedExactly(run, k);
  }

  /** The list holds `k`, and an entry that trees alone brought in names the manifest and the root. */
  predicate Credits(packages: Packages, m: Path, root: Key, k: Key) {
    k in packages && (packages[k].basis.Resolved? ==> m in packages[k].sources && root in packages[k].via)
  }

  // --------------------------------------------------------------------------
  // What a resolved manifest means
  // --------------------------------------------------------------------------

  /** `k` stands for a declaration: at its own version, or at what an install gets today. */
  predicate StandsFor(r: Resolver, usable: string -> bool, eco: Eco, d: Declaration, k: Key) {
    || KeyOf(usable, eco, d) == Some(k)
    || (KeyOf(usable, eco, d).None? && d.name != "" && DefaultsTo(r, Name(eco, d.name), k))
  }

  /** `k` stands for one of the declarations of `p`. */
  ghost predicate Stands(r: Resolver, usable: string -> bool, p: Parsed, k: Key) {
    || (exists d :: d in p.deps && StandsFor(r, usable, p.eco, d, k))
    || exists b :: b in p.bare && DefaultsTo(r, Name(p.eco, b), k)
  }

  ghost predicate DeclarationSettled(r: Resolver, usable: string -> bool, eco: Eco, d: Declaration) {
    exists k :: StandsFor(r, usable, eco, d, k) && Settles(r, k)
  }

  ghost predicate NameSettled(r: Resolver, n: Name) {
    exists k :: DefaultsTo(r, n, k) && Settles(r, k)
  }

  /** The ecosystem is supported, and each declaration stands on a key whose tree resolved. */
  ghost predicate AllSettled(r: Resolver, usable: string -> bool, p: Parsed) {
    && p.eco.Supported()
    && (forall d | d in p.deps :: DeclarationSettled(r, usable, p.eco, d))
    && forall b | b in p.bare :: NameSettled(r, Name(p.eco, b))
  }

  /** `run` holds what the collector filed for `p`. */
  ghost predicate Holds(run: Run, usable: string -> bool, p: Parsed) {
    Filed(usable, p, run.direct, run.unversioned)
  }

  /** What stands for a declaration of a filed manifest is what the resolution calls declared by it. */
  lemma StandsIsDeclared(run: Run, usable: string -> bool, p: Parsed, k: Key)
    requires Holds(run, usable, p)
    ensures Stands(run.resolver, usable, p, k) ==> Declares(run, p.path, k)
  {
    DeclarationsSplit(usable, p.eco, p.deps);
    hide KeyOf, KeysOf, NamesOf, DefaultsTo;
    var names := NamesOf(usable, p.eco, p.deps) + BareNames(p);
    if d :| d in p.deps && StandsFor(run.resolver, usable, p.eco, d, k) {
      if KeyOf(usable, p.eco, d) != Some(k) {
        assert Name(p.eco, d.name) in names;
        DefaultIsNamed(run, p.path, Name(p.eco, d.name), k);
      }
    }
    if b :| b in p.bare && DefaultsTo(run.resolver, Name(p.eco, b), k) {
      BareIsListed(p, b);
      assert Name(p.eco, b) in names;
      DefaultIsNamed(run, p.path, Name(p.eco, b), k);
    }
  }

  lemma BareIsListed(p: Parsed, b: string)
    ensures b in p.bare <==> Name(p.eco, b) in BareNames(p)
  {
    if b in p.bare {
      var i :| 0 <= i < |p.bare| && p.bare[i] == b;
      assert BareNames(p)[i] == Name(p.eco, b);
    }
  }

  lemma DefaultIsNamed(run: Run, m: Path, n: Name, k: Key)
    requires m in run.unversioned && n in run.unversioned[m] && DefaultsTo(run.resolver, n, k)
    ensures NamesAtDefault(run, m, k)
  {
  }

  /** The status a reason shows is the resolver's answer about what the manifest declares; after a failed probe there is none. */
  lemma StatusesExactly(run: Run, m: Path, k: Key)
    requires Declares(run, m, k) && k.eco.Supported()
    ensures StatusOf(run, k) ==
      if run.resolver.probeFails || run.resolver.resultOf(k).None? then None else Some(run.resolver.resultOf(k).value.status)
  {
    AskedExactly(run, k);
    hide Run.Todo, Declares;
  }

  lemma DefaultStatusesExactly(run: Run, m: Path, n: Name)
    requires m in run.unversioned && n in run.unversioned[m] && n.eco.Supported()
    ensures DefaultStatus(run, n) ==
      if run.resolver.probeFails || run.resolver.defaultOf(n).None? then None else Some(run.resolver.defaultOf(n).value.status)
  {
    BareHas(run, m, n);
    hide Run.Bare;
  }

  /** A collected manifest is called resolved exactly when every declaration in it became a key that resolved. */
  lemma ResolvedExactly(run: Run, usable: string -> bool, p: Parsed)
    requires Holds(run, usable, p)
    ensures run.FullyResolved(Manifest(p.path, p.eco, p.Declared())) <==> AllSettled(run.resolver, usable, p)
  {
    hide Run.Fine, Run.DefaultKey, Run.DefaultKeys, KeysOf, NamesOf, KeyOf, StandsFor, DefaultsTo, Settles, DeclarationSettled, NameSettled;
    var ks, names := KeysOf(usable, p.eco, p.deps), NamesOf(usable, p.eco, p.deps);
    assert run.Direct(p.path) == ks && run.Unversioned(p.path) == names + BareNames(p);
    DeclarationsSplit(usable, p.eco, p.deps);
    DefaultKeysAre(run, names + BareNames(p));
    forall d | d in p.deps && p.eco.Supported()
      ensures DeclarationSettled(run.resolver, usable, p.eco, d) <==> DeclarationFine(run, usable, p.eco, d)
    {
      DeclarationFineExactly(run, usable, p, d);
    }
    forall b | b in p.bare && p.eco.Supported() ensures NameSettled(run.resolver, Name(p.eco, b)) <==> NameFine(run, Name(p.eco, b)) {
      BareIsListed(p, b);
      NameFineExactly(run, p.path, Name(p.eco, b));
    }
    FullyFineExactly(run, usable, p);
  }

  /** The same in terms of the run. */
  predicate DeclarationFine(run: Run, usable: string -> bool, eco: Eco, d: Declaration) {
    match KeyOf(usable, eco, d)
    case Some(k) => run.Fine(k)
    case None => d.name != "" && NameFine(run, Name(eco, d.name))
  }

  predicate EachFine(run: Run, usable: string -> bool, p: Parsed) {
    (forall d | d in p.deps :: DeclarationFine(run, usable, p.eco, d)) && forall b | b in p.bare :: NameFine(run, Name(p.eco, b))
  }

  predicate NameFine(run: Run, n: Name) {
    run.DefaultKey(n).Some? && run.Fine(run.DefaultKey(n).value)
  }

  lemma NameFineExactly(run: Run, m: Path, n: Name)
    requires m in run.unversioned && n in run.unversioned[m] && n.eco.Supported()
    ensures NameSettled(run.resolver, n) <==> NameFine(run, n)
  {
    hide Run.Fine, Run.DefaultKey, Run.Bare, Settles;
    assert n in run.Bare() by { BareHas(run, m, n); }
    forall k | DefaultsTo(run.resolver, n, k) || run.DefaultKey(n) == Some(k)
      ensures DefaultsTo(run.resolver, n, k) && run.DefaultKey(n) == Some(k) && (run.Fine(k) <==> Settles(run.resolver, k))
    {
      DefaultExactly(run, n, k);
      DefaultIsNamed(run, m, n, k);
      assert Declares(run, m, k);
      FineExactly(run, k);
    }
  }

  lemma BareHas(run: Run, m: Path, n: Name)
    requires m in run.unversioned && n in run.unversioned[m] && n.eco.Supported()
    ensures n in run.Bare()
  {
  }

  lemma DeclarationFineExactly(run: Run, usable: string -> bool, p: Parsed, d: Declaration)
    requires Holds(run, usable, p) && d in p.deps && p.eco.Supported()
    ensures DeclarationSettled(run.resolver, usable, p.eco, d) <==> DeclarationFine(run, usable, p.eco, d)
  {
    DeclarationsSplit(usable, p.eco, p.deps);
    hide Run.Fine, Run.DefaultKey, Settles, DefaultsTo, KeysOf, NamesOf, NameFine;
    var own := KeyOf(usable, p.eco, d);
    if own.Some? {
      assert Declares(run, p.path, own.value);
      FineExactly(run, own.value);
      assert StandsFor(run.resolver, usable, p.eco, d, own.value);
    } else if d.name != "" {
      assert Name(p.eco, d.name) in run.unversioned[p.path];
      NameFineExactly(run, p.path, Name(p.eco, d.name));
    }
  }

  lemma FullyFineExactly(run: Run, usable: string -> bool, p: Parsed)
    requires Holds(run, usable, p)
    ensures run.FullyResolved(Manifest(p.path, p.eco, p.Declared())) <==> p.eco.Supported() && EachFine(run, usable, p)
  {
    hide Run.Fine, Run.DefaultKey, Run.DefaultKeys, KeysOf, NamesOf, KeyOf;
    var ks, names := KeysOf(usable, p.eco, p.deps), NamesOf(usable, p.eco, p.deps);
    assert run.Direct(p.path) == ks && run.Unversioned(p.path) == names + BareNames(p);
    DeclarationsSplit(usable, p.eco, p.deps);
    DefaultKeysAre(run, names + BareNames(p));
    forall b ensures b in p.bare <==> Name(p.eco, b) in BareNames(p) {
      BareIsListed(p, b);
    }
    if run.FullyResolved(Manifest(p.path, p.eco, p.Declared())) {
      forall d | d in p.deps ensures DeclarationFine(run, usable, p.eco, d) {
        if KeyOf(usable, p.eco, d).Some? {
          assert KeyOf(usable, p.eco, d).value in ks;
        } else {
          assert Name(p.eco, d.name) in names;
        }
      }
    }
    if p.eco.Supported() && EachFine(run, usable, p) {
      forall n | n in names + BareNames(p) ensures NameFine(run, n) {
      }
      assert forall k | k in ks :: run.Fine(k);
    }
  }

  // --------------------------------------------------------------------------
  // Declared names override resolved versions
  // --------------------------------------------------------------------------

  /** A resolved Maven version never carries a name declared with a version; a PyPI one not in the same file. */
  lemma OverrideKept(run: Run, k: Key)
    requires k in Final(run) && k !in run.packages && forall m :: !NamesAtDefault(run, m, k)
    ensures k.eco.Maven? ==> run.resolver.lower(k.name) !in run.MavenDeclared()
    ensures k.eco.PyPI? ==> forall m | m in Final(run)[k].sources :: run.resolver.norm(k.name) !in run.PypiDeclared(m)
  {
    TreesExactly(run, k);
    forall m | InTree(run, k, m) ensures !Overridden(run, m, k) {
    }
    hide InTree, InTreeOf, Final, NamesAtDefault;
    forall m, j | !Overridden(run, m, k) && j in run.packages ensures !Overrides(run, j, m, k) {
    }
  }

  /** Maven names declared without a version. */
  function MavenNamed(run: Run): set<string> {
    set n | n in run.Bare() && n.eco.Maven? :: run.resolver.lower(n.name)
  }

  /** `j` and `k` are two versions of one declared Maven name in the final list, and `k` was added by the resolution. */
  predicate Twice(run: Run, j: Key, k: Key) {
    && j.eco.Maven? && k.eco.Maven? && j in Final(run) && k in Final(run) && k !in run.packages
    && run.resolver.lower(j.name) == run.resolver.lower(k.name) && j.version != k.version
    && run.resolver.lower(k.name) in run.MavenDeclared() + MavenNamed(run)
  }

  /** The resolution adds a second version of a declared Maven name, as a default or from a tree. */
  ghost predicate SecondVersion(run: Run) {
    exists j, k :: Twice(run, j, k)
  }

  ghost predicate SameNaming(r: Resolver, s: Resolver) {
    r.lower == s.lower && r.norm == s.norm
  }

  /** A tree lists its own root at the root's version only. */
  ghost predicate Consistent(r: Resolver) {
    forall k | r.resultOf(k).Some? :: RootAtItsVersion(r, k)
  }

  predicate RootAtItsVersion(r: Resolver, k: Key)
    requires r.resultOf(k).Some?
  {
    forall node | node in r.resultOf(k).value.nodes :: r.lower(node.0) == r.lower(k.name) ==> node.1 == k.version
  }

  /** The collector lists every direct declaration. */
  predicate Listed(run: Run) {
    forall m, k | m in run.direct && k in run.direct[m] :: k in run.packages
  }

  /** The Maven names whose trees are asked for. */
  function MavenRoots(run: Run): set<Name> {
    (set k | k in run.Wanted() && k.eco.Maven? :: k.Of()) + set n | n in run.Bare() && n.eco.Maven?
  }

  /** A Maven name without a version is declared nowhere with one, and is the only Maven dependency to resolve. */
  predicate Alone(run: Run) {
    forall n | n in run.Bare() && n.eco.Maven? ::
      run.resolver.lower(n.name) !in run.MavenDeclared() && forall m | m in MavenRoots(run) :: m == n
  }

  /**
   * No answers of the resolver can add a second version of a declared Maven name, exactly when no
   * name is declared without a version, or one is and it is alone.
   */
  lemma MavenRuleExactly(run: Run)
    requires Listed(run)
    ensures (forall r | SameNaming(r, run.resolver) && Consistent(r) :: !SecondVersion(run.(resolver := r))) <==> Alone(run)
  {
    if Alone(run) {
      forall r | SameNaming(r, run.resolver) && Consistent(r) ensures !SecondVersion(run.(resolver := r)) {
        SameDeclarations(run, r);
        NoSecondVersion(run.(resolver := r));
      }
    } else {
      var r := Misleading(run);
    }
  }

  lemma SameDeclarations(run: Run, r: Resolver)
    requires SameNaming(r, run.resolver)
    ensures var changed := run.(resolver := r);
      && changed.Bare() == run.Bare() && changed.Wanted() == run.Wanted() && changed.MavenDeclared() == run.MavenDeclared()
      && MavenNamed(changed) == MavenNamed(run) && (Alone(changed) <==> Alone(run)) && (Listed(changed) <==> Listed(run))
  {
    var changed := run.(resolver := r);
    assert MavenRoots(changed) == MavenRoots(run);
    assert MavenNamed(changed) == MavenNamed(run);
    assert changed.MavenDeclared() == run.MavenDeclared();
  }

  /** An added version of a lone name is its default version. */
  lemma AddedIsDefault(run: Run, n: Name, k: Key)
    requires Listed(run) && Consistent(run.resolver) && Alone(run) && n in run.Bare() && n.eco.Maven?
    requires k in Final(run) && k !in run.packages && k.eco.Maven? && run.resolver.lower(k.name) == run.resolver.lower(n.name)
    ensures run.DefaultKey(n).Some? && run.DefaultKey(n).value.version == k.version
  {
    ListedExactly(run, k);
    hide Final;
    if m :| NamesAtDefault(run, m, k) {
      NamersExactly(run, m, k);
      assert k.Of() in MavenRoots(run);
    } else {
      var m :| InTree(run, k, m);
      var root :| InTreeOf(run, root, k, m);
      AskedExactly(run, root);
      LoneRoot(run, n, root);
      NodeAtRootVersion(run.resolver, root, k);
    }
  }

  lemma NodeAtRootVersion(r: Resolver, root: Key, k: Key)
    requires Consistent(r) && TreeHolds(r, root, k) && r.lower(k.name) == r.lower(root.name)
    ensures k.version == root.version
  {
    assert RootAtItsVersion(r, root);
  }

  lemma LoneRoot(run: Run, n: Name, root: Key)
    requires Listed(run) && Alone(run) && n in run.Bare() && n.eco.Maven? && root in run.Todo() && root.eco.Maven?
    ensures run.DefaultKey(n) == Some(root) && root.Of() == n
  {
    assert root in run.Wanted() ==> root.Of() in MavenRoots(run) && run.resolver.lower(root.name) in run.MavenDeclared();
    var o :| o in run.Bare() && run.DefaultKey(o) == Some(root);
    assert o in MavenRoots(run);
  }

  lemma NoSecondVersion(run: Run)
    requires Listed(run) && Consistent(run.resolver) && Alone(run)
    ensures !SecondVersion(run)
  {
    forall j, k ensures !Twice(run, j, k) {
      if Twice(run, j, k) {
        var low := run.resolver.lower(k.name);
        if low in run.MavenDeclared() {
          NotAdded(run, k);
        } else {
          var n :| n in run.Bare() && n.eco.Maven? && run.resolver.lower(n.name) == low;
          AddedIsDefault(run, n, k);
          AddedIsDefault(run, n, j);
        }
      }
    }
  }

  /** No version of a name that is declared with one is added. */
  lemma NotAdded(run: Run, k: Key)
    requires Alone(run) && k in Final(run) && k.eco.Maven? && run.resolver.lower(k.name) in run.MavenDeclared()
    ensures k in run.packages
  {
    if k !in run.packages {
      hide Final, InTree;
      if m :| NamesAtDefault(run, m, k) {
        NamersExactly(run, m, k);
      } else {
        OverrideKept(run, k);
      }
    }
  }

  // Answers that add a second version.

  /** A resolver that knows these defaults and these trees. */
  function Script(r: Resolver, defaults: map<Name, string>, trees: map<Key, seq<(string, string)>>): Resolver {
    Resolver(false, n => if n in defaults then Some(Default("ok", defaults[n])) else None,
             k => if k in trees then Some(Res("ok", trees[k])) else None, r.lower, r.norm)
  }

  lemma Scripted(run: Run, r: Resolver, defaults: map<Name, string>, trees: map<Key, seq<(string, string)>>)
    requires run.resolver == Script(r, defaults, trees)
    ensures !run.Failed()
    ensures forall n | n in run.Bare() && n in defaults ::
      run.DefaultKey(n) == Some(Key(n.eco, n.name, defaults[n])) && Key(n.eco, n.name, defaults[n]) in run.Todo() && Key(n.eco, n.name, defaults[n]) in Final(run)
    ensures forall n | n !in defaults :: run.DefaultKey(n) == None
    ensures forall k | k in run.Todo() && k in trees :: run.Result(k) == Some(Res("ok", trees[k]))
  {
    hide Run.Bare, Run.Wanted, Run.Namers, Run.AllOffers;
    assert forall n :: run.DefaultKey(n) == if n in run.Bare() && n in defaults then Some(Key(n.eco, n.name, defaults[n])) else None;
    forall n | n in run.Bare() && n in defaults ensures Key(n.eco, n.name, defaults[n]) in run.Defaulted(run.Bare()) {
      assert run.DefaultKey(n).Some?;
    }
  }

  /** If a tree of another root holds `n` in version 2, that version is listed beside the default 1. */
  lemma SecondFromTree(run: Run, r: Resolver, defaults: map<Name, string>, n: Name, root: Key)
    requires n in run.Bare() && n.eco.Maven? && root.eco.Maven? && r.lower(n.name) !in run.MavenDeclared()
    requires run.resolver == Script(r, defaults, map[root := [(n.name, "2")]]) && n in defaults && defaults[n] == "1"
    requires forall o | o in defaults :: defaults[o] == "1"
    requires root in run.Todo() && run.Declarers(root) != {}
    ensures SecondVersion(run)
  {
    var one, two, trees := Key(n.eco, n.name, "1"), Key(n.eco, n.name, "2"), map[root := [(n.name, "2")]];
    hide Run.Todo, Run.Defaulted, Run.DefaultKey, Run.Result, Run.Declarers, Run.Failed, Final, MavenNamed, Run.MavenDeclared, Run.Bare;
    Scripted(run, r, defaults, trees);
    NotDeclared(run, two);
    BareIsNamed(run, n);
    NodeListed(run, root, two);
    assert Twice(run, one, two);
  }

  lemma BareIsNamed(run: Run, n: Name)
    requires n in run.Bare() && n.eco.Maven?
    ensures run.resolver.lower(n.name) in MavenNamed(run)
  {
    hide Run.Bare;
  }

  /** The only node of a tree is listed when it overrides nothing. */
  lemma NodeListed(run: Run, root: Key, k: Key)
    requires run.Declarers(root) != {} && root.eco.Maven? && k.eco.Maven? && run.resolver.lower(k.name) !in run.MavenDeclared()
    requires Settles(run.resolver, root) && run.resolver.resultOf(root).value.nodes == [(k.name, k.version)]
    ensures k in Final(run)
  {
    var m :| m in run.Declarers(root);
    DeclarersExactly(run, m, root);
    hide Declares, Run.Declarers, Final, NamesAtDefault;
    assert [(k.name, k.version)][0] in [(k.name, k.version)];
    assert InTreeOf(run, root, k, m);
    assert InTree(run, k, m);
    ListedExactly(run, k);
  }

  lemma NotDeclared(run: Run, k: Key)
    requires k.eco.Maven? && run.resolver.lower(k.name) !in run.MavenDeclared()
    ensures k !in run.packages
  {
  }

  /** A default version of a name that is declared with another version is listed beside it. */
  lemma SecondFromDefault(run: Run, r: Resolver, n: Name, j: Key, version: string)
    requires n in run.Bare() && n.eco.Maven? && j.eco.Maven? && j in run.packages && r.lower(j.name) == r.lower(n.name)
    requires run.resolver == Script(r, map[n := version], map[]) && Key(n.eco, n.name, version) !in run.packages && version != j.version
    ensures SecondVersion(run)
  {
    Scripted(run, r, map[n := version], map[]);
    DeclaredKept(run, j);
    assert r.lower(n.name) in MavenNamed(run);
    assert Twice(run, j, Key(n.eco, n.name, version));
  }

  /** A text that is not in a finite set: longer than all of it. */
  lemma NewText(texts: set<string>) returns (t: string)
    ensures t !in texts
  {
    var n := Longest(texts);
    t := seq(n + 1, i => 'x');
  }

  lemma Longest(texts: set<string>) returns (n: nat)
    ensures forall t | t in texts :: |t| <= n
  {
    n := 0;
    var todo := texts;
    while todo != {}
      invariant todo <= texts && forall t | t in texts - todo :: |t| <= n
    {
      var t :| t in todo;
      n := if |t| > n then |t| else n;
      todo := todo - {t};
    }
  }

  /** Answers with which the resolution of a run that is not alone adds a second version. */
  lemma Misleading(run: Run) returns (r: Resolver)
    requires Listed(run) && !Alone(run)
    ensures SameNaming(r, run.resolver) && Consistent(r) && SecondVersion(run.(resolver := r))
  {
    var n :| n in run.Bare() && n.eco.Maven?
      && (run.resolver.lower(n.name) in run.MavenDeclared() || exists m :: m in MavenRoots(run) && m != n);
    if run.resolver.lower(n.name) in run.MavenDeclared() {
      r := OtherDefault(run, n);
    } else {
      var m :| m in MavenRoots(run) && m != n;
      if m in run.Bare() {
        r := OtherBare(run, n, m);
      } else {
        r := OtherRoot(run, n, m);
      }
    }
  }

  lemma OtherDefault(run: Run, n: Name) returns (r: Resolver)
    requires n in run.Bare() && n.eco.Maven? && run.resolver.lower(n.name) in run.MavenDeclared()
    ensures SameNaming(r, run.resolver) && Consistent(r) && SecondVersion(run.(resolver := r))
  {
    var j :| j in run.packages && j.eco.Maven? && run.resolver.lower(j.name) == run.resolver.lower(n.name);
    var version := NewText(set k | k in run.packages :: k.version);
    r := Script(run.resolver, map[n := version], map[]);
    SecondFromDefault(run.(resolver := r), run.resolver, n, j, version);
  }

  /** Two names without versions: equal up to case they get two defaults, else one's tree holds the other. */
  lemma OtherBare(run: Run, n: Name, m: Name) returns (r: Resolver)
    requires n in run.Bare() && n.eco.Maven? && m in run.Bare() && m.eco.Maven? && m != n
    requires run.resolver.lower(n.name) !in run.MavenDeclared()
    ensures SameNaming(r, run.resolver) && Consistent(r) && SecondVersion(run.(resolver := r))
  {
    if run.resolver.lower(n.name) == run.resolver.lower(m.name) {
      r := Script(run.resolver, map[n := "1", m := "2"], map[]);
      SameDeclarations(run, r);
      TwoDefaults(run.(resolver := r), run.resolver, n, m);
    } else {
      var root := Key(m.eco, m.name, "1");
      r := Script(run.resolver, map[n := "1", m := "1"], map[root := [(n.name, "2")]]);
      SameDeclarations(run, r);
      OtherBareTree(run.(resolver := r), run.resolver, n, m, root);
    }
  }

  lemma TwoDefaults(run: Run, r: Resolver, n: Name, m: Name)
    requires n in run.Bare() && n.eco.Maven? && m in run.Bare() && m.eco.Maven? && m != n
    requires r.lower(n.name) == r.lower(m.name) && r.lower(n.name) !in run.MavenDeclared()
    requires run.resolver == Script(r, map[n := "1", m := "2"], map[])
    ensures SecondVersion(run)
  {
    var k := Key(m.eco, m.name, "2");
    Scripted(run, r, map[n := "1", m := "2"], map[]);
    NotDeclared(run, k);
    assert run.resolver.lower(m.name) in MavenNamed(run);
    hide Run.Todo, Run.Defaulted, Run.DefaultKey, Run.Result, Final, MavenNamed, Run.MavenDeclared, Run.Bare;
    assert Twice(run, Key(n.eco, n.name, "1"), k);
  }

  lemma OtherBareTree(run: Run, r: Resolver, n: Name, m: Name, root: Key)
    requires n in run.Bare() && n.eco.Maven? && m in run.Bare() && m.eco.Maven? && m != n
    requires r.lower(n.name) !in run.MavenDeclared() && root == Key(m.eco, m.name, "1")
    requires run.resolver == Script(r, map[n := "1", m := "1"], map[root := [(n.name, "2")]])
    ensures SecondVersion(run)
  {
    hide Run.Bare, Run.Declarers, Run.Todo, Run.DefaultKey, Run.MavenDeclared, Run.Failed, Final, SecondVersion, Run.Result;
    var defaults, trees := map[n := "1", m := "1"], map[root := [(n.name, "2")]];
    assert defaults[m] == "1" && forall o | o in defaults :: defaults[o] == "1";
    Scripted(run, r, defaults, trees);
    DefaultDeclared(run, m, root);
    SecondFromTree(run, r, defaults, n, root);
  }

  /** A default version belongs to the manifests that name the package. */
  lemma DefaultDeclared(run: Run, m: Name, root: Key)
    requires m in run.Bare() && run.DefaultKey(m) == Some(root) && root.Of() == m
    ensures run.Declarers(root) != {}
  {
    hide Run.DefaultKey;
    var p :| p in run.unversioned && m in run.unversioned[p];
    assert p in run.Namers(m) && run.AtDefault(root);
    assert p in run.Declarers(root);
  }

  /** A root with a version whose tree holds the name without one. */
  lemma OtherRoot(run: Run, n: Name, m: Name) returns (r: Resolver)
    requires Listed(run) && n in run.Bare() && n.eco.Maven? && m in MavenRoots(run) && m !in run.Bare()
    requires run.resolver.lower(n.name) !in run.MavenDeclared()
    ensures SameNaming(r, run.resolver) && Consistent(r) && SecondVersion(run.(resolver := r))
  {
    var root :| root in run.Wanted() && root.eco.Maven? && root.Of() == m;
    var p :| p in run.direct && root in run.direct[p];
    assert run.resolver.lower(root.name) in run.MavenDeclared();
    r := Script(run.resolver, map[n := "1"], map[root := [(n.name, "2")]]);
    var changed := run.(resolver := r);
    SameDeclarations(run, r);
    assert root in changed.Wanted() && p in changed.Declarers(root);
    hide Run.Bare, Run.MavenDeclared, Run.DefaultKey;
    SecondFromTree(changed, run.resolver, map[n := "1"], n, root);
  }
}

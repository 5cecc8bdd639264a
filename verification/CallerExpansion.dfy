/** Level-by-level expansion of a vulnerable symbol to the public methods that can reach it. */
module CallerExpansion {

  type Method = string
  type Symbol = string

  /** The call graph of one artifact: the callers of each method, and which methods are public. */
  datatype Graph = Graph(callers: map<Method, seq<Method>>, open: set<Method>) {
    function CallersOf(m: Method): seq<Method> {
      if m in callers then callers[m] else []
    }
  }

  // --------------------------------------------------------------------------
  // Distance, by call chains
  // --------------------------------------------------------------------------

  /** `chain` starts at a target and each next method calls the one before it. */
  ghost predicate Chain(g: Graph, targets: seq<Method>, chain: seq<Method>) {
    && chain != [] && chain[0] in targets
    && forall i | 0 <= i < |chain| - 1 :: chain[i + 1] in g.CallersOf(chain[i])
  }

  /** Some call chain of `n` calls leads from `m` to a target. */
  ghost predicate Reaches(g: Graph, targets: seq<Method>, m: Method, n: nat) {
    exists chain :: Chain(g, targets, chain) && |chain| == n + 1 && chain[n] == m
  }

  /** The shortest chain from `m` to a target has `n` calls. */
  ghost predicate Distance(g: Graph, targets: seq<Method>, m: Method, n: nat) {
    Reaches(g, targets, m, n) && forall k: nat | k < n :: !Reaches(g, targets, m, k)
  }

  lemma ReachesTarget(g: Graph, targets: seq<Method>, m: Method)
    ensures Reaches(g, targets, m, 0) <==> m in targets
  {
    if m in targets {
      assert Chain(g, targets, [m]);
    }
  }

  lemma ReachesStep(g: Graph, targets: seq<Method>, m: Method, n: nat)
    ensures Reaches(g, targets, m, n + 1) <==> exists c :: Reaches(g, targets, c, n) && m in g.CallersOf(c)
  {
    if Reaches(g, targets, m, n + 1) {
      var chain :| Chain(g, targets, chain) && |chain| == n + 2 && chain[n + 1] == m;
      assert Chain(g, targets, chain[..n + 1]);
      assert Reaches(g, targets, chain[n], n);
    }
    if c :| Reaches(g, targets, c, n) && m in g.CallersOf(c) {
      var chain :| Chain(g, targets, chain) && |chain| == n + 1 && chain[n] == c;
      assert Chain(g, targets, chain + [m]);
    }
  }

  lemma DistanceUnique(g: Graph, targets: seq<Method>, m: Method, n: nat, k: nat)
    requires Distance(g, targets, m, n) && Distance(g, targets, m, k)
    ensures n == k
  {
  }

  // --------------------------------------------------------------------------
  // One symbol
  // --------------------------------------------------------------------------

  datatype Row = EntryPoint(symbol: Symbol, depth: nat, entry: Method) | Level(symbol: Symbol, depth: nat, size: nat)

  /** `level` lists, without repeats, exactly the methods at distance `n`. */
  ghost predicate IsLevel(g: Graph, targets: seq<Method>, level: seq<Method>, n: nat) {
    && (forall m :: m in level <==> Distance(g, targets, m, n))
    && forall i, j :: 0 <= i < j < |level| ==> level[i] != level[j]
  }

  /** `seen` holds exactly the methods at distance at most `n`. */
  ghost predicate IsSeen(g: Graph, targets: seq<Method>, seen: set<Method>, n: nat) {
    forall m :: m in seen <==> exists k: nat :: k <= n && Distance(g, targets, m, k)
  }

  /** The callers of the frontier that were not seen before, each once. */
  method NextLevel(g: Graph, frontier: seq<Method>, seen: set<Method>) returns (level: seq<Method>)
    ensures forall m :: m in level <==> m !in seen && exists i :: 0 <= i < |frontier| && m in g.CallersOf(frontier[i])
    ensures forall i, j :: 0 <= i < j < |level| ==> level[i] != level[j]
  {
    level := [];
    for i := 0 to |frontier|
      invariant forall m :: m in level <==> m !in seen && exists k :: 0 <= k < i && m in g.CallersOf(frontier[k])
      invariant forall a, b :: 0 <= a < b < |level| ==> level[a] != level[b]
    {
      level := AddNew(level, g.CallersOf(frontier[i]), seen);
    }
  }

  method AddNew(level: seq<Method>, callers: seq<Method>, seen: set<Method>) returns (r: seq<Method>)
    requires forall a, b :: 0 <= a < b < |level| ==> level[a] != level[b]
    ensures forall m :: m in r <==> m in level || (m in callers && m !in seen)
    ensures forall a, b :: 0 <= a < b < |r| ==> r[a] != r[b]
  {
    r := level;
    for j := 0 to |callers|
      invariant forall m :: m in r <==> m in level || (m in callers[..j] && m !in seen)
      invariant forall a, b :: 0 <= a < b < |r| ==> r[a] != r[b]
    {
      assert callers[..j + 1] == callers[..j] + [callers[j]];
      if callers[j] !in seen && callers[j] !in r {
        r := r + [callers[j]];
      }
    }
    assert callers[..|callers|] == callers;
  }

  lemma LevelStep(g: Graph, targets: seq<Method>, frontier: seq<Method>, seen: set<Method>, level: seq<Method>, n: nat)
    requires IsLevel(g, targets, frontier, n) && IsSeen(g, targets, seen, n)
    requires forall m :: m in level <==> m !in seen && exists i :: 0 <= i < |frontier| && m in g.CallersOf(frontier[i])
    requires forall i, j :: 0 <= i < j < |level| ==> level[i] != level[j]
    ensures IsLevel(g, targets, level, n + 1)
    ensures IsSeen(g, targets, seen + (set m | m in level), n + 1)
  {
    forall m ensures m in level <==> Distance(g, targets, m, n + 1) {
      ReachesStep(g, targets, m, n);
      if m in level {
        var i :| 0 <= i < |frontier| && m in g.CallersOf(frontier[i]);
        assert frontier[i] in frontier;
        NotSeenNotReached(g, targets, seen, n, m);
      }
      if Distance(g, targets, m, n + 1) {
        var c :| Reaches(g, targets, c, n) && m in g.CallersOf(c);
        CallerIsFrontier(g, targets, c, m, n);
        assert c in frontier;
        var i :| 0 <= i < |frontier| && frontier[i] == c;
        assert m !in seen by { FartherNotSeen(g, targets, seen, n, m); }
      }
    }
    forall m {:trigger m in level} ensures m in seen || m in level <==> exists k: nat :: k <= n + 1 && Distance(g, targets, m, k) {
      if m in seen {
        var k: nat :| k <= n && Distance(g, targets, m, k);
      }
    }
  }

  lemma FartherNotSeen(g: Graph, targets: seq<Method>, seen: set<Method>, n: nat, m: Method)
    requires IsSeen(g, targets, seen, n) && Distance(g, targets, m, n + 1)
    ensures m !in seen
  {
  }

  lemma NotSeenNotReached(g: Graph, targets: seq<Method>, seen: set<Method>, n: nat, m: Method)
    requires IsSeen(g, targets, seen, n) && m !in seen
    ensures forall k: nat | k <= n :: !Reaches(g, targets, m, k)
  {
    forall k: nat | k <= n ensures !Reaches(g, targets, m, k) {
      if Reaches(g, targets, m, k) {
        var d := ShortestWithin(g, targets, m, k);
        assert false;
      }
    }
  }

  lemma {:induction false} ShortestWithin(g: Graph, targets: seq<Method>, m: Method, k: nat) returns (d: nat)
    requires Reaches(g, targets, m, k)
    ensures d <= k && Distance(g, targets, m, d)
  {
    if j: nat :| j < k && Reaches(g, targets, m, j) {
      d := ShortestWithin(g, targets, m, j);
    } else {
      d := k;
    }
  }

  /** On a shortest chain the previous method is itself at the previous distance. */
  lemma CallerIsFrontier(g: Graph, targets: seq<Method>, c: Method, m: Method, n: nat)
    requires Distance(g, targets, m, n + 1) && Reaches(g, targets, c, n) && m in g.CallersOf(c)
    ensures Distance(g, targets, c, n)
  {
    forall k: nat | k < n ensures !Reaches(g, targets, c, k) {
      if Reaches(g, targets, c, k) {
        ReachesStep(g, targets, m, k);
      }
    }
  }

  /** `m` is a public method at distance 1 to `n`, namely `d`. */
  ghost predicate IsEntry(g: Graph, targets: seq<Method>, n: int, m: Method, d: nat) {
    1 <= d <= n && m in g.open && Distance(g, targets, m, d)
  }

  ghost predicate LevelHas(g: Graph, targets: seq<Method>, d: nat, size: nat) {
    exists level :: IsLevel(g, targets, level, d) && |level| == size
  }

  /** Level `d` is searched up to depth `n`: the level before it is not empty. */
  ghost predicate Searched(g: Graph, targets: seq<Method>, n: int, d: nat) {
    1 <= d <= n && Occupied(g, targets, d - 1)
  }

  ghost predicate Occupied(g: Graph, targets: seq<Method>, d: nat) {
    exists m :: Distance(g, targets, m, d)
  }

  /** The rows of one symbol: each entry up to depth `n` once, with its distance, and the size of every level searched. */
  ghost predicate RowsUpTo(g: Graph, targets: seq<Method>, symbol: Symbol, rows: seq<Row>, n: int) {
    && (forall r | r in rows :: r.symbol == symbol && 1 <= r.depth <= n)
    && (forall d: nat, size: nat :: Level(symbol, d, size) in rows <==> Searched(g, targets, n, d) && LevelHas(g, targets, d, size))
    && (forall m, d: nat :: EntryPoint(symbol, d, m) in rows <==> IsEntry(g, targets, n, m, d))
    && forall i, j | 0 <= i < j < |rows| :: rows[i] != rows[j]
  }

  lemma {:induction false} SameSize(a: seq<Method>, b: seq<Method>)
    requires forall m :: m in a <==> m in b
    requires (forall i, j :: 0 <= i < j < |a| ==> a[i] != a[j]) && (forall i, j :: 0 <= i < j < |b| ==> b[i] != b[j])
    ensures |a| == |b|
    decreases |a|
  {
    assert b != [] ==> b[0] in b;
    if a != [] {
      assert a[0] in a && a[0] in b;
      var k :| 0 <= k < |b| && b[k] == a[0];
      var c := b[..k] + b[k + 1..];
      forall m ensures m in a[1..] <==> m in c {
        assert m in a <==> m == a[0] || m in a[1..];
        assert m in b <==> m == b[k] || m in c;
      }
      SameSize(a[1..], c);
    }
  }

  lemma LevelSize(g: Graph, targets: seq<Method>, d: nat, level: seq<Method>)
    requires IsLevel(g, targets, level, d)
    ensures forall size: nat :: LevelHas(g, targets, d, size) <==> size == |level|
  {
    forall size: nat ensures LevelHas(g, targets, d, size) <==> size == |level| {
      if LevelHas(g, targets, d, size) {
        var other :| IsLevel(g, targets, other, d) && |other| == size;
        SameSize(level, other);
      }
    }
  }

  lemma RowsStep(g: Graph, targets: seq<Method>, symbol: Symbol, rows: seq<Row>, level: seq<Method>, printed: seq<Row>, n: nat)
    requires RowsUpTo(g, targets, symbol, rows, n) && IsLevel(g, targets, level, n + 1) && Printed(g, symbol, level, n + 1, printed)
    requires Searched(g, targets, n + 1, n + 1)
    ensures RowsUpTo(g, targets, symbol, rows + printed, n + 1)
  {
    LevelSize(g, targets, n + 1, level);
    forall i, j | 0 <= i < j < |rows + printed| ensures (rows + printed)[i] != (rows + printed)[j] {
      if i < |rows| <= j {
        assert rows[i] in rows && printed[j - |rows|] in printed;
      }
    }
  }

  ghost predicate Printed(g: Graph, symbol: Symbol, level: seq<Method>, depth: nat, rows: seq<Row>) {
    && (forall r :: r in rows <==> r == Level(symbol, depth, |level|) || (r.EntryPoint? && r.symbol == symbol && r.depth == depth && r.entry in level && r.entry in g.open))
    && forall i, j | 0 <= i < j < |rows| :: rows[i] != rows[j]
  }

  method PrintLevel(g: Graph, symbol: Symbol, level: seq<Method>, depth: nat) returns (rows: seq<Row>)
    requires forall i, j :: 0 <= i < j < |level| ==> level[i] != level[j]
    ensures Printed(g, symbol, level, depth, rows)
  {
    rows := [];
    for i := 0 to |level|
      invariant forall r :: r in rows <==> r.EntryPoint? && r.symbol == symbol && r.depth == depth && r.entry in level[..i] && r.entry in g.open
      invariant forall a, b | 0 <= a < b < |rows| :: rows[a] != rows[b]
    {
      assert level[..i + 1] == level[..i] + [level[i]];
      assert level[i] !in level[..i];
      if level[i] in g.open {
        rows := rows + [EntryPoint(symbol, depth, level[i])];
      }
    }
    assert level[..|level|] == level;
    rows := rows + [Level(symbol, depth, |level|)];
  }

  lemma ExpandStart(g: Graph, targets: seq<Method>, symbol: Symbol)
    requires forall i, j :: 0 <= i < j < |targets| ==> targets[i] != targets[j]
    ensures IsLevel(g, targets, targets, 0) && IsSeen(g, targets, set m | m in targets, 0) && RowsUpTo(g, targets, symbol, [], 0)
  {
    forall m {
      ReachesTarget(g, targets, m);
    }
  }

  lemma FrontierSearched(g: Graph, targets: seq<Method>, frontier: seq<Method>, n: nat)
    requires IsLevel(g, targets, frontier, n) && frontier != []
    ensures Searched(g, targets, n + 1, n + 1)
  {
    assert frontier[0] in frontier;
  }

  lemma ExpandEnd(g: Graph, targets: seq<Method>, symbol: Symbol, rows: seq<Row>, frontier: seq<Method>, depth: nat, maxDepth: int)
    requires RowsUpTo(g, targets, symbol, rows, depth) && IsLevel(g, targets, frontier, depth)
    requires (depth == 0 || depth <= maxDepth) && (frontier == [] || depth >= maxDepth)
    ensures RowsUpTo(g, targets, symbol, rows, maxDepth)
  {
    if frontier == [] {
      NothingBeyond(g, targets, depth);
    }
  }

  /** The expansion of one symbol: exact breadth-first search up to `maxDepth`, on any call graph. */
  method Expand(g: Graph, symbol: Symbol, targets: seq<Method>, maxDepth: int) returns (rows: seq<Row>)
    requires forall i, j :: 0 <= i < j < |targets| ==> targets[i] != targets[j]
    ensures RowsUpTo(g, targets, symbol, rows, maxDepth)
  {
    hide IsSeen, RowsUpTo, Printed, Searched, Distance;
    rows := [];
    var frontier := targets;
    var seen := set m | m in targets;
    var depth: nat := 0;
    ExpandStart(g, targets, symbol);
    while frontier != [] && depth < maxDepth
      invariant depth == 0 || depth <= maxDepth
      invariant IsLevel(g, targets, frontier, depth) && IsSeen(g, targets, seen, depth)
      invariant RowsUpTo(g, targets, symbol, rows, depth)
      decreases maxDepth - depth
    {
      var callers := NextLevel(g, frontier, seen);
      LevelStep(g, targets, frontier, seen, callers, depth);
      FrontierSearched(g, targets, frontier, depth);
      var printed := PrintLevel(g, symbol, callers, depth + 1);
      RowsStep(g, targets, symbol, rows, callers, printed, depth);
      depth := depth + 1;
      seen := seen + set m | m in callers;
      rows := rows + printed;
      frontier := callers;
    }
    ExpandEnd(g, targets, symbol, rows, frontier, depth, maxDepth);
  }

  /** A larger depth only adds entries. */
  lemma DeeperExtends(g: Graph, targets: seq<Method>, symbol: Symbol, near: seq<Row>, far: seq<Row>, n: int, k: int)
    requires RowsUpTo(g, targets, symbol, near, n) && RowsUpTo(g, targets, symbol, far, k) && n <= k
    ensures forall m, d: nat :: EntryPoint(symbol, d, m) in near <==> EntryPoint(symbol, d, m) in far && d <= n
  {
  }

  /** An empty level ends the search: no method is farther away. */
  lemma NothingBeyond(g: Graph, targets: seq<Method>, n: nat)
    requires IsLevel(g, targets, [], n)
    ensures forall m, d: nat | d >= n :: !Distance(g, targets, m, d)
  {
    forall m, d: nat | d >= n ensures !Distance(g, targets, m, d) {
      NoneAt(g, targets, n, m, d);
    }
  }

  lemma {:induction false} NoneAt(g: Graph, targets: seq<Method>, n: nat, m: Method, d: nat)
    requires IsLevel(g, targets, [], n) && d >= n
    ensures !Distance(g, targets, m, d)
    decreases d
  {
    if d > n && Distance(g, targets, m, d) {
      ReachesStep(g, targets, m, d - 1);
      var c :| Reaches(g, targets, c, d - 1) && m in g.CallersOf(c);
      CallerIsFrontier(g, targets, c, m, d - 1);
      NoneAt(g, targets, n, c, d - 1);
    } else if d == n {
      assert m !in [];
    }
  }

  // --------------------------------------------------------------------------
  // Several symbols
  // --------------------------------------------------------------------------

  datatype Entry = Entry(entry: Method, depth: nat, fromSymbol: Symbol)

  /** The rows of all symbols in order; `owner` says which symbol printed each row. */
  ghost predicate RowsOfAll(g: Graph, symbols: seq<Symbol>, targetsOf: Symbol -> seq<Method>, maxDepth: int, rows: seq<Row>, owner: seq<nat>) {
    && |owner| == |rows|
    && (forall i, j | 0 <= i < j < |owner| :: owner[i] <= owner[j])
    && (forall i | 0 <= i < |rows| :: owner[i] < |symbols| && rows[i].symbol == symbols[owner[i]])
    && (forall i | 0 <= i < |rows| && rows[i].EntryPoint? ::
          IsEntry(g, targetsOf(symbols[owner[i]]), maxDepth, rows[i].entry, rows[i].depth))
    && forall s, m, d: nat | 0 <= s < |symbols| && IsEntry(g, targetsOf(symbols[s]), maxDepth, m, d) ::
          PrintedBy(rows, owner, s, EntryPoint(symbols[s], d, m))
  }

  ghost predicate PrintedBy(rows: seq<Row>, owner: seq<nat>, s: nat, r: Row)
    requires |owner| == |rows|
  {
    exists i :: 0 <= i < |rows| && owner[i] == s && rows[i] == r
  }

  method ExpandAll(g: Graph, symbols: seq<Symbol>, targetsOf: Symbol -> seq<Method>, maxDepth: int)
    returns (rows: seq<Row>, ghost owner: seq<nat>)
    requires forall s, i, j | s in symbols && 0 <= i < j < |targetsOf(s)| :: targetsOf(s)[i] != targetsOf(s)[j]
    ensures RowsOfAll(g, symbols, targetsOf, maxDepth, rows, owner)
  {
    rows, owner := [], [];
    for k := 0 to |symbols|
      invariant RowsOfAll(g, symbols[..k], targetsOf, maxDepth, rows, owner)
    {
      var more := Expand(g, symbols[k], targetsOf(symbols[k]), maxDepth);
      AppendRows(g, symbols, targetsOf, maxDepth, rows, owner, k, more);
      rows := rows + more;
      owner := owner + seq(|more|, i => k);
    }
    assert symbols[..|symbols|] == symbols;
  }

  lemma AppendRows(g: Graph, symbols: seq<Symbol>, targetsOf: Symbol -> seq<Method>, maxDepth: int,
                   rows: seq<Row>, owner: seq<nat>, k: nat, more: seq<Row>)
    requires k < |symbols| && RowsOfAll(g, symbols[..k], targetsOf, maxDepth, rows, owner)
    requires RowsUpTo(g, targetsOf(symbols[k]), symbols[k], more, maxDepth)
    ensures RowsOfAll(g, symbols[..k + 1], targetsOf, maxDepth, rows + more, owner + seq(|more|, i => k))
  {
    AppendedRowsAreEntries(g, symbols, targetsOf, maxDepth, rows, owner, k, more);
    AppendedEntriesPrinted(g, symbols, targetsOf, maxDepth, rows, owner, k, more);
    hide IsEntry, PrintedBy;
    assert forall i | 0 <= i < |more| :: more[i] in more;
  }

  lemma AppendedRowsAreEntries(g: Graph, symbols: seq<Symbol>, targetsOf: Symbol -> seq<Method>, maxDepth: int,
                               rows: seq<Row>, owner: seq<nat>, k: nat, more: seq<Row>)
    requires k < |symbols| && RowsOfAll(g, symbols[..k], targetsOf, maxDepth, rows, owner)
    requires RowsUpTo(g, targetsOf(symbols[k]), symbols[k], more, maxDepth)
    ensures var all, who := rows + more, owner + seq(|more|, i => k);
      forall i | 0 <= i < |all| && all[i].EntryPoint? :: IsEntry(g, targetsOf(symbols[who[i]]), maxDepth, all[i].entry, all[i].depth)
  {
    hide IsEntry;
    var all := rows + more;
    forall i | |rows| <= i < |all| && all[i].EntryPoint? ensures IsEntry(g, targetsOf(symbols[k]), maxDepth, all[i].entry, all[i].depth) {
      var r := more[i - |rows|];
      assert r in more && r == EntryPoint(symbols[k], r.depth, r.entry);
    }
  }

  lemma AppendedEntriesPrinted(g: Graph, symbols: seq<Symbol>, targetsOf: Symbol -> seq<Method>, maxDepth: int,
                               rows: seq<Row>, owner: seq<nat>, k: nat, more: seq<Row>)
    requires k < |symbols| && RowsOfAll(g, symbols[..k], targetsOf, maxDepth, rows, owner)
    requires RowsUpTo(g, targetsOf(symbols[k]), symbols[k], more, maxDepth)
    ensures var all, who := rows + more, owner + seq(|more|, i => k);
      forall s, m, d: nat | 0 <= s <= k && IsEntry(g, targetsOf(symbols[s]), maxDepth, m, d) :: PrintedBy(all, who, s, EntryPoint(symbols[s], d, m))
  {
    hide IsEntry;
    var all, who, upTo := rows + more, owner + seq(|more|, i => k), symbols[..k + 1];
    forall s, m, d: nat | 0 <= s <= k && IsEntry(g, targetsOf(upTo[s]), maxDepth, m, d)
      ensures PrintedBy(all, who, s, EntryPoint(upTo[s], d, m))
    {
      if s < k {
        assert symbols[..k][s] == upTo[s];
        assert PrintedBy(rows, owner, s, EntryPoint(upTo[s], d, m));
        var i :| 0 <= i < |rows| && owner[i] == s && rows[i] == EntryPoint(upTo[s], d, m);
        assert all[i] == rows[i] && who[i] == s;
      } else {
        var i :| 0 <= i < |more| && more[i] == EntryPoint(upTo[s], d, m);
        assert all[|rows| + i] == more[i] && who[|rows| + i] == k;
      }
    }
  }

  /** `e` comes from the first row that names its method. */
  ghost predicate FromFirstRow(rows: seq<Row>, e: Entry) {
    exists i :: 0 <= i < |rows| && rows[i] == EntryPoint(e.fromSymbol, e.depth, e.entry)
      && forall j | 0 <= j < i && rows[j].EntryPoint? :: rows[j].entry != e.entry
  }

  /** Keeps the first row of every entry point. */
  method MergeRows(rows: seq<Row>) returns (entries: seq<Entry>)
    ensures forall e | e in entries :: FromFirstRow(rows, e)
    ensures forall r | r in rows && r.EntryPoint? :: exists e :: e in entries && e.entry == r.entry
    ensures forall i, j | 0 <= i < j < |entries| :: entries[i].entry != entries[j].entry
  {
    entries := [];
    var seen: set<Method> := {};
    for i := 0 to |rows|
      invariant forall e | e in entries :: FromFirstRow(rows, e) && e.entry in seen
      invariant forall m :: m in seen <==> exists j :: 0 <= j < i && rows[j].EntryPoint? && rows[j].entry == m
      invariant forall m | m in seen :: exists e :: e in entries && e.entry == m
      invariant forall a, b | 0 <= a < b < |entries| :: entries[a].entry != entries[b].entry
    {
      var r := rows[i];
      if r.EntryPoint? && r.entry !in seen {
        assert FromFirstRow(rows, Entry(r.entry, r.depth, r.symbol));
        ghost var was := entries;
        seen := seen + {r.entry};
        entries := entries + [Entry(r.entry, r.depth, r.symbol)];
        assert forall e | e in was :: e in entries;
        assert entries[|was|] in entries;
      }
    }
    forall r | r in rows && r.EntryPoint? ensures r.entry in seen {
      var j :| 0 <= j < |rows| && rows[j] == r;
    }
  }

  /** `e` is credited to the first symbol of the list that reaches it, with the distance from that symbol. */
  ghost predicate Credited(g: Graph, symbols: seq<Symbol>, targetsOf: Symbol -> seq<Method>, maxDepth: int, e: Entry) {
    exists s :: 0 <= s < |symbols| && e.fromSymbol == symbols[s]
      && IsEntry(g, targetsOf(symbols[s]), maxDepth, e.entry, e.depth)
      && forall t, d: nat | 0 <= t < s :: !IsEntry(g, targetsOf(symbols[t]), maxDepth, e.entry, d)
  }

  lemma FirstRowIsCredited(g: Graph, symbols: seq<Symbol>, targetsOf: Symbol -> seq<Method>, maxDepth: int,
                           rows: seq<Row>, owner: seq<nat>, e: Entry)
    requires RowsOfAll(g, symbols, targetsOf, maxDepth, rows, owner) && FromFirstRow(rows, e)
    ensures Credited(g, symbols, targetsOf, maxDepth, e)
  {
    var i :| 0 <= i < |rows| && rows[i] == EntryPoint(e.fromSymbol, e.depth, e.entry)
      && forall j | 0 <= j < i && rows[j].EntryPoint? :: rows[j].entry != e.entry;
    var s := owner[i];
    forall t, d: nat | 0 <= t < s ensures !IsEntry(g, targetsOf(symbols[t]), maxDepth, e.entry, d) {
    }
  }

  /** The query: one entry per public method that some symbol reaches within the depth. */
  method QueryEntryPoints(g: Graph, symbols: seq<Symbol>, targetsOf: Symbol -> seq<Method>, maxDepth: int) returns (entries: seq<Entry>)
    requires forall s, i, j | s in symbols && 0 <= i < j < |targetsOf(s)| :: targetsOf(s)[i] != targetsOf(s)[j]
    ensures forall e | e in entries :: Credited(g, symbols, targetsOf, maxDepth, e)
    ensures forall s, m, d: nat | 0 <= s < |symbols| && IsEntry(g, targetsOf(symbols[s]), maxDepth, m, d) :: exists e :: e in entries && e.entry == m
    ensures forall i, j | 0 <= i < j < |entries| :: entries[i].entry != entries[j].entry
  {
    var rows, owner := ExpandAll(g, symbols, targetsOf, maxDepth);
    entries := MergeRows(rows);
    forall e | e in entries ensures Credited(g, symbols, targetsOf, maxDepth, e) {
      FirstRowIsCredited(g, symbols, targetsOf, maxDepth, rows, owner, e);
    }
    forall s, m, d: nat | 0 <= s < |symbols| && IsEntry(g, targetsOf(symbols[s]), maxDepth, m, d)
      ensures exists e :: e in entries && e.entry == m
    {
      assert PrintedBy(rows, owner, s, EntryPoint(symbols[s], d, m));
      assert EntryPoint(symbols[s], d, m) in rows;
    }
  }

  // --------------------------------------------------------------------------
  // When the first symbol is also the nearest
  // --------------------------------------------------------------------------

  /** In this graph every credited depth is the least over all symbols. */
  ghost predicate LeastDepths(g: Graph, symbols: seq<Symbol>, targetsOf: Symbol -> seq<Method>, maxDepth: int) {
    forall e, t, d: nat | Credited(g, symbols, targetsOf, maxDepth, e) && 0 <= t < |symbols| && IsEntry(g, targetsOf(symbols[t]), maxDepth, e.entry, d) ::
      e.depth <= d
  }

  /**
   * The targets leave room for a later symbol to be nearer to `m` than the first one: `a` belongs to
   * symbol `s`, `b` only to the later symbol `t`, `m` to neither, and every symbol before `s` that has
   * `a` or `b` among its targets has `m` among them too.
   */
  predicate Overtakes(symbols: seq<Symbol>, targetsOf: Symbol -> seq<Method>, s: nat, t: nat, a: Method, b: Method, m: Method) {
    && s < t < |symbols|
    && a in targetsOf(symbols[s]) && b in targetsOf(symbols[t]) && b !in targetsOf(symbols[s])
    && m !in targetsOf(symbols[s]) && m !in targetsOf(symbols[t])
    && forall u | 0 <= u < s && (a in targetsOf(symbols[u]) || b in targetsOf(symbols[u])) :: m in targetsOf(symbols[u])
  }

  /** The merged depths are the least ones in every call graph, exactly when the search is one level deep or no later symbol can overtake. */
  lemma LeastDepthsExactly(symbols: seq<Symbol>, targetsOf: Symbol -> seq<Method>, maxDepth: int)
    ensures (forall g :: LeastDepths(g, symbols, targetsOf, maxDepth)) <==>
      maxDepth <= 1 || !exists s, t, a, b, m :: Overtakes(symbols, targetsOf, s, t, a, b, m)
  {
    if maxDepth > 1 {
      if s, t, a, b, m :| Overtakes(symbols, targetsOf, s, t, a, b, m) {
        var x := NewMethod(symbols, targetsOf, m);
        Overtaken(symbols, targetsOf, maxDepth, s, t, a, b, m, x);
        assert !LeastDepths(Shortcut(a, b, m, x), symbols, targetsOf, maxDepth);
      } else {
        forall g ensures LeastDepths(g, symbols, targetsOf, maxDepth) {
          NeverOvertaken(g, symbols, targetsOf, maxDepth);
        }
      }
    }
  }

  lemma NeverOvertaken(g: Graph, symbols: seq<Symbol>, targetsOf: Symbol -> seq<Method>, maxDepth: int)
    requires !exists s, t, a, b, m :: Overtakes(symbols, targetsOf, s, t, a, b, m)
    ensures LeastDepths(g, symbols, targetsOf, maxDepth)
  {
    forall e, t, d: nat | Credited(g, symbols, targetsOf, maxDepth, e) && 0 <= t < |symbols| && IsEntry(g, targetsOf(symbols[t]), maxDepth, e.entry, d)
      ensures e.depth <= d
    {
      var s :| 0 <= s < |symbols| && e.fromSymbol == symbols[s] && IsEntry(g, targetsOf(symbols[s]), maxDepth, e.entry, e.depth)
        && forall u, k: nat | 0 <= u < s :: !IsEntry(g, targetsOf(symbols[u]), maxDepth, e.entry, k);
      if s == t {
        DistanceUnique(g, targetsOf(symbols[s]), e.entry, d, e.depth);
      } else if d < e.depth {
        var a, b := NearerOvertakes(g, symbols, targetsOf, maxDepth, s, t, e.entry, e.depth, d);
      }
    }
  }

  /** If a later symbol is nearer in some graph, its targets leave room for it. */
  lemma NearerOvertakes(g: Graph, symbols: seq<Symbol>, targetsOf: Symbol -> seq<Method>, maxDepth: int, s: nat, t: nat, m: Method, far: nat, near: nat)
    returns (a: Method, b: Method)
    requires s < |symbols| && t < |symbols| && s != t && near < far
    requires IsEntry(g, targetsOf(symbols[s]), maxDepth, m, far) && IsEntry(g, targetsOf(symbols[t]), maxDepth, m, near)
    requires forall u, k: nat | 0 <= u < s :: !IsEntry(g, targetsOf(symbols[u]), maxDepth, m, k)
    ensures Overtakes(symbols, targetsOf, s, t, a, b, m)
  {
    a := StartOf(g, targetsOf(symbols[s]), m, far);
    b := StartOf(g, targetsOf(symbols[t]), m, near);
    NotTarget(g, targetsOf(symbols[s]), m, far);
    NotTarget(g, targetsOf(symbols[t]), m, near);
    forall u | 0 <= u < s && (a in targetsOf(symbols[u]) || b in targetsOf(symbols[u])) ensures m in targetsOf(symbols[u]) {
      var n := if a in targetsOf(symbols[u]) then far else near;
      assert Reaches(g, targetsOf(symbols[u]), m, n);
      var k := ShortestWithin(g, targetsOf(symbols[u]), m, n);
      assert !IsEntry(g, targetsOf(symbols[u]), maxDepth, m, k);
      ReachesTarget(g, targetsOf(symbols[u]), m);
    }
  }

  /** The target that a chain of `n` calls leads to; whoever has it among its targets is reached as well. */
  lemma StartOf(g: Graph, targets: seq<Method>, m: Method, n: nat) returns (a: Method)
    requires Reaches(g, targets, m, n)
    ensures a in targets && forall other | a in other :: Reaches(g, other, m, n)
  {
    var chain :| Chain(g, targets, chain) && |chain| == n + 1 && chain[n] == m;
    a := chain[0];
    forall other | a in other ensures Reaches(g, other, m, n) {
      assert Chain(g, other, chain);
    }
  }

  lemma NotTarget(g: Graph, targets: seq<Method>, m: Method, d: nat)
    requires Distance(g, targets, m, d) && d > 0
    ensures m !in targets
  {
    ReachesTarget(g, targets, m);
  }

  /** `m` calls `b`, and calls `a` through `x`. */
  function Shortcut(a: Method, b: Method, m: Method, x: Method): Graph {
    Graph(map[a := [x], x := [m], b := [m]], {m})
  }

  lemma Overtaken(symbols: seq<Symbol>, targetsOf: Symbol -> seq<Method>, maxDepth: int, s: nat, t: nat, a: Method, b: Method, m: Method, x: Method)
    requires Overtakes(symbols, targetsOf, s, t, a, b, m) && maxDepth > 1
    requires x != m && forall u | 0 <= u < |symbols| :: x !in targetsOf(symbols[u])
    ensures Credited(Shortcut(a, b, m, x), symbols, targetsOf, maxDepth, Entry(m, 2, symbols[s]))
    ensures IsEntry(Shortcut(a, b, m, x), targetsOf(symbols[t]), maxDepth, m, 1)
  {
    var g := Shortcut(a, b, m, x);
    ShortcutDistances(g, targetsOf(symbols[s]), a, b, m, x);
    ShortcutDistances(g, targetsOf(symbols[t]), a, b, m, x);
    forall u, k: nat | 0 <= u < s ensures !IsEntry(g, targetsOf(symbols[u]), maxDepth, m, k) {
      ShortcutDistances(g, targetsOf(symbols[u]), a, b, m, x);
      if k > 0 && a !in targetsOf(symbols[u]) && b !in targetsOf(symbols[u]) {
        ShortcutUnreached(g, targetsOf(symbols[u]), a, b, m, x, k);
      }
    }
    assert IsEntry(g, targetsOf(symbols[s]), maxDepth, m, 2);
  }

  lemma ShortcutDistances(g: Graph, targets: seq<Method>, a: Method, b: Method, m: Method, x: Method)
    requires g == Shortcut(a, b, m, x) && a != b && m != a && m != b && x != a && x != b && x != m && x !in targets
    ensures m in targets ==> forall k: nat | k > 0 :: !Distance(g, targets, m, k)
    ensures m !in targets && b in targets ==> Distance(g, targets, m, 1)
    ensures m !in targets && b !in targets && a in targets ==> Distance(g, targets, m, 2)
  {
    ReachesTarget(g, targets, m);
    ReachesStep(g, targets, m, 0);
    ReachesTarget(g, targets, x);
    ReachesTarget(g, targets, b);
    assert Reaches(g, targets, m, 1) <==> b in targets by {
      assert m in g.CallersOf(b);
      forall c | m in g.CallersOf(c) ensures c == x || c == b {
      }
    }
    if a in targets {
      assert Chain(g, targets, [a, x, m]);
      assert Reaches(g, targets, m, 2);
    }
  }

  lemma {:induction false} ShortcutUnreached(g: Graph, targets: seq<Method>, a: Method, b: Method, m: Method, x: Method, k: nat)
    requires g == Shortcut(a, b, m, x) && a != b && m != a && m != b && x != a && x != b && x != m
    requires x !in targets && a !in targets && b !in targets && k > 0
    ensures !Reaches(g, targets, m, k)
  {
    ReachesStep(g, targets, m, k - 1);
    forall c | m in g.CallersOf(c) ensures !Reaches(g, targets, c, k - 1) {
      if k == 1 {
        ReachesTarget(g, targets, c);
      } else {
        ReachesStep(g, targets, c, k - 2);
        forall o | c in g.CallersOf(o) ensures !Reaches(g, targets, o, k - 2) {
          if k == 2 {
            ReachesTarget(g, targets, o);
          } else {
            ReachesStep(g, targets, o, k - 3);
            assert forall p :: o !in g.CallersOf(p);
          }
        }
      }
    }
  }

  /** A method that no symbol targets. */
  lemma NewMethod(symbols: seq<Symbol>, targetsOf: Symbol -> seq<Method>, m: Method) returns (x: Method)
    ensures x != m && forall u | 0 <= u < |symbols| :: x !in targetsOf(symbols[u])
  {
    var n := |m|;
    for u := 0 to |symbols|
      invariant n >= |m| && forall v, k | 0 <= v < u && 0 <= k < |targetsOf(symbols[v])| :: |targetsOf(symbols[v])[k]| <= n
    {
      for k := 0 to |targetsOf(symbols[u])|
        invariant n >= |m| && forall v, j | 0 <= v < u && 0 <= j < |targetsOf(symbols[v])| :: |targetsOf(symbols[v])[j]| <= n
        invariant forall j | 0 <= j < k :: |targetsOf(symbols[u])[j]| <= n
      {
        n := if |targetsOf(symbols[u])[k]| > n then |targetsOf(symbols[u])[k]| else n;
      }
    }
    x := seq(n + 1, i => 'x');
  }

  /** The query on a graph where the second symbol is nearer: the entry keeps the depth from the first. */
  method FirstSymbolWinsOverNearer() returns (entries: seq<Entry>)
    ensures Entry("m", 2, "one") in entries
  {
    var targetsOf := (s: Symbol) => if s == "one" then ["a"] else ["b"];
    var g := Shortcut("a", "b", "m", "x");
    ghost var symbols := ["one", "two"];
    entries := QueryEntryPoints(g, ["one", "two"], targetsOf, 3);
    ShortcutDistances(g, targetsOf("one"), "a", "b", "m", "x");
    assert IsEntry(g, targetsOf(symbols[0]), 3, "m", 2);
    var e :| e in entries && e.entry == "m";
    assert Credited(g, symbols, targetsOf, 3, e);
    FirstReaches(g, symbols, targetsOf, 3, e, 2);
  }

  /** An entry that the first symbol reaches is credited to it. */
  lemma FirstReaches(g: Graph, symbols: seq<Symbol>, targetsOf: Symbol -> seq<Method>, maxDepth: int, e: Entry, d: nat)
    requires symbols != [] && Credited(g, symbols, targetsOf, maxDepth, e) && IsEntry(g, targetsOf(symbols[0]), maxDepth, e.entry, d)
    ensures e.fromSymbol == symbols[0] && e.depth == d
  {
    DistanceUnique(g, targetsOf(symbols[0]), e.entry, d, d);
  }
}

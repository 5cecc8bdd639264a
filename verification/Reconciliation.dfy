/** What the migration target must hold after the import, and the check that it holds exactly that. */
module Reconciliation {
  import opened RowKeys
  import P = PythonRepr

  type Digest = string
  type BindingId = string
  type TableName = string
  type Print = nat

  /** Artifact name and declared context of a binding. */
  datatype Record = Record(digest: Digest, artifact: string, context: string)

  /** A projection row of a table: its binding id column and its whole value. */
  datatype Row = Row(binding: BindingId, value: Value)

  /** The tables of the target that carry a binding id, next to evidence and bindings. */
  datatype Database = Database(evidence: seq<(Digest, nat)>, bindings: seq<(BindingId, Record)>, tables: map<TableName, seq<Row>>)

  /** The fingerprint of a row value. */
  type Hash = Value -> Print

  /** The fingerprint hashes the printed row key. */
  function HashOfKey(digest: string -> Print, style: P.Style): Hash {
    v => digest(Printed(RowKey(v), style))
  }

  ghost predicate Injective(digest: string -> Print) {
    forall x, y :: digest(x) == digest(y) ==> x == y
  }

  function PrintOf(hash: Hash, r: Row): (BindingId, Print) {
    (r.binding, hash(r.value))
  }

  function Prints(hash: Hash, rows: seq<Row>): (m: multiset<(BindingId, Print)>)
    ensures |m| == |rows|
  {
    if rows == [] then multiset{} else Prints(hash, rows[..|rows| - 1]) + multiset{PrintOf(hash, rows[|rows| - 1])}
  }

  /** `dict(rows)`: a later pair replaces an earlier one with the same key. */
  function Dict<K, V>(pairs: seq<(K, V)>): (m: map<K, V>)
    ensures |m| <= |pairs|
  {
    if pairs == [] then map[]
    else
      var rest := Dict(pairs[..|pairs| - 1]);
      var last := pairs[|pairs| - 1];
      assert rest[last.0 := last.1].Keys == rest.Keys + {last.0};
      rest[last.0 := last.1]
  }

  /** Pair `i` is the last one with key `k`. */
  predicate LastOf<K(==), V>(pairs: seq<(K, V)>, i: int, k: K) {
    0 <= i < |pairs| && pairs[i].0 == k && forall j | i < j < |pairs| :: pairs[j].0 != k
  }

  lemma {:induction false} DictExactly<K, V>(pairs: seq<(K, V)>, k: K, v: V)
    ensures k in Dict(pairs) && Dict(pairs)[k] == v <==> exists i :: LastOf(pairs, i, k) && pairs[i].1 == v
  {
    if pairs != [] {
      var n := |pairs| - 1;
      DictExactly(pairs[..n], k, v);
      if pairs[n].0 == k {
        assert LastOf(pairs, n, k);
      } else {
        assert forall i :: LastOf(pairs, i, k) <==> LastOf(pairs[..n], i, k);
      }
    }
  }

  ghost function Items<K, V>(m: map<K, V>): multiset<(K, V)> {
    multiset(Pairs(m, m.Keys))
  }

  ghost function Pairs<K, V>(m: map<K, V>, keys: set<K>): set<(K, V)>
    requires keys <= m.Keys
  {
    set k | k in keys :: (k, m[k])
  }

  lemma MultisetInsert<T>(s: set<T>, x: T)
    requires x !in s
    ensures multiset(s + {x}) == multiset(s) + multiset{x}
  {
  }

  lemma ItemsInsert<K, V>(m: map<K, V>, k: K, v: V)
    requires k !in m
    ensures Items(m[k := v]) == Items(m) + multiset{(k, v)} && |m[k := v]| == |m| + 1
  {
    var n := m[k := v];
    assert n.Keys == m.Keys + {k};
    assert (k, v) !in Pairs(m, m.Keys);
    assert Pairs(n, n.Keys) == Pairs(m, m.Keys) + {(k, v)};
    MultisetInsert(Pairs(m, m.Keys), (k, v));
  }

  lemma {:induction false} DictMember<K, V>(pairs: seq<(K, V)>)
    ensures forall k | k in Dict(pairs) :: (k, Dict(pairs)[k]) in pairs
    ensures forall p | p in pairs :: p.0 in Dict(pairs)
  {
    if pairs != [] {
      var n := |pairs| - 1;
      DictMember(pairs[..n]);
      assert pairs == pairs[..n] + [pairs[n]];
    }
  }

  /** As many pairs as keys: then the dictionary lost nothing. */
  lemma {:induction false} DictKeepsAll<K, V>(pairs: seq<(K, V)>)
    requires |Dict(pairs)| == |pairs|
    ensures multiset(pairs) == Items(Dict(pairs))
  {
    if pairs != [] {
      var n := |pairs| - 1;
      var rest := Dict(pairs[..n]);
      assert pairs == pairs[..n] + [pairs[n]];
      assert pairs[n].0 in rest ==> Dict(pairs).Keys == rest.Keys;
      assert Dict(pairs).Keys == rest.Keys + {pairs[n].0};
      DictKeepsAll(pairs[..n]);
      ItemsInsert(rest, pairs[n].0, pairs[n].1);
    }
  }

  lemma ItemsSize<K, V>(m: map<K, V>)
    ensures |Items(m)| == |m|
  {
    PairsSize(m, m.Keys);
  }

  lemma {:induction false} PairsSize<K, V>(m: map<K, V>, keys: set<K>)
    requires keys <= m.Keys
    ensures |Pairs(m, keys)| == |keys|
  {
    if keys != {} {
      var x :| x in keys;
      PairsSize(m, keys - {x});
      assert Pairs(m, keys) == Pairs(m, keys - {x}) + {(x, m[x])};
    }
  }

  /** A row count and a dictionary comparison together decide equality with multiplicity. */
  lemma CountAndDictDecide<K, V>(pairs: seq<(K, V)>, m: map<K, V>)
    ensures |pairs| == |m| && Dict(pairs) == m <==> multiset(pairs) == Items(m)
  {
    if |pairs| == |m| && Dict(pairs) == m {
      DictKeepsAll(pairs);
    }
    if multiset(pairs) == Items(m) {
      ItemsSize(m);
      assert |multiset(pairs)| == |pairs|;
      DictMember(pairs);
      forall p ensures p in pairs <==> p.0 in m && m[p.0] == p.1 {
        assert p in pairs <==> p in multiset(pairs);
        assert p in Pairs(m, m.Keys) <==> p.0 in m && m[p.0] == p.1;
      }
      assert forall k | k in m :: (k, m[k]) in pairs;
    }
  }

  // --------------------------------------------------------------------------
  // Expectations
  // --------------------------------------------------------------------------

  /** The recorded import. */
  datatype Expected = Expected(evidence: map<Digest, nat>, bindings: map<BindingId, Record>, rows: map<TableName, multiset<(BindingId, Print)>>)

  const NOTHING := Expected(map[], map[], map[])

  const EMPTY_TARGET := Database([], [], map[])

  function RowsOf(rows: map<TableName, multiset<(BindingId, Print)>>, t: TableName): multiset<(BindingId, Print)> {
    if t in rows then rows[t] else multiset{}
  }

  function StoredIn(db: Database, t: TableName): seq<Row> {
    TableIn(db.tables, t)
  }

  function TableIn(tables: map<TableName, seq<Row>>, t: TableName): seq<Row> {
    if t in tables then tables[t] else []
  }

  /** The target holds exactly what was recorded, with multiplicity. */
  ghost predicate HoldsExactly(hash: Hash, e: Expected, db: Database) {
    && multiset(db.evidence) == Items(e.evidence)
    && multiset(db.bindings) == Items(e.bindings)
    && forall t :: Prints(hash, StoredIn(db, t)) == RowsOf(e.rows, t)
  }

  /** The first pass: row counts of every table that exists or is expected. */
  predicate CountsAgree(e: Expected, db: Database) {
    && |db.evidence| == |e.evidence| && |db.bindings| == |e.bindings|
    && forall t | t in db.tables.Keys + e.rows.Keys :: |StoredIn(db, t)| == |RowsOf(e.rows, t)|
  }

  /** The second pass: evidence, bindings, and the rows of the tables something was recorded for. */
  predicate Verified(hash: Hash, e: Expected, db: Database) {
    && Dict(db.evidence) == e.evidence && Dict(db.bindings) == e.bindings
    && forall t | t in e.rows :: Prints(hash, StoredIn(db, t)) == e.rows[t]
  }

  /** The two passes accept exactly the targets that hold the recorded import, row for row. */
  lemma ReconcileExactly(hash: Hash, e: Expected, db: Database)
    ensures CountsAgree(e, db) && Verified(hash, e, db) <==> HoldsExactly(hash, e, db)
  {
    CountAndDictDecide(db.evidence, e.evidence);
    CountAndDictDecide(db.bindings, e.bindings);
    if CountsAgree(e, db) && Verified(hash, e, db) {
      forall t ensures Prints(hash, StoredIn(db, t)) == RowsOf(e.rows, t) {
        if t !in e.rows && t in db.tables {
          assert |StoredIn(db, t)| == 0;
        }
      }
    }
    if HoldsExactly(hash, e, db) {
      forall t | t in db.tables.Keys + e.rows.Keys ensures |StoredIn(db, t)| == |RowsOf(e.rows, t)| {
        assert Prints(hash, StoredIn(db, t)) == RowsOf(e.rows, t);
      }
      forall t | t in e.rows ensures Prints(hash, StoredIn(db, t)) == e.rows[t] {
        assert Prints(hash, StoredIn(db, t)) == RowsOf(e.rows, t);
      }
    }
  }

  // --------------------------------------------------------------------------
  // What a passed reconciliation rules out
  // --------------------------------------------------------------------------

  lemma PrintsSnoc(hash: Hash, rows: seq<Row>, r: Row)
    ensures Prints(hash, rows + [r]) == Prints(hash, rows) + multiset{PrintOf(hash, r)}
  {
    assert (rows + [r])[..|rows|] == rows;
  }

  lemma {:induction false} PrintsOfParts(hash: Hash, x: seq<Row>, y: seq<Row>)
    ensures Prints(hash, x + y) == Prints(hash, x) + Prints(hash, y)
  {
    if y == [] {
      assert x + y == x;
    } else {
      var n := |y| - 1;
      PrintsOfParts(hash, x, y[..n]);
      assert (x + y)[..|x + y| - 1] == x + y[..n] && (x + y)[|x + y| - 1] == y[n];
    }
  }

  /** Any change to one table that changes its multiset of prints is refused. */
  lemma OtherRowsRefused(hash: Hash, e: Expected, db: Database, t: TableName, rows: seq<Row>)
    requires HoldsExactly(hash, e, db)
    ensures HoldsExactly(hash, e, db.(tables := db.tables[t := rows])) <==> Prints(hash, rows) == Prints(hash, StoredIn(db, t))
  {
    hide Prints;
    var changed := db.(tables := db.tables[t := rows]);
    assert Prints(hash, StoredIn(db, t)) == RowsOf(e.rows, t);
    forall u | u != t ensures StoredIn(changed, u) == StoredIn(db, u) {
    }
    if Prints(hash, rows) == Prints(hash, StoredIn(db, t)) {
      forall u ensures Prints(hash, StoredIn(changed, u)) == RowsOf(e.rows, u) {
        assert Prints(hash, StoredIn(db, u)) == RowsOf(e.rows, u);
      }
    } else {
      assert Prints(hash, StoredIn(changed, t)) != RowsOf(e.rows, t);
    }
  }

  /** A lost, duplicated or unrecorded row is refused. */
  lemma LostOrExtraRowRefused(hash: Hash, e: Expected, db: Database, t: TableName, i: nat, extra: Row)
    requires HoldsExactly(hash, e, db) && i < |StoredIn(db, t)|
    ensures !HoldsExactly(hash, e, db.(tables := db.tables[t := StoredIn(db, t)[..i] + StoredIn(db, t)[i + 1..]]))
    ensures !HoldsExactly(hash, e, db.(tables := db.tables[t := StoredIn(db, t) + [extra]]))
  {
    var rows := StoredIn(db, t);
    OtherRowsRefused(hash, e, db, t, rows[..i] + rows[i + 1..]);
    OtherRowsRefused(hash, e, db, t, rows + [extra]);
    assert |Prints(hash, rows[..i] + rows[i + 1..])| < |Prints(hash, rows)| < |Prints(hash, rows + [extra])|;
  }

  lemma PrintsAround(hash: Hash, before: seq<Row>, x: Row, after: seq<Row>)
    ensures Prints(hash, before + ([x] + after)) == Prints(hash, before) + Prints(hash, after) + multiset{PrintOf(hash, x)}
  {
    PrintsOfParts(hash, before, [x] + after);
    PrintsOfParts(hash, [x], after);
    assert [x][..0] == [];
  }

  lemma PrintsAfterUpdate(hash: Hash, rows: seq<Row>, i: nat, r: Row)
    requires i < |rows|
    ensures Prints(hash, rows[i := r]) == Prints(hash, rows) <==> PrintOf(hash, r) == PrintOf(hash, rows[i])
  {
    var before, after := rows[..i], rows[i + 1..];
    assert rows == before + ([rows[i]] + after) && rows[i := r] == before + ([r] + after);
    PrintsAround(hash, before, rows[i], after);
    PrintsAround(hash, before, r, after);
    OneElementDiffers(Prints(hash, before) + Prints(hash, after), PrintOf(hash, rows[i]), PrintOf(hash, r));
  }

  /** An altered row is accepted exactly when it keeps its binding and its value, up to object key order. */
  lemma AlteredRowExactly(digest: string -> Print, style: P.Style, e: Expected, db: Database, t: TableName, i: nat, r: Row)
    requires Injective(digest) && style.Proper() && HoldsExactly(HashOfKey(digest, style), e, db) && i < |StoredIn(db, t)|
    requires WellFormed(StoredIn(db, t)[i].value) && WellFormed(r.value)
    ensures HoldsExactly(HashOfKey(digest, style), e, db.(tables := db.tables[t := StoredIn(db, t)[i := r]]))
      <==> r.binding == StoredIn(db, t)[i].binding && Alike(StoredIn(db, t)[i].value, r.value, SAME_DIGITS)
  {
    OtherRowsRefused(HashOfKey(digest, style), e, db, t, StoredIn(db, t)[i := r]);
    PrintsAfterUpdate(HashOfKey(digest, style), StoredIn(db, t), i, r);
    PrintedKeyIdentifies(StoredIn(db, t)[i].value, r.value, style);
  }

  lemma OneElementDiffers<T>(m: multiset<T>, x: T, y: T)
    ensures m + multiset{x} == m + multiset{y} <==> x == y
  {
    if m + multiset{x} == m + multiset{y} {
      assert (m + multiset{x})[x] == m[x] + 1;
    }
  }

  // --------------------------------------------------------------------------
  // The import itself
  // --------------------------------------------------------------------------

  /** What the store answers to one ingest; a repeat of a known binding projects nothing. */
  datatype Saved = Saved(binding: BindingId, record: Record, size: nat, rows: seq<(TableName, Value)>, alreadyBound: bool)

  function Count(m: map<TableName, multiset<(BindingId, Print)>>, t: TableName, p: (BindingId, Print)): (after: map<TableName, multiset<(BindingId, Print)>>)
    ensures after.Keys == m.Keys + {t}
  {
    m[t := RowsOf(m, t) + multiset{p}]
  }

  function CountRows(hash: Hash, m: map<TableName, multiset<(BindingId, Print)>>, binding: BindingId, rows: seq<(TableName, Value)>): map<TableName, multiset<(BindingId, Print)>> {
    if rows == [] then m
    else
      var last := rows[|rows| - 1];
      Count(CountRows(hash, m, binding, rows[..|rows| - 1]), last.0, PrintOf(hash, Row(binding, last.1)))
  }

  /** The expectation after one ingest. */
  function Recorded(hash: Hash, e: Expected, s: Saved): Expected {
    if s.alreadyBound then e
    else Expected(e.evidence[s.record.digest := s.size], e.bindings[s.binding := s.record], CountRows(hash, e.rows, s.binding, s.rows))
  }

  function StoreRows(tables: map<TableName, seq<Row>>, binding: BindingId, rows: seq<(TableName, Value)>): map<TableName, seq<Row>> {
    if rows == [] then tables
    else
      var last := rows[|rows| - 1];
      var rest := StoreRows(tables, binding, rows[..|rows| - 1]);
      rest[last.0 := TableIn(rest, last.0) + [Row(binding, last.1)]]
  }

  /** A faithful store after one ingest: one evidence row per digest, one binding, every row once. */
  function Kept(db: Database, s: Saved): Database {
    if s.alreadyBound then db
    else Database(if s.record.digest in Dict(db.evidence) then db.evidence else db.evidence + [(s.record.digest, s.size)],
                  db.bindings + [(s.binding, s.record)], StoreRows(db.tables, s.binding, s.rows))
  }

  /** The store's own rules: a new binding has a fresh id, and one digest has one size. */
  ghost predicate Lawful(db: Database, s: Saved) {
    !s.alreadyBound ==>
      && s.binding !in Dict(db.bindings)
      && (s.record.digest in Dict(db.evidence) ==> Dict(db.evidence)[s.record.digest] == s.size)
  }

  lemma {:induction false} RowsKeptAndCounted(hash: Hash, tables: map<TableName, seq<Row>>, m: map<TableName, multiset<(BindingId, Print)>>,
                                              binding: BindingId, rows: seq<(TableName, Value)>, t: TableName)
    requires Prints(hash, TableIn(tables, t)) == RowsOf(m, t)
    ensures Prints(hash, TableIn(StoreRows(tables, binding, rows), t)) == RowsOf(CountRows(hash, m, binding, rows), t)
  {
    if rows != [] {
      var n := |rows| - 1;
      RowsKeptAndCounted(hash, tables, m, binding, rows[..n], t);
      var stored, counted := StoreRows(tables, binding, rows[..n]), CountRows(hash, m, binding, rows[..n]);
      RowKeptAndCounted(hash, stored, counted, rows[n].0, Row(binding, rows[n].1), t);
    }
  }

  lemma RowKeptAndCounted(hash: Hash, tables: map<TableName, seq<Row>>, m: map<TableName, multiset<(BindingId, Print)>>, u: TableName, r: Row, t: TableName)
    requires Prints(hash, TableIn(tables, t)) == RowsOf(m, t)
    ensures Prints(hash, TableIn(tables[u := TableIn(tables, u) + [r]], t)) == RowsOf(Count(m, u, PrintOf(hash, r)), t)
  {
    PrintsSnoc(hash, TableIn(tables, t), r);
    hide Prints;
  }

  /** A pair is kept once under its key; a repeat of the same pair changes nothing. */
  lemma PairKept<K, V>(pairs: seq<(K, V)>, m: map<K, V>, k: K, v: V)
    requires multiset(pairs) == Items(m) && (k in Dict(pairs) ==> Dict(pairs)[k] == v)
    ensures multiset(if k in Dict(pairs) then pairs else pairs + [(k, v)]) == Items(m[k := v])
  {
    CountAndDictDecide(pairs, m);
    if k in m {
      assert m[k := v] == m;
    } else {
      ItemsInsert(m, k, v);
    }
  }

  lemma IngestKeepsHolding(hash: Hash, e: Expected, db: Database, s: Saved)
    requires HoldsExactly(hash, e, db) && Lawful(db, s)
    ensures HoldsExactly(hash, Recorded(hash, e, s), Kept(db, s))
  {
    if !s.alreadyBound {
      PairKept(db.evidence, e.evidence, s.record.digest, s.size);
      CountAndDictDecide(db.bindings, e.bindings);
      ItemsInsert(e.bindings, s.binding, s.record);
      hide Items, Dict, Prints, RowsOf, StoreRows, CountRows;
      forall t ensures Prints(hash, StoredIn(Kept(db, s), t)) == RowsOf(Recorded(hash, e, s).rows, t) {
        assert Prints(hash, StoredIn(db, t)) == RowsOf(e.rows, t);
        RowsKeptAndCounted(hash, db.tables, e.rows, s.binding, s.rows, t);
      }
    }
  }

  function RecordedAll(hash: Hash, e: Expected, saves: seq<Saved>): Expected
    decreases |saves|
  {
    if saves == [] then e else RecordedAll(hash, Recorded(hash, e, saves[0]), saves[1..])
  }

  // The recorded import, read off the ingests.

  /** The rows that one ingest projects into `t`, in order. */
  function TableRows(binding: BindingId, rows: seq<(TableName, Value)>, t: TableName): seq<Row> {
    if rows == [] then []
    else
      var last := rows[|rows| - 1];
      TableRows(binding, rows[..|rows| - 1], t) + if last.0 == t then [Row(binding, last.1)] else []
  }

  /** The rows that all new bindings project into `t`, in order. */
  function Imported(saves: seq<Saved>, t: TableName): seq<Row> {
    if saves == [] then []
    else
      var s := saves[|saves| - 1];
      Imported(saves[..|saves| - 1], t) + if s.alreadyBound then [] else TableRows(s.binding, s.rows, t)
  }

  /** Ingest `i` is the last new binding with this digest. */
  predicate LastWithDigest(saves: seq<Saved>, i: int, digest: Digest) {
    && 0 <= i < |saves| && !saves[i].alreadyBound && saves[i].record.digest == digest
    && forall j | i < j < |saves| && !saves[j].alreadyBound :: saves[j].record.digest != digest
  }

  predicate LastWithBinding(saves: seq<Saved>, i: int, binding: BindingId) {
    && 0 <= i < |saves| && !saves[i].alreadyBound && saves[i].binding == binding
    && forall j | i < j < |saves| && !saves[j].alreadyBound :: saves[j].binding != binding
  }

  lemma {:induction false} RecordedLast(hash: Hash, e: Expected, saves: seq<Saved>)
    requires saves != []
    ensures RecordedAll(hash, e, saves) == Recorded(hash, RecordedAll(hash, e, saves[..|saves| - 1]), saves[|saves| - 1])
    decreases |saves|
  {
    hide Recorded;
    if |saves| > 1 {
      RecordedLast(hash, Recorded(hash, e, saves[0]), saves[1..]);
      assert saves[1..][..|saves| - 2] == saves[..|saves| - 1][1..];
    } else {
      assert saves[1..] == [] && saves[..0] == [];
    }
  }

  /** What is expected of the target: the size and the record of the last new binding, and every projected row once. */
  lemma {:induction false} RecordedExactly(hash: Hash, saves: seq<Saved>, d: Digest, b: BindingId, t: TableName)
    ensures var e := RecordedAll(hash, NOTHING, saves);
      && (d in e.evidence <==> exists i :: LastWithDigest(saves, i, d))
      && (forall i | LastWithDigest(saves, i, d) :: e.evidence[d] == saves[i].size)
      && (b in e.bindings <==> exists i :: LastWithBinding(saves, i, b))
      && (forall i | LastWithBinding(saves, i, b) :: e.bindings[b] == saves[i].record)
      && RowsOf(e.rows, t) == Prints(hash, Imported(saves, t))
    decreases |saves|
  {
    hide RecordedAll, Recorded, Prints, Imported, RowsOf, LastWithDigest, LastWithBinding;
    if saves == [] {
      NothingRecorded(hash, t);
    } else {
      var before, s := saves[..|saves| - 1], saves[|saves| - 1];
      assert saves == before + [s];
      RecordedExactly(hash, before, d, b, t);
      RecordedLast(hash, NOTHING, saves);
      LastSteps(before, s, d, b);
      assert !s.alreadyBound && s.record.digest == d ==> LastWithDigest(before + [s], |before|, d);
      assert !s.alreadyBound && s.binding == b ==> LastWithBinding(before + [s], |before|, b);
      RecordedStep(hash, RecordedAll(hash, NOTHING, before), s, d, b);
      RowsRecordedStep(hash, RecordedAll(hash, NOTHING, before), saves, t);
    }
  }

  lemma NothingRecorded(hash: Hash, t: TableName)
    ensures RecordedAll(hash, NOTHING, []) == NOTHING && RowsOf(NOTHING.rows, t) == Prints(hash, Imported([], t))
    ensures forall i, d :: !LastWithDigest([], i, d)
    ensures forall i, b :: !LastWithBinding([], i, b)
  {
  }

  lemma LastSteps(before: seq<Saved>, s: Saved, d: Digest, b: BindingId)
    ensures forall i :: LastWithDigest(before + [s], i, d) <==>
      if !s.alreadyBound && s.record.digest == d then i == |before| else LastWithDigest(before, i, d)
    ensures forall i :: LastWithBinding(before + [s], i, b) <==>
      if !s.alreadyBound && s.binding == b then i == |before| else LastWithBinding(before, i, b)
    ensures forall i | LastWithDigest(before, i, d) :: 0 <= i < |before|
    ensures forall i | LastWithBinding(before, i, b) :: 0 <= i < |before|
  {
    var saves := before + [s];
    assert saves[|before|] == s && forall i | 0 <= i < |before| :: saves[i] == before[i];
    forall i ensures LastWithDigest(saves, i, d) <==>
      if !s.alreadyBound && s.record.digest == d then i == |before| else LastWithDigest(before, i, d)
    {
    }
    forall i ensures LastWithBinding(saves, i, b) <==>
      if !s.alreadyBound && s.binding == b then i == |before| else LastWithBinding(before, i, b)
    {
    }
  }

  lemma RecordedStep(hash: Hash, e: Expected, s: Saved, d: Digest, b: BindingId)
    ensures var f := Recorded(hash, e, s);
      && (if !s.alreadyBound && s.record.digest == d then d in f.evidence && f.evidence[d] == s.size
          else (d in f.evidence <==> d in e.evidence) && (d in e.evidence ==> f.evidence[d] == e.evidence[d]))
      && (if !s.alreadyBound && s.binding == b then b in f.bindings && f.bindings[b] == s.record
          else (b in f.bindings <==> b in e.bindings) && (b in e.bindings ==> f.bindings[b] == e.bindings[b]))
  {
  }

  lemma RowsRecordedStep(hash: Hash, e: Expected, saves: seq<Saved>, t: TableName)
    requires saves != [] && RowsOf(e.rows, t) == Prints(hash, Imported(saves[..|saves| - 1], t))
    ensures RowsOf(Recorded(hash, e, saves[|saves| - 1]).rows, t) == Prints(hash, Imported(saves, t))
  {
    hide Prints, RowsOf, CountRows, TableRows;
    var s := saves[|saves| - 1];
    if !s.alreadyBound {
      RowsCounted(hash, e.rows, s.binding, s.rows, t);
      PrintsOfParts(hash, Imported(saves[..|saves| - 1], t), TableRows(s.binding, s.rows, t));
    } else {
      assert Imported(saves, t) == Imported(saves[..|saves| - 1], t);
    }
  }

  lemma {:induction false} RowsCounted(hash: Hash, m: map<TableName, multiset<(BindingId, Print)>>, binding: BindingId, rows: seq<(TableName, Value)>, t: TableName)
    ensures RowsOf(CountRows(hash, m, binding, rows), t) == RowsOf(m, t) + Prints(hash, TableRows(binding, rows, t))
  {
    hide Count, RowsOf, Prints;
    if rows == [] {
      NothingCounted(hash, m, t);
    } else {
      var n := |rows| - 1;
      var r := Row(binding, rows[n].1);
      RowsCounted(hash, m, binding, rows[..n], t);
      PrintsSnoc(hash, TableRows(binding, rows[..n], t), r);
      CountedIn(CountRows(hash, m, binding, rows[..n]), rows[n].0, PrintOf(hash, r), t);
      assert rows[n].0 != t ==> TableRows(binding, rows, t) == TableRows(binding, rows[..n], t);
    }
  }

  lemma NothingCounted(hash: Hash, m: map<TableName, multiset<(BindingId, Print)>>, t: TableName)
    ensures RowsOf(m, t) == RowsOf(m, t) + Prints(hash, [])
  {
  }

  lemma CountedIn(m: map<TableName, multiset<(BindingId, Print)>>, u: TableName, p: (BindingId, Print), t: TableName)
    ensures RowsOf(Count(m, u, p), t) == RowsOf(m, t) + if u == t then multiset{p} else multiset{}
  {
  }

  function KeptAll(db: Database, saves: seq<Saved>): Database
    decreases |saves|
  {
    if saves == [] then db else KeptAll(Kept(db, saves[0]), saves[1..])
  }

  ghost predicate AllLawful(db: Database, saves: seq<Saved>)
    decreases |saves|
  {
    saves == [] || (Lawful(db, saves[0]) && AllLawful(Kept(db, saves[0]), saves[1..]))
  }

  /** After any sequence of ingests, repeats included, a faithful store reconciles. */
  lemma {:induction false} FaithfulStoreReconciles(hash: Hash, e: Expected, db: Database, saves: seq<Saved>)
    requires HoldsExactly(hash, e, db) && AllLawful(db, saves)
    ensures HoldsExactly(hash, RecordedAll(hash, e, saves), KeptAll(db, saves))
    decreases |saves|
  {
    if saves != [] {
      IngestKeepsHolding(hash, e, db, saves[0]);
      FaithfulStoreReconciles(hash, Recorded(hash, e, saves[0]), Kept(db, saves[0]), saves[1..]);
    }
  }

  lemma EmptyTargetHolds(hash: Hash)
    ensures HoldsExactly(hash, NOTHING, EMPTY_TARGET)
  {
    assert Pairs(NOTHING.evidence, NOTHING.evidence.Keys) == {} && Pairs(NOTHING.bindings, NOTHING.bindings.Keys) == {};
  }

  /** The expectations object, filled by ingests and compared with the target at the end. */
  class Expectations {
    const hash: Hash
    var evidence: map<Digest, nat>
    var bindings: map<BindingId, Record>
    var columns: map<TableName, set<string>>
    var rows: map<TableName, multiset<(BindingId, Print)>>

    ghost function State(): Expected
      reads this
    {
      Expected(evidence, bindings, rows)
    }

    ghost predicate Valid()
      reads this
    {
      columns.Keys == rows.Keys
    }

    constructor (hash: Hash)
      ensures Valid() && State() == NOTHING && columns == map[] && this.hash == hash
    {
      this.hash := hash;
      evidence, bindings, columns, rows := map[], map[], map[], map[];
    }

    /** Records one new binding; `false` is the refusal of inconsistent columns. */
    method Add(s: Saved) returns (ok: bool)
      requires Valid() && !s.alreadyBound
      modifies this
      ensures Valid()
      ensures ok ==> State() == Recorded(hash, old(State()), s)
      ensures ok ==> Seen(old(columns), columns, s.rows, |s.rows|)
      ensures ok <==> Consistent(old(columns), s.rows)
    {
      evidence := evidence[s.record.digest := s.size];
      bindings := bindings[s.binding := s.record];
      ok := AddRows(s);
    }

    method AddRows(s: Saved) returns (ok: bool)
      requires Valid()
      modifies this`columns, this`rows
      ensures Valid()
      ensures ok ==> rows == CountRows(hash, old(rows), s.binding, s.rows)
      ensures ok ==> Seen(old(columns), columns, s.rows, |s.rows|)
      ensures ok <==> Consistent(old(columns), s.rows)
    {
      ghost var cols, counted := columns, rows;
      for i := 0 to |s.rows|
        invariant Filed(hash, cols, counted, s, i, columns, rows)
      {
        FileStep(hash, cols, counted, s, i, columns, rows);
        ok := AddRow(s.rows[i].0, s.rows[i].1, s.binding);
        if !ok {
          return;
        }
      }
      FiledAll(hash, cols, counted, s, columns, rows);
      ok := true;
    }

    method AddRow(t: TableName, row: Value, binding: BindingId) returns (ok: bool)
      requires Valid()
      modifies this`columns, this`rows
      ensures Valid() && (ok <==> !Clash(old(columns), t, row))
      ensures ok ==> columns == WithColumns(old(columns), t, row) && rows == Count(old(rows), t, PrintOf(hash, Row(binding, row)))
    {
      ok := !Clash(columns, t, row);
      if ok {
        columns, rows := WithColumns(columns, t, row), Count(rows, t, PrintOf(hash, Row(binding, row)));
      }
    }

    /** The final check: counts first, then every recorded table, each read once. */
    method Reconcile(db: Database) returns (ok: bool)
      ensures ok <==> HoldsExactly(hash, State(), db)
    {
      hide Prints, StoredIn, RowsOf, HoldsExactly;
      ReconcileExactly(hash, State(), db);
      if |db.evidence| != |evidence| || |db.bindings| != |bindings| {
        return false;
      }
      if exists t :: t in db.tables.Keys + rows.Keys && |StoredIn(db, t)| != |RowsOf(rows, t)| {
        return false;
      }
      if Dict(db.evidence) != evidence || Dict(db.bindings) != bindings {
        return false;
      }
      ok := ReconcileRows(db);
    }

    /** Every recorded table is read once and holds the recorded rows. */
    method ReconcileRows(db: Database) returns (ok: bool)
      ensures ok <==> forall t | t in rows :: Prints(hash, StoredIn(db, t)) == rows[t]
    {
      hide Prints, StoredIn;
      var todo := rows.Keys;
      while todo != {}
        invariant todo <= rows.Keys
        invariant forall t | t in rows.Keys - todo :: Prints(hash, StoredIn(db, t)) == rows[t]
      {
        var t :| t in todo;
        if Prints(hash, StoredIn(db, t)) != rows[t] {
          return false;
        }
        todo := todo - {t};
      }
      ok := true;
    }
  }

  /** All rows of one table have the same columns. */
  ghost predicate Consistent(columns: map<TableName, set<string>>, rows: seq<(TableName, Value)>) {
    && (forall k | 0 <= k < |rows| && rows[k].0 in columns :: columns[rows[k].0] == ColumnsOf(rows[k].1))
    && forall j, k | 0 <= j < k < |rows| && rows[j].0 == rows[k].0 :: ColumnsOf(rows[j].1) == ColumnsOf(rows[k].1)
  }

  /** The rows that the new bindings among `saves` project, in order. */
  function AllRows(saves: seq<Saved>): seq<(TableName, Value)> {
    if saves == [] then [] else (if saves[0].alreadyBound then [] else saves[0].rows) + AllRows(saves[1..])
  }

  /** Columns seen over `first` and then `second` are those of both together. */
  lemma {:induction false} SeenParts(mid: map<TableName, set<string>>, first: seq<(TableName, Value)>, second: seq<(TableName, Value)>)
    requires Seen(map[], mid, first, |first|) && Consistent(map[], first)
    ensures Consistent(mid, second) <==> Consistent(map[], first + second)
    ensures forall now | Seen(mid, now, second, |second|) :: Seen(map[], now, first + second, |first + second|)
  {
    var both := first + second;
    forall now | Seen(mid, now, second, |second|) ensures Seen(map[], now, both, |both|) {
      SeenTogether(mid, now, first, second);
    }
    if Consistent(mid, second) {
      BothConsistent(mid, first, second);
    }
    if Consistent(map[], both) {
      SecondConsistent(mid, first, second);
    }
  }

  lemma {:induction false} SeenTogether(mid: map<TableName, set<string>>, now: map<TableName, set<string>>,
                                        first: seq<(TableName, Value)>, second: seq<(TableName, Value)>)
    requires Seen(map[], mid, first, |first|) && Seen(mid, now, second, |second|)
    ensures Seen(map[], now, first + second, |first + second|)
  {
    hide ColumnsOf;
    var both := first + second;
    forall k | 0 <= k < |both| ensures both[k].0 in now && now[both[k].0] == ColumnsOf(both[k].1) {
      if k < |first| {
        assert both[k] == first[k];
      } else {
        assert both[k] == second[k - |first|];
      }
    }
    forall t | t in now ensures exists k :: 0 <= k < |both| && both[k].0 == t {
      if t in mid {
        var k :| 0 <= k < |first| && first[k].0 == t;
        assert both[k].0 == t;
      } else {
        var k :| 0 <= k < |second| && second[k].0 == t;
        assert both[|first| + k].0 == t;
      }
    }
  }

  lemma {:induction false} BothConsistent(mid: map<TableName, set<string>>, first: seq<(TableName, Value)>, second: seq<(TableName, Value)>)
    requires Seen(map[], mid, first, |first|) && Consistent(map[], first) && Consistent(mid, second)
    ensures Consistent(map[], first + second)
  {
    hide ColumnsOf;
    var both := first + second;
    forall j, k | 0 <= j < k < |both| && both[j].0 == both[k].0 ensures ColumnsOf(both[j].1) == ColumnsOf(both[k].1) {
      if k < |first| {
        assert both[j] == first[j] && both[k] == first[k];
      } else if j < |first| {
        assert both[j] == first[j] && both[k] == second[k - |first|];
      } else {
        assert both[j] == second[j - |first|] && both[k] == second[k - |first|];
      }
    }
  }

  lemma {:induction false} SecondConsistent(mid: map<TableName, set<string>>, first: seq<(TableName, Value)>, second: seq<(TableName, Value)>)
    requires Seen(map[], mid, first, |first|) && Consistent(map[], first + second)
    ensures Consistent(mid, second)
  {
    hide ColumnsOf;
    var both := first + second;
    forall k | 0 <= k < |second| ensures both[|first| + k] == second[k] {
    }
    forall k | 0 <= k < |second| && second[k].0 in mid ensures mid[second[k].0] == ColumnsOf(second[k].1) {
      var j :| 0 <= j < |first| && first[j].0 == second[k].0;
      assert both[j] == first[j] && both[|first| + k] == second[k];
    }
    forall j, k | 0 <= j < k < |second| && second[j].0 == second[k].0 ensures ColumnsOf(second[j].1) == ColumnsOf(second[k].1) {
      assert both[|first| + j].0 == both[|first| + k].0;
    }
  }

  lemma {:induction false} FirstConsistent(first: seq<(TableName, Value)>, second: seq<(TableName, Value)>)
    requires Consistent(map[], first + second)
    ensures Consistent(map[], first)
  {
    hide ColumnsOf;
    var both := first + second;
    forall j, k | 0 <= j < k < |first| && first[j].0 == first[k].0 ensures ColumnsOf(first[j].1) == ColumnsOf(first[k].1) {
      assert both[j] == first[j] && both[k] == first[k];
    }
  }

  /** The rows handled before the `i`-th ingest, with their columns. */
  ghost predicate RowsDone(saves: seq<Saved>, i: nat, columns: map<TableName, set<string>>, done: seq<(TableName, Value)>)
    requires i <= |saves|
  {
    done + AllRows(saves[i..]) == AllRows(saves) && Consistent(map[], done) && Seen(map[], columns, done, |done|)
  }

  lemma NoRowsDone(saves: seq<Saved>)
    ensures RowsDone(saves, 0, map[], [])
  {
    assert saves[0..] == saves && [] + AllRows(saves) == AllRows(saves);
  }

  /** What is recorded before the `i`-th ingest, when the rest leads to the whole. */
  ghost predicate Underway(hash: Hash, saves: seq<Saved>, i: nat, e: Expected)
    requires i <= |saves|
  {
    RecordedAll(hash, e, saves[i..]) == RecordedAll(hash, NOTHING, saves)
  }

  lemma UnderwayStep(hash: Hash, saves: seq<Saved>, i: nat, e: Expected)
    requires i < |saves| && Underway(hash, saves, i, e)
    ensures Underway(hash, saves, i + 1, Recorded(hash, e, saves[i]))
  {
    assert saves[i..][1..] == saves[i + 1..];
  }

  lemma {:induction false} RowsStep(saves: seq<Saved>, i: nat, columns: map<TableName, set<string>>, done: seq<(TableName, Value)>,
                                    columns': map<TableName, set<string>>)
    requires i < |saves| && RowsDone(saves, i, columns, done) && !saves[i].alreadyBound
    requires Consistent(columns, saves[i].rows) && Seen(columns, columns', saves[i].rows, |saves[i].rows|)
    ensures RowsDone(saves, i + 1, columns', done + saves[i].rows)
  {
    hide Consistent, Seen;
    var s := saves[i];
    assert saves[i..][1..] == saves[i + 1..] && saves[i..][0] == s;
    SeenParts(columns, done, s.rows);
    assert (done + s.rows) + AllRows(saves[i + 1..]) == done + (s.rows + AllRows(saves[i + 1..]));
  }

  lemma {:induction false} RepeatStep(saves: seq<Saved>, i: nat, columns: map<TableName, set<string>>, done: seq<(TableName, Value)>)
    requires i < |saves| && RowsDone(saves, i, columns, done) && saves[i].alreadyBound
    ensures RowsDone(saves, i + 1, columns, done)
  {
    hide Consistent, Seen;
    assert saves[i..][1..] == saves[i + 1..] && saves[i..][0] == saves[i];
    assert [] + AllRows(saves[i + 1..]) == AllRows(saves[i + 1..]);
  }

  lemma {:induction false} Inconsistent(saves: seq<Saved>, i: nat, columns: map<TableName, set<string>>, done: seq<(TableName, Value)>)
    requires i < |saves| && RowsDone(saves, i, columns, done) && !saves[i].alreadyBound && !Consistent(columns, saves[i].rows)
    ensures !Consistent(map[], AllRows(saves))
  {
    hide Consistent, Seen;
    var s := saves[i];
    assert saves[i..][1..] == saves[i + 1..] && saves[i..][0] == s;
    SeenParts(columns, done, s.rows);
    assert (done + s.rows) + AllRows(saves[i + 1..]) == AllRows(saves);
    if Consistent(map[], AllRows(saves)) {
      FirstConsistent(done + s.rows, AllRows(saves[i + 1..]));
    }
  }

  /**
   * A whole import: every new binding is recorded, then the target is checked. It passes exactly for a target
   * that holds the recorded import; a faithful store that started empty passes whenever columns are consistent.
   */
  method Import(hash: Hash, saves: seq<Saved>, target: Database) returns (ok: bool)
    ensures ok <==> Consistent(map[], AllRows(saves)) && HoldsExactly(hash, RecordedAll(hash, NOTHING, saves), target)
    ensures AllLawful(EMPTY_TARGET, saves) && target == KeptAll(EMPTY_TARGET, saves) ==> (ok <==> Consistent(map[], AllRows(saves)))
  {
    hide Consistent, Seen, HoldsExactly, AllLawful, KeptAll, CountRows;
    if AllLawful(EMPTY_TARGET, saves) && target == KeptAll(EMPTY_TARGET, saves) {
      EmptyTargetHolds(hash);
      FaithfulStoreReconciles(hash, NOTHING, EMPTY_TARGET, saves);
    }
    var expectations := new Expectations(hash);
    ghost var done := [];
    NoRowsDone(saves);
    for i := 0 to |saves|
      invariant expectations.Valid() && expectations.hash == hash && fresh(expectations)
      invariant Underway(hash, saves, i, expectations.State()) && RowsDone(saves, i, expectations.columns, done)
    {
      ghost var e, columns := expectations.State(), expectations.columns;
      var s := saves[i];
      UnderwayStep(hash, saves, i, e);
      if s.alreadyBound {
        RepeatStep(saves, i, columns, done);
      } else {
        var added := expectations.Add(s);
        if !added {
          Inconsistent(saves, i, columns, done);
          return false;
        }
        RowsStep(saves, i, columns, done, expectations.columns);
        done := done + s.rows;
      }
    }
    assert done + [] == done;
    ok := expectations.Reconcile(target);
  }

  /** The first row of a table fixes its columns. */
  function WithColumns(columns: map<TableName, set<string>>, t: TableName, row: Value): (after: map<TableName, set<string>>)
    ensures after.Keys == columns.Keys + {t}
  {
    if t in columns then columns else columns[t := ColumnsOf(row)]
  }

  lemma CountStep(hash: Hash, m: map<TableName, multiset<(BindingId, Print)>>, binding: BindingId, rows: seq<(TableName, Value)>, i: nat)
    requires i < |rows|
    ensures CountRows(hash, m, binding, rows[..i + 1])
         == Count(CountRows(hash, m, binding, rows[..i]), rows[i].0, PrintOf(hash, Row(binding, rows[i].1)))
  {
    assert rows[..i + 1][..i] == rows[..i];
  }

  /** The columns known after the first `n` rows. */
  ghost predicate Seen(before: map<TableName, set<string>>, now: map<TableName, set<string>>, rows: seq<(TableName, Value)>, n: nat)
    requires n <= |rows|
  {
    && (forall t | t in before :: t in now && now[t] == before[t])
    && (forall k | 0 <= k < n :: rows[k].0 in now && now[rows[k].0] == ColumnsOf(rows[k].1))
    && forall t | t in now && t !in before :: exists k :: 0 <= k < n && rows[k].0 == t
  }

  /** The table already has other columns. */
  predicate Clash(columns: map<TableName, set<string>>, t: TableName, row: Value) {
    t in columns && columns[t] != ColumnsOf(row)
  }

  lemma ConsistentStep(before: map<TableName, set<string>>, now: map<TableName, set<string>>, rows: seq<(TableName, Value)>, i: nat)
    requires i < |rows| && Seen(before, now, rows, i)
    ensures Clash(now, rows[i].0, rows[i].1) ==> !Consistent(before, rows)
    ensures !Clash(now, rows[i].0, rows[i].1) ==> Seen(before, WithColumns(now, rows[i].0, rows[i].1), rows, i + 1)
  {
    var t, row := rows[i].0, rows[i].1;
    if Clash(now, t, row) && t !in before {
      var k :| 0 <= k < i && rows[k].0 == t;
      assert ColumnsOf(rows[k].1) != ColumnsOf(rows[i].1);
    }
  }

  /** The first `n` rows of `s` were counted, and their tables' columns are known. */
  ghost predicate Filed(hash: Hash, cols: map<TableName, set<string>>, counted: map<TableName, multiset<(BindingId, Print)>>, s: Saved, n: nat,
                        columns: map<TableName, set<string>>, rows: map<TableName, multiset<(BindingId, Print)>>)
    requires n <= |s.rows|
  {
    columns.Keys == rows.Keys && Seen(cols, columns, s.rows, n) && rows == CountRows(hash, counted, s.binding, s.rows[..n])
  }

  lemma FileStep(hash: Hash, cols: map<TableName, set<string>>, counted: map<TableName, multiset<(BindingId, Print)>>, s: Saved, i: nat,
                 columns: map<TableName, set<string>>, rows: map<TableName, multiset<(BindingId, Print)>>)
    requires i < |s.rows| && Filed(hash, cols, counted, s, i, columns, rows)
    ensures Clash(columns, s.rows[i].0, s.rows[i].1) ==> !Consistent(cols, s.rows)
    ensures !Clash(columns, s.rows[i].0, s.rows[i].1) ==>
      Filed(hash, cols, counted, s, i + 1, WithColumns(columns, s.rows[i].0, s.rows[i].1),
            Count(rows, s.rows[i].0, PrintOf(hash, Row(s.binding, s.rows[i].1))))
  {
    CountStep(hash, counted, s.binding, s.rows, i);
    ConsistentStep(cols, columns, s.rows, i);
  }

  lemma FiledAll(hash: Hash, cols: map<TableName, set<string>>, counted: map<TableName, multiset<(BindingId, Print)>>, s: Saved,
                 columns: map<TableName, set<string>>, rows: map<TableName, multiset<(BindingId, Print)>>)
    requires Filed(hash, cols, counted, s, |s.rows|, columns, rows)
    ensures columns.Keys == rows.Keys && rows == CountRows(hash, counted, s.binding, s.rows)
    ensures Consistent(cols, s.rows) && Seen(cols, columns, s.rows, |s.rows|)
  {
    assert s.rows[..|s.rows|] == s.rows;
  }

  /** The columns of a row are the names of its members. */
  lemma ColumnsExactly(v: Value, w: Value)
    ensures ColumnsOf(v) == ColumnsOf(w) <==> forall name :: HasColumn(v, name) <==> HasColumn(w, name)
  {
    forall name ensures (name in ColumnsOf(v) <==> HasColumn(v, name)) && (name in ColumnsOf(w) <==> HasColumn(w, name)) {
    }
  }

  ghost predicate HasColumn(v: Value, name: string) {
    v.Object? && exists member :: member in v.members && member.0 == name
  }

  function ColumnsOf(v: Value): set<string> {
    if v.Object? then set i | 0 <= i < |v.members| :: v.members[i].0 else {}
  }
}

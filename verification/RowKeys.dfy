/** Canonical keys of projected rows: what two JSON-like values must share to have one fingerprint. */
module RowKeys {
  import P = PythonRepr
  import opened TextOrder

  type Decimal = P.Decimal

  datatype Value =
    | Null
    | Bool(b: bool)
    | Number(d: Decimal)
    | Text(s: string)
    | Array(items: seq<Value>)
    | Object(members: seq<(string, Value)>)

  datatype Key =
    | NullKey
    | BoolKey(b: bool)
    | NumberKey(d: Decimal)
    | TextKey(s: string)
    | ArrayKey(items: seq<Key>)
    | ObjectKey(members: seq<(string, Key)>)

  // --------------------------------------------------------------------------
  // Members in key order
  // --------------------------------------------------------------------------

  type Members = seq<(string, Key)>

  function Insert(m: (string, Key), ms: Members): Members {
    if ms == [] || Less(m.0, ms[0].0) then [m] + ms else [ms[0]] + Insert(m, ms[1..])
  }

  function Sort(ms: Members): Members {
    if ms == [] then [] else Insert(ms[0], Sort(ms[1..]))
  }

  ghost predicate Ascending(ms: Members) {
    forall i, j | 0 <= i < j < |ms| :: Less(ms[i].0, ms[j].0)
  }

  ghost predicate DistinctKeys<T>(ms: seq<(string, T)>) {
    forall i, j | 0 <= i < j < |ms| :: ms[i].0 != ms[j].0
  }

  function Names<T>(ms: seq<(string, T)>): set<string> {
    set i | 0 <= i < |ms| :: ms[i].0
  }

  lemma {:induction false} InsertInOrder(m: (string, Key), ms: Members)
    requires Ascending(ms) && forall x | x in ms :: x.0 != m.0
    ensures Ascending(Insert(m, ms)) && |Insert(m, ms)| == |ms| + 1
    ensures forall x :: x in Insert(m, ms) <==> x == m || x in ms
  {
    if ms == [] {
    } else if Less(m.0, ms[0].0) {
      forall j | 0 < j < |ms| ensures Less(m.0, ms[j].0) {
        LessTransitive(m.0, ms[0].0, ms[j].0);
      }
    } else {
      InsertInOrder(m, ms[1..]);
      LessTotal(m.0, ms[0].0);
      var rest := Insert(m, ms[1..]);
      forall j | 0 <= j < |rest| ensures Less(ms[0].0, rest[j].0) {
        assert rest[j] in rest;
      }
      assert forall x :: x in ms <==> x == ms[0] || x in ms[1..];
    }
  }

  lemma {:induction false} SortInOrder(ms: Members)
    requires DistinctKeys(ms)
    ensures Ascending(Sort(ms)) && |Sort(ms)| == |ms|
    ensures forall x :: x in Sort(ms) <==> x in ms
  {
    if ms != [] {
      SortInOrder(ms[1..]);
      assert forall x | x in Sort(ms[1..]) :: x in ms[1..] && x.0 != ms[0].0;
      InsertInOrder(ms[0], Sort(ms[1..]));
      assert forall x :: x in ms <==> x == ms[0] || x in ms[1..];
    }
  }

  /** An ascending list is determined by the names it holds. */
  lemma {:induction false} AscendingUnique(x: Members, y: Members)
    requires Ascending(x) && Ascending(y) && |x| == |y| && Names(x) == Names(y)
    ensures forall i | 0 <= i < |x| :: x[i].0 == y[i].0
  {
    if x != [] {
      HeadIsLeast(x);
      HeadIsLeast(y);
      assert x[0].0 in Names(y) && y[0].0 in Names(x);
      LessTotal(x[0].0, y[0].0);
      assert Names(x[1..]) == Names(x) - {x[0].0} == Names(y) - {y[0].0} == Names(y[1..]);
      AscendingUnique(x[1..], y[1..]);
      assert forall i | 0 < i < |x| :: x[i] == x[1..][i - 1] && y[i] == y[1..][i - 1];
    }
  }

  lemma HeadIsLeast(x: Members)
    requires x != [] && Ascending(x)
    ensures forall n | n in Names(x) :: n == x[0].0 || Less(x[0].0, n)
    ensures Names(x[1..]) == Names(x) - {x[0].0}
  {
    forall n | n in Names(x[1..]) ensures n in Names(x) && n != x[0].0 {
      var i :| 0 <= i < |x[1..]| && x[1..][i].0 == n;
      assert x[i + 1].0 == n;
      LessTotal(n, n);
    }
    forall n | n in Names(x) && n != x[0].0 ensures n in Names(x[1..]) {
      var i :| 0 <= i < |x| && x[i].0 == n;
      assert x[1..][i - 1] == x[i];
    }
  }

  // --------------------------------------------------------------------------
  // Keys and what they identify
  // --------------------------------------------------------------------------

  function RowKey(v: Value): Key {
    match v
    case Null => NullKey
    case Bool(b) => BoolKey(b)
    case Number(d) => NumberKey(d)
    case Text(s) => TextKey(s)
    case Array(items) => ArrayKey(seq(|items|, i requires 0 <= i < |items| => RowKey(items[i])))
    case Object(members) => ObjectKey(Sort(MemberKeys(v)))
  }

  function MemberKeys(v: Value): Members
    requires v.Object?
    decreases v, 0
  {
    seq(|v.members|, i requires 0 <= i < |v.members| => (v.members[i].0, RowKey(v.members[i].1)))
  }

  /** The keys of one object are distinct, at every depth. */
  ghost predicate WellFormed(v: Value) {
    match v
    case Array(items) => forall i | 0 <= i < |items| :: WellFormed(items[i])
    case Object(members) => DistinctKeys(members) && forall i | 0 <= i < |members| :: WellFormed(members[i].1)
    case _ => true
  }

  type NumberEq = (Decimal, Decimal) -> bool

  /** Key equality that compares numbers by `eq`. */
  ghost predicate KeysEqual(x: Key, y: Key, eq: NumberEq) {
    match (x, y)
    case (NumberKey(c), NumberKey(d)) => eq(c, d)
    case (ArrayKey(a), ArrayKey(b)) => |a| == |b| && forall i | 0 <= i < |a| :: KeysEqual(a[i], b[i], eq)
    case (ObjectKey(a), ObjectKey(b)) => |a| == |b| && forall i | 0 <= i < |a| :: a[i].0 == b[i].0 && KeysEqual(a[i].1, b[i].1, eq)
    case _ => x == y
  }

  /** Equality of values up to the order of object members, with numbers compared by `eq`. */
  ghost predicate Alike(v: Value, w: Value, eq: NumberEq) {
    match (v, w)
    case (Number(c), Number(d)) => eq(c, d)
    case (Array(a), Array(b)) => |a| == |b| && forall i | 0 <= i < |a| :: Alike(a[i], b[i], eq)
    case (Object(a), Object(b)) =>
      && |a| == |b| && Names(a) == Names(b)
      && forall i, j | 0 <= i < |a| && 0 <= j < |b| && a[i].0 == b[j].0 :: Alike(a[i].1, b[j].1, eq)
    case _ => v == w
  }

  /** The row key identifies a value exactly up to member order, for every way of comparing numbers. */
  lemma {:induction false} RowKeyIdentifies(v: Value, w: Value, eq: NumberEq)
    requires WellFormed(v) && WellFormed(w)
    ensures KeysEqual(RowKey(v), RowKey(w), eq) <==> Alike(v, w, eq)
  {
    match (v, w)
    case (Array(a), Array(b)) =>
      forall i | 0 <= i < |a| && |a| == |b| ensures KeysEqual(RowKey(a[i]), RowKey(b[i]), eq) <==> Alike(a[i], b[i], eq) {
        RowKeyIdentifies(a[i], b[i], eq);
      }
      ArraysDecided(v, w, eq);
    case (Object(a), Object(b)) =>
      forall i, j | 0 <= i < |a| && 0 <= j < |b|
        ensures KeysEqual(RowKey(a[i].1), RowKey(b[j].1), eq) <==> Alike(a[i].1, b[j].1, eq)
      {
        RowKeyIdentifies(a[i].1, b[j].1, eq);
      }
      ObjectsDecided(v, w, eq);
    case _ =>
  }

  lemma ArraysDecided(v: Value, w: Value, eq: NumberEq)
    requires v.Array? && w.Array?
    requires forall i | 0 <= i < |v.items| && |v.items| == |w.items| ::
      KeysEqual(RowKey(v.items[i]), RowKey(w.items[i]), eq) <==> Alike(v.items[i], w.items[i], eq)
    ensures KeysEqual(RowKey(v), RowKey(w), eq) <==> Alike(v, w, eq)
  {
    assert forall i | 0 <= i < |v.items| :: RowKey(v).items[i] == RowKey(v.items[i]);
    assert forall i | 0 <= i < |w.items| :: RowKey(w).items[i] == RowKey(w.items[i]);
  }

  lemma ObjectsDecided(v: Value, w: Value, eq: NumberEq)
    requires v.Object? && w.Object? && DistinctKeys(v.members) && DistinctKeys(w.members) && MembersDecided(v, w, eq)
    ensures KeysEqual(RowKey(v), RowKey(w), eq) <==> Alike(v, w, eq)
  {
    SortInOrder(MemberKeys(v));
    SortInOrder(MemberKeys(w));
    if |v.members| == |w.members| {
      if KeysEqual(RowKey(v), RowKey(w), eq) {
        ObjectsAlike(v, w, eq);
      } else if Alike(v, w, eq) {
        ObjectKeysEqual(v, w, eq);
      }
    }
  }

  ghost predicate MembersDecided(v: Value, w: Value, eq: NumberEq)
    requires v.Object? && w.Object?
  {
    forall i, j | 0 <= i < |v.members| && 0 <= j < |w.members| ::
      KeysEqual(RowKey(v.members[i].1), RowKey(w.members[j].1), eq) <==> Alike(v.members[i].1, w.members[j].1, eq)
  }

  lemma InSort(v: Value, i: nat) returns (p: nat)
    requires v.Object? && DistinctKeys(v.members) && i < |v.members|
    ensures p < |Sort(MemberKeys(v))| && Sort(MemberKeys(v))[p] == (v.members[i].0, RowKey(v.members[i].1))
  {
    SortInOrder(MemberKeys(v));
    assert MemberKeys(v)[i] in MemberKeys(v);
    var k :| 0 <= k < |Sort(MemberKeys(v))| && Sort(MemberKeys(v))[k] == MemberKeys(v)[i];
    p := k;
  }

  lemma FromSort(v: Value, p: nat) returns (i: nat)
    requires v.Object? && DistinctKeys(v.members) && p < |Sort(MemberKeys(v))|
    ensures i < |v.members| && Sort(MemberKeys(v))[p] == (v.members[i].0, RowKey(v.members[i].1))
  {
    SortInOrder(MemberKeys(v));
    assert Sort(MemberKeys(v))[p] in MemberKeys(v);
    var k :| 0 <= k < |MemberKeys(v)| && MemberKeys(v)[k] == Sort(MemberKeys(v))[p];
    i := k;
  }

  lemma SortedNames(v: Value)
    requires v.Object? && DistinctKeys(v.members)
    ensures Names(Sort(MemberKeys(v))) == Names(v.members)
  {
    forall n | n in Names(v.members) ensures n in Names(Sort(MemberKeys(v))) {
      var i :| 0 <= i < |v.members| && v.members[i].0 == n;
      var p := InSort(v, i);
    }
    forall n | n in Names(Sort(MemberKeys(v))) ensures n in Names(v.members) {
      var p :| 0 <= p < |Sort(MemberKeys(v))| && Sort(MemberKeys(v))[p].0 == n;
      var i := FromSort(v, p);
    }
  }

  lemma SameNames(x: Members, y: Members)
    requires |x| == |y| && forall i | 0 <= i < |x| :: x[i].0 == y[i].0
    ensures Names(x) == Names(y)
  {
    assert forall i | 0 <= i < |x| :: x[i].0 in Names(y) && y[i].0 in Names(x);
  }

  lemma ObjectsAlike(v: Value, w: Value, eq: NumberEq)
    requires v.Object? && w.Object? && |v.members| == |w.members| && DistinctKeys(v.members) && DistinctKeys(w.members)
    requires MembersDecided(v, w, eq) && KeysEqual(RowKey(v), RowKey(w), eq)
    ensures Alike(v, w, eq)
  {
    var a, b, x, y := v.members, w.members, Sort(MemberKeys(v)), Sort(MemberKeys(w));
    SortedNames(v);
    SortedNames(w);
    SameNames(x, y);
    forall i, j | 0 <= i < |a| && 0 <= j < |b| && a[i].0 == b[j].0 ensures Alike(a[i].1, b[j].1, eq) {
      var p := InSort(v, i);
      var q := FromSort(w, p);
      assert b[q].0 == b[j].0;
      assert q == j;
    }
  }

  lemma ObjectKeysEqual(v: Value, w: Value, eq: NumberEq)
    requires v.Object? && w.Object? && |v.members| == |w.members| && DistinctKeys(v.members) && DistinctKeys(w.members)
    requires MembersDecided(v, w, eq) && Alike(v, w, eq)
    ensures KeysEqual(RowKey(v), RowKey(w), eq)
  {
    var x, y := Sort(MemberKeys(v)), Sort(MemberKeys(w));
    SortInOrder(MemberKeys(v));
    SortInOrder(MemberKeys(w));
    SortedNames(v);
    SortedNames(w);
    AscendingUnique(x, y);
    forall p | 0 <= p < |x| ensures KeysEqual(x[p].1, y[p].1, eq) {
      var i := FromSort(v, p);
      var j := FromSort(w, p);
      assert Alike(v.members[i].1, w.members[j].1, eq);
    }
  }

  // --------------------------------------------------------------------------
  // Numbers
  // --------------------------------------------------------------------------

  const SAME_DIGITS: NumberEq := (c: Decimal, d: Decimal) => c == d

  function Power10(n: nat): nat { if n == 0 then 1 else 10 * Power10(n - 1) }

  /** Both numbers have one value: they agree after scaling to the smaller exponent. */
  const SAME_VALUE: NumberEq := (c: Decimal, d: Decimal) =>
    var low := if c.exponent < d.exponent then c.exponent else d.exponent;
    var x, y := c.digits * Power10(c.exponent - low), d.digits * Power10(d.exponent - low);
    x == y && (c.negative == d.negative || x == 0)

  lemma {:induction false} KeysEqualBySameDigits(x: Key, y: Key)
    ensures KeysEqual(x, y, SAME_DIGITS) <==> x == y
  {
    match (x, y)
    case (ArrayKey(a), ArrayKey(b)) =>
      forall i | 0 <= i < |a| && |a| == |b| ensures KeysEqual(a[i], b[i], SAME_DIGITS) <==> a[i] == b[i] {
        KeysEqualBySameDigits(a[i], b[i]);
      }
      assert |a| == |b| && (forall i | 0 <= i < |a| :: a[i] == b[i]) ==> a == b;
    case (ObjectKey(a), ObjectKey(b)) =>
      forall i | 0 <= i < |a| && |a| == |b| ensures KeysEqual(a[i].1, b[i].1, SAME_DIGITS) <==> a[i].1 == b[i].1 {
        KeysEqualBySameDigits(a[i].1, b[i].1);
      }
      assert |a| == |b| && (forall i | 0 <= i < |a| :: a[i] == b[i]) ==> a == b;
    case _ =>
  }

  // --------------------------------------------------------------------------
  // The printed key
  // --------------------------------------------------------------------------

  /** The tuple that a key is in the source. */
  function Tupled(k: Key): P.Py
    decreases k, 1
  {
    match k
    case NullKey => P.Tuple([P.Str("NoneType"), P.NoneValue])
    case BoolKey(b) => P.Tuple([P.Str("boolean"), P.Bool(b)])
    case NumberKey(d) => P.Tuple([P.Str("number"), P.Number(d)])
    case TextKey(s) => P.Tuple([P.Str("str"), P.Str(s)])
    case ArrayKey(_) => P.Tuple([P.Str("array"), P.Tuple(TupledItems(k))])
    case ObjectKey(_) => P.Tuple([P.Str("object"), P.Tuple(TupledMembers(k))])
  }

  function TupledItems(k: Key): (ts: seq<P.Py>)
    requires k.ArrayKey?
    ensures |ts| == |k.items|
    decreases k, 0
  {
    seq(|k.items|, i requires 0 <= i < |k.items| => Tupled(k.items[i]))
  }

  function TupledMembers(k: Key): (ts: seq<P.Py>)
    requires k.ObjectKey?
    ensures |ts| == |k.members|
    decreases k, 0
  {
    seq(|k.members|, i requires 0 <= i < |k.members| => P.Tuple([P.Str(k.members[i].0), Tupled(k.members[i].1)]))
  }

  lemma {:induction false} TupledInjective(x: Key, y: Key)
    requires Tupled(x) == Tupled(y)
    ensures x == y
  {
    assert Tupled(x).items[0] == Tupled(y).items[0] && Tupled(x).items[1] == Tupled(y).items[1];
    match (x, y)
    case (ArrayKey(a), ArrayKey(b)) =>
      assert TupledItems(x) == TupledItems(y);
      forall i | 0 <= i < |a| ensures a[i] == b[i] {
        assert TupledItems(x)[i] == TupledItems(y)[i];
        TupledInjective(a[i], b[i]);
      }
      assert a == b;
    case (ObjectKey(a), ObjectKey(b)) =>
      assert TupledMembers(x) == TupledMembers(y);
      forall i | 0 <= i < |a| ensures a[i] == b[i] {
        assert TupledMembers(x)[i].items[0] == TupledMembers(y)[i].items[0];
        assert TupledMembers(x)[i].items[1] == TupledMembers(y)[i].items[1];
        TupledInjective(a[i].1, b[i].1);
      }
      assert a == b;
    case _ =>
  }

  /** What the fingerprint hashes. */
  function Printed(k: Key, style: P.Style): string {
    P.Repr(Tupled(k), style)
  }

  lemma {:induction false} PrintedInjective(x: Key, y: Key, style: P.Style)
    requires style.Proper()
    ensures Printed(x, style) == Printed(y, style) <==> x == y
  {
    if Printed(x, style) == Printed(y, style) {
      P.ReprOnce(Tupled(x), Tupled(y), style, "", "");
      TupledInjective(x, y);
    }
  }

  /** Equal printed keys mean the same value up to member order, with every number written alike. */
  lemma PrintedKeyIdentifies(v: Value, w: Value, style: P.Style)
    requires WellFormed(v) && WellFormed(w) && style.Proper()
    ensures Printed(RowKey(v), style) == Printed(RowKey(w), style) <==> Alike(v, w, SAME_DIGITS)
  {
    PrintedInjective(RowKey(v), RowKey(w), style);
    RowKeyIdentifies(v, w, SAME_DIGITS);
    KeysEqualBySameDigits(RowKey(v), RowKey(w));
  }

  /** 1.0 and 1 have equal row keys, but the fingerprint hashes the printed key and so tells them apart. */
  lemma OnePointZeroIsNotOne(style: P.Style)
    requires style.Proper()
    ensures var a, b := Number(P.Decimal(false, 10, -1)), Number(P.Decimal(false, 1, 0));
      KeysEqual(RowKey(a), RowKey(b), SAME_VALUE) && Printed(RowKey(a), style) != Printed(RowKey(b), style)
  {
    assert Power10(1) == 10;
    PrintedInjective(NumberKey(P.Decimal(false, 10, -1)), NumberKey(P.Decimal(false, 1, 0)), style);
  }
}

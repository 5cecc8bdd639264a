/** The four-tier matcher that proposes old -> new finding mappings between two audit reports. */
module MatchLadder {
  import opened Findings

  datatype Tier = ByFingerprint | ByPathAndCwe | ByPathSet | ByTitle

  datatype Match = Match(newId: string, tier: Tier)

  /** `mapped` is keyed by old id, in insertion order `order`; `taken` holds the claimed new ids. */
  datatype Ladder = Ladder(mapped: map<string, Match>, order: seq<string>, taken: set<string>) {

    /** The mapping is an injective partial map whose range is exactly `taken`. */
    ghost predicate Valid() {
      && (forall i, j :: 0 <= i < j < |order| ==> order[i] != order[j])
      && (forall id :: id in order <==> id in mapped)
      && OneToOne()
    }

    ghost predicate OneToOne() {
      && (forall id :: id in mapped ==> mapped[id].newId in taken)
      && (forall x :: x in taken ==> exists id :: id in mapped && mapped[id].newId == x)
      && (forall a, b :: a in mapped && b in mapped && mapped[a].newId == mapped[b].newId ==> a == b)
    }

    function Claim(oldId: string, newId: string, tier: Tier): (r: Ladder)
      requires Valid() && oldId !in mapped && newId !in taken
      ensures r.Valid()
    {
      var r := Ladder(mapped[oldId := Match(newId, tier)], order + [oldId], taken + {newId});
      assert r.Valid() by { ClaimKeepsValid(oldId, r, Match(newId, tier)); }
      r
    }

    lemma ClaimKeepsValid(oldId: string, r: Ladder, m: Match)
      requires Valid() && oldId !in mapped && m.newId !in taken
      requires r.mapped == mapped[oldId := m] && r.order == order + [oldId] && r.taken == taken + {m.newId}
      ensures r.Valid()
    {
      assert forall id :: id in r.order <==> id in order || id == oldId;
      forall i, j | 0 <= i < j < |r.order| ensures r.order[i] != r.order[j] {
        assert r.order[i] == order[i] && order[i] in mapped;
      }
      ClaimKeepsOneToOne(oldId, r, m);
    }

    lemma ClaimKeepsOneToOne(oldId: string, r: Ladder, m: Match)
      requires OneToOne() && oldId !in mapped && m.newId !in taken
      requires r.mapped == mapped[oldId := m] && r.taken == taken + {m.newId}
      ensures r.OneToOne()
    {
      forall x | x in r.taken ensures exists id :: id in r.mapped && r.mapped[id].newId == x {
        if x in taken {
          var id :| id in mapped && mapped[id].newId == x;
          assert r.mapped[id].newId == x;
        } else {
          assert r.mapped[oldId].newId == x;
        }
      }
    }
  }

  const EMPTY := Ladder(map[], [], {})

  /** `later` keeps every mapping of `earlier`. */
  ghost predicate Keeps(earlier: Ladder, later: Ladder) {
    && earlier.taken <= later.taken
    && forall id :: id in earlier.mapped ==> id in later.mapped && later.mapped[id] == earlier.mapped[id]
  }

  // --------------------------------------------------------------------------
  // Tiers 1 and 2: a bucket with exactly one free new finding
  // --------------------------------------------------------------------------

  /** How an automatic tier sorts findings into buckets; an old finding without a key takes no part. */
  datatype Bucketing<+K> = Bucketing(oldKey: Finding -> Option<K>, newKey: Finding -> K, tier: Tier)

  /** In `l`, `news[j]` is the only free new finding of bucket `key`. */
  ghost predicate Alone<K>(l: Ladder, news: seq<Finding>, b: Bucketing<K>, key: K, j: nat) {
    && j < |news| && news[j].id !in l.taken && b.newKey(news[j]) == key
    && forall k | 0 <= k < |news| && news[k].id !in l.taken && b.newKey(news[k]) == key :: k == j
  }

  /** Closed form: `olds[i]` is the first unmapped old finding of a bucket whose only free new finding is `news[j]`. */
  ghost predicate Pairs<K>(l: Ladder, olds: seq<Finding>, news: seq<Finding>, b: Bucketing<K>, i: nat, j: nat) {
    && i < |olds| && olds[i].id !in l.mapped && b.oldKey(olds[i]).Some?
    && Alone(l, news, b, b.oldKey(olds[i]).value, j)
    && forall k | 0 <= k < i && olds[k].id !in l.mapped :: b.oldKey(olds[k]) != b.oldKey(olds[i])
  }

  /** `id` was mapped by the closed-form pair of one of the first `n` old findings. */
  ghost predicate FromPair<K>(before: Ladder, m: Match, olds: seq<Finding>, news: seq<Finding>, b: Bucketing<K>, n: nat, id: string)
    requires n <= |olds|
  {
    exists i: nat, j: nat :: i < n && Pairs(before, olds, news, b, i, j) && olds[i].id == id && m == Match(news[j].id, b.tier)
  }

  /** `after` adds to `before` exactly the closed-form pairs of the first `n` old findings. */
  ghost predicate AddsPairs<K>(before: Ladder, after: Ladder, olds: seq<Finding>, news: seq<Finding>, b: Bucketing<K>, n: nat)
    requires n <= |olds|
  {
    && Keeps(before, after)
    && (forall i: nat, j: nat | i < n && Pairs(before, olds, news, b, i, j) ::
          olds[i].id in after.mapped && after.mapped[olds[i].id] == Match(news[j].id, b.tier))
    && (forall id | id in after.mapped && id !in before.mapped :: FromPair(before, after.mapped[id], olds, news, b, n, id))
  }

  /** The indices of the free new findings of one bucket, in report order. */
  method Candidates<K(==)>(l: Ladder, news: seq<Finding>, b: Bucketing<K>, key: K) returns (cands: seq<nat>)
    ensures forall c, d :: 0 <= c < d < |cands| ==> cands[c] < cands[d]
    ensures forall k: nat :: k in cands <==> k < |news| && news[k].id !in l.taken && b.newKey(news[k]) == key
  {
    cands := [];
    for j := 0 to |news|
      invariant forall c, d :: 0 <= c < d < |cands| ==> cands[c] < cands[d]
      invariant forall k: nat :: k in cands <==> k < j && news[k].id !in l.taken && b.newKey(news[k]) == key
    {
      if news[j].id !in l.taken && b.newKey(news[j]) == key {
        assert forall c :: 0 <= c < |cands| ==> cands[c] in cands;
        cands := cands + [j];
      }
    }
  }

  /** One pass over the old findings that claims only unambiguous buckets. */
  method ClaimUnique<K(==)>(before: Ladder, olds: seq<Finding>, news: seq<Finding>, b: Bucketing<K>) returns (l: Ladder)
    requires before.Valid() && DistinctIds(olds) && DistinctIds(news)
    ensures l.Valid() && AddsPairs(before, l, olds, news, b, |olds|)
  {
    hide AddsPairs, Pairs, DistinctIds, Ladder.Valid;
    l := before;
    NoPairsYet(before, olds, news, b);
    for i := 0 to |olds|
      invariant l.Valid() && AddsPairs(before, l, olds, news, b, i)
    {
      var o := olds[i];
      UntouchedSoFar(before, l, olds, news, b, i);
      if o.id in l.mapped || b.oldKey(o).None? {
        SkipStep(before, l, olds, news, b, i);
      } else {
        var cands := Candidates(l, news, b, b.oldKey(o).value);
        BucketStep(before, l, olds, news, b, i, cands);
        if |cands| == 1 {
          assert cands[0] in cands;
          ghost var was := l;
          l := l.Claim(o.id, news[cands[0]].id, b.tier);
          ClaimStep(before, was, l, olds, news, b, i, cands[0]);
        } else {
          SkipStep(before, l, olds, news, b, i);
        }
      }
    }
  }

  lemma NoPairsYet<K>(before: Ladder, olds: seq<Finding>, news: seq<Finding>, b: Bucketing<K>)
    ensures AddsPairs(before, before, olds, news, b, 0)
  {
  }

  /** The next old finding is mapped only if it was before the pass; then, or without a key, it has no pair. */
  lemma UntouchedSoFar<K>(before: Ladder, l: Ladder, olds: seq<Finding>, news: seq<Finding>, b: Bucketing<K>, i: nat)
    requires i < |olds| && DistinctIds(olds) && AddsPairs(before, l, olds, news, b, i)
    ensures olds[i].id in l.mapped <==> olds[i].id in before.mapped
    ensures olds[i].id in before.mapped || b.oldKey(olds[i]).None? ==> forall j: nat :: !Pairs(before, olds, news, b, i, j)
  {
    hide Alone;
  }

  lemma SkipStep<K>(before: Ladder, l: Ladder, olds: seq<Finding>, news: seq<Finding>, b: Bucketing<K>, i: nat)
    requires i < |olds| && AddsPairs(before, l, olds, news, b, i)
    requires forall j: nat :: !Pairs(before, olds, news, b, i, j)
    ensures AddsPairs(before, l, olds, news, b, i + 1)
  {
    assert forall id, m :: FromPair(before, m, olds, news, b, i, id) ==> FromPair(before, m, olds, news, b, i + 1, id);
  }

  lemma ClaimStep<K>(before: Ladder, l: Ladder, next: Ladder, olds: seq<Finding>, news: seq<Finding>, b: Bucketing<K>, i: nat, j: nat)
    requires i < |olds| && j < |news| && AddsPairs(before, l, olds, news, b, i) && olds[i].id !in l.mapped
    requires Pairs(before, olds, news, b, i, j) && OnlyPair(before, olds, news, b, i, j)
    requires next.mapped == l.mapped[olds[i].id := Match(news[j].id, b.tier)] && l.taken <= next.taken
    ensures AddsPairs(before, next, olds, news, b, i + 1)
  {
    hide Pairs;
    assert forall id, m :: FromPair(before, m, olds, news, b, i, id) ==> FromPair(before, m, olds, news, b, i + 1, id);
    assert FromPair(before, Match(news[j].id, b.tier), olds, news, b, i + 1, olds[i].id);
  }

  ghost predicate OnlyPair<K>(l: Ladder, olds: seq<Finding>, news: seq<Finding>, b: Bucketing<K>, i: nat, j: nat) {
    forall k: nat | Pairs(l, olds, news, b, i, k) :: k == j
  }

  /** The candidates seen in the middle of the pass are one in number exactly for a closed-form pair. */
  lemma BucketStep<K>(before: Ladder, l: Ladder, olds: seq<Finding>, news: seq<Finding>, b: Bucketing<K>, i: nat, cands: seq<nat>)
    requires before.Valid() && l.Valid() && DistinctIds(olds) && DistinctIds(news)
    requires i < |olds| && olds[i].id !in before.mapped && b.oldKey(olds[i]).Some?
    requires AddsPairs(before, l, olds, news, b, i)
    requires forall c, d :: 0 <= c < d < |cands| ==> cands[c] < cands[d]
    requires forall k: nat :: k in cands <==> k < |news| && news[k].id !in l.taken && b.newKey(news[k]) == b.oldKey(olds[i]).value
    ensures |cands| == 1 ==> Pairs(before, olds, news, b, i, cands[0])
    ensures forall j: nat :: Pairs(before, olds, news, b, i, j) ==> |cands| == 1 && cands[0] == j
  {
    var key := b.oldKey(olds[i]).value;
    if |cands| == 1 {
      var j := cands[0];
      assert j in cands;
      forall k: nat | k < |news| && news[k].id !in before.taken && b.newKey(news[k]) == key
        ensures k == j
      {
        if news[k].id in l.taken {
          TakenAlone(before, l, olds, news, b, i, key, k);
        } else {
          assert k in cands;
        }
      }
      FirstOfBucket(before, l, olds, news, b, i, j);
    }
    forall j: nat | Pairs(before, olds, news, b, i, j)
      ensures |cands| == 1 && cands[0] == j
    {
      if news[j].id in l.taken {
        TakenAlone(before, l, olds, news, b, i, key, j);
      }
      assert j in cands;
      assert |cands| > 1 ==> cands[0] < cands[1];
      forall c | 0 <= c < |cands| ensures cands[c] == j {
        assert cands[c] in cands;
      }
    }
  }

  /** Whatever the pass took from a bucket was alone there, for an earlier old finding of the bucket. */
  lemma TakenAlone<K>(before: Ladder, l: Ladder, olds: seq<Finding>, news: seq<Finding>, b: Bucketing<K>, i: nat, key: K, k: nat)
    requires l.Valid() && DistinctIds(news) && before.Valid()
    requires i < |olds| && AddsPairs(before, l, olds, news, b, i)
    requires k < |news| && news[k].id in l.taken && news[k].id !in before.taken && b.newKey(news[k]) == key
    ensures Alone(before, news, b, key, k)
    ensures exists a :: 0 <= a < i && olds[a].id !in before.mapped && b.oldKey(olds[a]) == Some(key)
  {
    var id :| id in l.mapped && l.mapped[id].newId == news[k].id;
    var a: nat, c: nat :| a < i && Pairs(before, olds, news, b, a, c) && olds[a].id == id && l.mapped[id] == Match(news[c].id, b.tier);
    assert c == k;
  }

  /** An earlier unmapped old finding of the same bucket would have taken `news[j]` already. */
  lemma FirstOfBucket<K>(before: Ladder, l: Ladder, olds: seq<Finding>, news: seq<Finding>, b: Bucketing<K>, i: nat, j: nat)
    requires l.Valid() && i < |olds| && b.oldKey(olds[i]).Some?
    requires Alone(before, news, b, b.oldKey(olds[i]).value, j) && news[j].id !in l.taken
    requires AddsPairs(before, l, olds, news, b, i)
    ensures forall k | 0 <= k < i && olds[k].id !in before.mapped :: b.oldKey(olds[k]) != b.oldKey(olds[i])
  {
    var k := 0;
    while k < i
      invariant 0 <= k <= i
      invariant forall m | 0 <= m < k && olds[m].id !in before.mapped :: b.oldKey(olds[m]) != b.oldKey(olds[i])
    {
      assert olds[k].id !in before.mapped && b.oldKey(olds[k]) == b.oldKey(olds[i]) ==> Pairs(before, olds, news, b, k, j);
      k := k + 1;
    }
  }

  /** The closed form leaves no freedom: it determines the mapping. */
  lemma {:induction false} PairsDetermine<K>(before: Ladder, x: Ladder, y: Ladder, olds: seq<Finding>, news: seq<Finding>, b: Bucketing<K>)
    requires AddsPairs(before, x, olds, news, b, |olds|) && AddsPairs(before, y, olds, news, b, |olds|)
    ensures x.mapped == y.mapped
  {
    forall id | id in x.mapped ensures id in y.mapped && x.mapped[id] == y.mapped[id] {
      assert id !in before.mapped ==> FromPair(before, x.mapped[id], olds, news, b, |olds|, id);
    }
    forall id | id in y.mapped ensures id in x.mapped {
      assert id !in before.mapped ==> FromPair(before, y.mapped[id], olds, news, b, |olds|, id);
    }
  }

  // --------------------------------------------------------------------------
  // Tiers 2b and 3: every old finding in turn takes its best free new finding
  // --------------------------------------------------------------------------

  /** Primary score (tested against the threshold) and tie-breaking score. */
  datatype Score = Score(primary: real, secondary: real)

  predicate Better(a: Score, b: Score) {
    a.primary > b.primary || (a.primary == b.primary && a.secondary > b.secondary)
  }

  /** A reviewed tier: which old findings take part, how pairs are scored, what is good enough. */
  datatype Scoring = Scoring(eligible: Finding -> bool, score: (Finding, Finding) -> Score, threshold: real, tier: Tier) {
    predicate Acceptable(o: Finding, n: Finding) {
      eligible(o) && score(o, n).primary >= threshold
    }

    /** `o` would rather have `news[j]` than `news[k]`; among equals the first in report order wins. */
    predicate Prefers(o: Finding, news: seq<Finding>, j: nat, k: nat)
      requires j < |news| && k < |news|
    {
      && Acceptable(o, news[j])
      && (Better(score(o, news[j]), score(o, news[k])) || (score(o, news[j]) == score(o, news[k]) && j < k))
    }
  }

  /** Some old finding before `olds[i]` claimed `newId` in this pass. */
  ghost predicate ClaimedEarlier(before: Ladder, after: Ladder, olds: seq<Finding>, i: nat, newId: string)
    requires i <= |olds|
  {
    exists k :: 0 <= k < i && olds[k].id !in before.mapped && olds[k].id in after.mapped && after.mapped[olds[k].id].newId == newId
  }

  /** The choice of `olds[i]`: nothing it prefers was left, and it goes without only if nothing acceptable was left. */
  ghost predicate BestLeft(before: Ladder, after: Ladder, olds: seq<Finding>, news: seq<Finding>, s: Scoring, i: nat)
    requires i < |olds|
  {
    var o := olds[i];
    if o.id in after.mapped then
      exists j :: 0 <= j < |news| && news[j].id !in before.taken && s.Acceptable(o, news[j])
        && after.mapped[o.id] == Match(news[j].id, s.tier)
        && forall k | 0 <= k < |news| && news[k].id !in before.taken && s.Prefers(o, news, k, j) ::
             ClaimedEarlier(before, after, olds, i, news[k].id)
    else
      forall k | 0 <= k < |news| && news[k].id !in before.taken && s.Acceptable(o, news[k]) ::
        ClaimedEarlier(before, after, olds, i, news[k].id)
  }

  /** Serial choice: the first `n` old findings chose in report order, and nobody else was mapped. */
  ghost predicate SerialChoice(before: Ladder, after: Ladder, olds: seq<Finding>, news: seq<Finding>, s: Scoring, n: nat)
    requires n <= |olds|
  {
    && Keeps(before, after)
    && MapsOnly(before, after, olds, n)
    && AllBestLeft(before, after, olds, news, s, n)
  }

  /** Only the first `n` old findings were mapped in this pass. */
  ghost predicate MapsOnly(before: Ladder, after: Ladder, olds: seq<Finding>, n: nat)
    requires n <= |olds|
  {
    forall id | id in after.mapped && id !in before.mapped :: exists i :: 0 <= i < n && olds[i].id == id
  }

  ghost predicate AllBestLeft(before: Ladder, after: Ladder, olds: seq<Finding>, news: seq<Finding>, s: Scoring, n: nat)
    requires n <= |olds|
  {
    forall i | 0 <= i < n && olds[i].id !in before.mapped :: BestLeft(before, after, olds, news, s, i)
  }

  /** The first best acceptable free new finding of `o`. */
  method PickBest(l: Ladder, o: Finding, news: seq<Finding>, s: Scoring) returns (best: Option<nat>)
    ensures best.Some? ==> best.value < |news| && news[best.value].id !in l.taken && s.Acceptable(o, news[best.value])
    ensures best.Some? ==> forall k | 0 <= k < |news| && s.Prefers(o, news, k, best.value) :: news[k].id in l.taken
    ensures best.None? ==> forall k | 0 <= k < |news| && s.Acceptable(o, news[k]) :: news[k].id in l.taken
  {
    best := None;
    for j := 0 to |news|
      invariant best.Some? ==> best.value < j && news[best.value].id !in l.taken && s.Acceptable(o, news[best.value])
      invariant best.Some? ==> forall k | 0 <= k < j && s.Prefers(o, news, k, best.value) :: news[k].id in l.taken
      invariant best.None? ==> forall k | 0 <= k < j && s.Acceptable(o, news[k]) :: news[k].id in l.taken
    {
      if news[j].id !in l.taken && s.Acceptable(o, news[j]) {
        if best.None? || Better(s.score(o, news[j]), s.score(o, news[best.value])) {
          best := Some(j);
        }
      }
    }
  }

  /** One pass over the old findings in which each takes its best free new finding. */
  method ClaimBest(before: Ladder, olds: seq<Finding>, news: seq<Finding>, s: Scoring) returns (l: Ladder)
    requires before.Valid() && DistinctIds(olds) && DistinctIds(news)
    ensures l.Valid() && SerialChoice(before, l, olds, news, s, |olds|)
  {
    l := before;
    for i := 0 to |olds|
      invariant l.Valid() && SerialChoice(before, l, olds, news, s, i)
    {
      ghost var was := l;
      assert olds[i].id in l.mapped <==> olds[i].id in before.mapped;
      if olds[i].id !in l.mapped {
        var best := PickBest(l, olds[i], news, s);
        if best.Some? {
          l := l.Claim(olds[i].id, news[best.value].id, s.tier);
        }
        TakenInPass(before, was, l, olds, news, s, i);
        assert BestLeft(before, l, olds, news, s, i);
      }
      ChoiceStep(before, was, l, olds, news, s, i);
    }
  }

  /** Between `was` and `l` at most `olds[i]` was mapped. */
  ghost predicate OneStep(was: Ladder, l: Ladder, olds: seq<Finding>, i: nat)
    requires i < |olds|
  {
    Keeps(was, l) && forall id | id in l.mapped && id !in was.mapped :: id == olds[i].id
  }

  lemma ChoiceStep(before: Ladder, was: Ladder, l: Ladder, olds: seq<Finding>, news: seq<Finding>, s: Scoring, i: nat)
    requires i < |olds| && DistinctIds(olds) && SerialChoice(before, was, olds, news, s, i) && OneStep(was, l, olds, i)
    requires olds[i].id !in before.mapped ==> BestLeft(before, l, olds, news, s, i)
    ensures SerialChoice(before, l, olds, news, s, i + 1)
  {
    MapsOnlyStep(before, was, l, olds, i);
    AllBestStep(before, was, l, olds, news, s, i);
  }

  lemma MapsOnlyStep(before: Ladder, was: Ladder, l: Ladder, olds: seq<Finding>, i: nat)
    requires i < |olds| && MapsOnly(before, was, olds, i) && OneStep(was, l, olds, i)
    ensures MapsOnly(before, l, olds, i + 1)
  {
    forall id | id in l.mapped && id !in before.mapped ensures exists k :: 0 <= k < i + 1 && olds[k].id == id {
      if id in was.mapped {
        var k :| 0 <= k < i && olds[k].id == id;
      }
    }
  }

  lemma AllBestStep(before: Ladder, was: Ladder, l: Ladder, olds: seq<Finding>, news: seq<Finding>, s: Scoring, i: nat)
    requires i < |olds| && DistinctIds(olds) && OneStep(was, l, olds, i) && AllBestLeft(before, was, olds, news, s, i)
    requires olds[i].id !in before.mapped ==> BestLeft(before, l, olds, news, s, i)
    ensures AllBestLeft(before, l, olds, news, s, i + 1)
  {
    forall k | 0 <= k < i + 1 && olds[k].id !in before.mapped ensures BestLeft(before, l, olds, news, s, k) {
      if k < i {
        BestLeftStays(before, was, l, olds, news, s, k);
      }
    }
  }

  /** A new finding that became taken during the pass was claimed by an earlier old finding. */
  lemma TakenInPass(before: Ladder, l: Ladder, later: Ladder, olds: seq<Finding>, news: seq<Finding>, s: Scoring, i: nat)
    requires before.Valid() && l.Valid() && Keeps(l, later)
    requires i < |olds| && SerialChoice(before, l, olds, news, s, i)
    ensures forall x | x in l.taken && x !in before.taken :: ClaimedEarlier(before, later, olds, i, x)
  {
    forall x | x in l.taken && x !in before.taken ensures ClaimedEarlier(before, later, olds, i, x) {
      var id :| id in l.mapped && l.mapped[id].newId == x;
      assert id !in before.mapped;
      var k :| 0 <= k < i && olds[k].id == id;
    }
  }

  lemma BestLeftStays(before: Ladder, l: Ladder, later: Ladder, olds: seq<Finding>, news: seq<Finding>, s: Scoring, k: nat)
    requires k < |olds| && Keeps(l, later) && BestLeft(before, l, olds, news, s, k)
    requires olds[k].id in later.mapped ==> olds[k].id in l.mapped
    ensures BestLeft(before, later, olds, news, s, k)
  {
    assert forall x :: ClaimedEarlier(before, l, olds, k, x) ==> ClaimedEarlier(before, later, olds, k, x);
  }

  /** Both passes chose the same new finding, or none, for `o`. */
  ghost predicate SameChoice(x: Ladder, y: Ladder, o: Finding) {
    (o.id in x.mapped <==> o.id in y.mapped) && (o.id in x.mapped ==> x.mapped[o.id] == y.mapped[o.id])
  }

  /** Serial choice leaves no freedom either. */
  lemma {:induction false} ChoiceDetermines(before: Ladder, x: Ladder, y: Ladder, olds: seq<Finding>, news: seq<Finding>, s: Scoring)
    requires DistinctIds(olds) && DistinctIds(news) && x.Valid() && y.Valid()
    requires SerialChoice(before, x, olds, news, s, |olds|) && SerialChoice(before, y, olds, news, s, |olds|)
    ensures x.mapped == y.mapped
  {
    SameChoices(before, x, y, olds, news, s, |olds|);
    SameMapping(before, x, y, olds);
  }

  lemma SameMapping(before: Ladder, x: Ladder, y: Ladder, olds: seq<Finding>)
    requires Keeps(before, x) && Keeps(before, y)
    requires MapsOnly(before, x, olds, |olds|) && MapsOnly(before, y, olds, |olds|)
    requires forall k | 0 <= k < |olds| :: SameChoice(x, y, olds[k])
    ensures x.mapped == y.mapped
  {
    forall id ensures id in x.mapped <==> id in y.mapped {
    }
    forall id | id in x.mapped ensures x.mapped[id] == y.mapped[id] {
    }
  }

  lemma {:induction false} SameChoices(before: Ladder, x: Ladder, y: Ladder, olds: seq<Finding>, news: seq<Finding>, s: Scoring, n: nat)
    requires n <= |olds| && DistinctIds(olds) && DistinctIds(news) && x.Valid() && y.Valid()
    requires Keeps(before, x) && Keeps(before, y)
    requires AllBestLeft(before, x, olds, news, s, n) && AllBestLeft(before, y, olds, news, s, n)
    ensures forall k | 0 <= k < n :: SameChoice(x, y, olds[k])
  {
    hide BestLeft, DistinctIds, Ladder.Valid, ClaimedEarlier;
    if n > 0 {
      var i := n - 1;
      SameChoices(before, x, y, olds, news, s, i);
      if olds[i].id !in before.mapped {
        SameEarlier(before, x, y, olds, i);
        if olds[i].id in x.mapped {
          SameBest(before, x, y, olds, news, s, i);
        }
        if olds[i].id in y.mapped {
          SameBest(before, y, x, olds, news, s, i);
        }
      }
    }
  }

  lemma SameEarlier(before: Ladder, x: Ladder, y: Ladder, olds: seq<Finding>, i: nat)
    requires i <= |olds| && forall k | 0 <= k < i :: SameChoice(x, y, olds[k])
    ensures forall n :: ClaimedEarlier(before, x, olds, i, n) <==> ClaimedEarlier(before, y, olds, i, n)
  {
    assert forall k | 0 <= k < i :: SameChoice(x, y, olds[k]);
  }

  /** The choice of `olds[i]` was not made by an earlier old finding. */
  lemma OwnChoice(before: Ladder, l: Ladder, olds: seq<Finding>, i: nat)
    requires i < |olds| && DistinctIds(olds) && l.Valid() && olds[i].id in l.mapped
    ensures !ClaimedEarlier(before, l, olds, i, l.mapped[olds[i].id].newId)
  {
  }

  lemma {:induction false} SameBest(before: Ladder, x: Ladder, y: Ladder, olds: seq<Finding>, news: seq<Finding>, s: Scoring, i: nat)
    requires i < |olds| && DistinctIds(olds) && DistinctIds(news) && x.Valid() && y.Valid()
    requires olds[i].id !in before.mapped && olds[i].id in x.mapped
    requires BestLeft(before, x, olds, news, s, i) && BestLeft(before, y, olds, news, s, i)
    requires forall n :: ClaimedEarlier(before, x, olds, i, n) <==> ClaimedEarlier(before, y, olds, i, n)
    ensures olds[i].id in y.mapped && y.mapped[olds[i].id] == x.mapped[olds[i].id]
  {
    var o := olds[i];
    var j := BestOf(before, x, olds, news, s, i);
    MappedToo(before, x, y, olds, news, s, i, j);
    var k := BestOf(before, y, olds, news, s, i);
    hide ClaimedEarlier, DistinctIds, Ladder.Valid, BestLeft;
    assert !s.Prefers(o, news, k, j) && !s.Prefers(o, news, j, k);
  }

  /** The choice of `olds[i]`, and what it preferred: both are told apart by the earlier claims. */
  lemma {:induction false} BestOf(before: Ladder, l: Ladder, olds: seq<Finding>, news: seq<Finding>, s: Scoring, i: nat) returns (j: nat)
    requires i < |olds| && DistinctIds(olds) && l.Valid() && olds[i].id in l.mapped && BestLeft(before, l, olds, news, s, i)
    ensures j < |news| && news[j].id !in before.taken && s.Acceptable(olds[i], news[j]) && l.mapped[olds[i].id] == Match(news[j].id, s.tier)
    ensures forall k | 0 <= k < |news| && news[k].id !in before.taken && s.Prefers(olds[i], news, k, j) :: ClaimedEarlier(before, l, olds, i, news[k].id)
    ensures !ClaimedEarlier(before, l, olds, i, news[j].id)
  {
    OwnChoice(before, l, olds, i);
    hide ClaimedEarlier, DistinctIds, Ladder.Valid;
    j :| 0 <= j < |news| && news[j].id !in before.taken && s.Acceptable(olds[i], news[j]) && l.mapped[olds[i].id] == Match(news[j].id, s.tier)
      && forall k | 0 <= k < |news| && news[k].id !in before.taken && s.Prefers(olds[i], news, k, j) :: ClaimedEarlier(before, l, olds, i, news[k].id);
  }

  lemma {:induction false} MappedToo(before: Ladder, x: Ladder, y: Ladder, olds: seq<Finding>, news: seq<Finding>, s: Scoring, i: nat, j: nat)
    requires i < |olds| && j < |news| && news[j].id !in before.taken && s.Acceptable(olds[i], news[j])
    requires BestLeft(before, y, olds, news, s, i) && !ClaimedEarlier(before, x, olds, i, news[j].id)
    requires forall n :: ClaimedEarlier(before, x, olds, i, n) <==> ClaimedEarlier(before, y, olds, i, n)
    ensures olds[i].id in y.mapped
  {
    hide ClaimedEarlier;
  }

  // --------------------------------------------------------------------------
  // The ladder
  // --------------------------------------------------------------------------

  /** Jaccard overlap of two path sets. */
  function Overlap(a: set<string>, b: set<string>): real {
    if |a + b| == 0 then 0.0 else |a * b| as real / |a + b| as real
  }

  function PathScoring(recipe: Recipe): Scoring {
    Scoring((o: Finding) => o.content.paths != {},
            (o: Finding, n: Finding) => Score(Overlap(o.content.paths, n.content.paths),
                                              recipe.titleSimilarity(o.content.title, n.content.title)),
            0.5, ByPathSet)
  }

  function TitleScoring(recipe: Recipe): Scoring {
    Scoring((o: Finding) => true,
            (o: Finding, n: Finding) => Score(recipe.titleSimilarity(o.content.title, n.content.title), 0.0),
            0.6, ByTitle)
  }

  function StampBuckets(recipe: Recipe, oldRepository: string, newRepository: string): Bucketing<string> {
    Bucketing((f: Finding) => Some(Fingerprint(recipe, f, oldRepository)),
              (f: Finding) => Fingerprint(recipe, f, newRepository), ByFingerprint)
  }

  const PATH_AND_CWE: Bucketing<(set<string>, string)> :=
    Bucketing((f: Finding) => if f.content.paths == {} then None else Some((f.content.paths, f.content.cwe)),
              (f: Finding) => (f.content.paths, f.content.cwe), ByPathAndCwe)

  function Stamped(recipe: Recipe, f: Finding, repository: string): string {
    if f.stamp == "" then recipe.fingerprint(f.content, repository) else f.stamp
  }

  predicate SamePlace(o: Finding, n: Finding) {
    o.content.paths != {} && o.content.paths == n.content.paths && o.content.cwe == n.content.cwe
  }

  /** At least half of the paths that either finding names are named by both. */
  predicate HalfShared(o: Finding, n: Finding) {
    o.content.paths != {} && 2 * |o.content.paths * n.content.paths| >= |o.content.paths + n.content.paths|
  }

  /** `a` shares a larger part of its paths with `o` than `b`, or as large a part and has a closer title. */
  predicate Closer(recipe: Recipe, o: Finding, a: Finding, b: Finding) {
    var forA := |o.content.paths * a.content.paths| * |o.content.paths + b.content.paths|;
    var forB := |o.content.paths * b.content.paths| * |o.content.paths + a.content.paths|;
    forA > forB || (forA == forB && TitleCloser(recipe, o, a, b))
  }

  predicate TitleCloser(recipe: Recipe, o: Finding, a: Finding, b: Finding) {
    recipe.titleSimilarity(o.content.title, a.content.title) > recipe.titleSimilarity(o.content.title, b.content.title)
  }

  /** What the ladder hands to the rebaseline. */
  datatype MatchResult = MatchResult(ladder: Ladder, unmatchedOld: seq<string>, unmatchedNew: seq<string>)

  /** `kept` lists, in report order, the ids of `fs` outside `gone`. */
  function Remaining(fs: seq<Finding>, gone: set<string>): (kept: seq<string>)
    ensures forall id :: id in kept <==> id in Ids(fs) && id !in gone
  {
    if fs == [] then []
    else
      var rest := Remaining(fs[..|fs| - 1], gone);
      var last := fs[|fs| - 1];
      assert fs == fs[..|fs| - 1] + [last];
      assert forall id :: id in Ids(fs) <==> id in Ids(fs[..|fs| - 1]) || id == last.id;
      if last.id in gone then rest else rest + [last.id]
  }

  /** The remaining ids keep the report's order and its repetitions. */
  lemma {:induction false} RemainingInOrder(a: seq<Finding>, b: seq<Finding>, gone: set<string>)
    ensures Remaining(a + b, gone) == Remaining(a, gone) + Remaining(b, gone)
    decreases |b|
  {
    hide Remaining, Ids;
    if b == [] {
      assert a + b == a;
      NoneRemain(gone);
    } else {
      var n := |b| - 1;
      RemainingInOrder(a, b[..n], gone);
      RemainingStep(a + b[..n], b[n], gone);
      RemainingStep(b[..n], b[n], gone);
      assert a + b == (a + b[..n]) + [b[n]] && b == b[..n] + [b[n]];
    }
  }

  lemma RemainingStep(fs: seq<Finding>, f: Finding, gone: set<string>)
    ensures Remaining(fs + [f], gone) == Remaining(fs, gone) + if f.id in gone then [] else [f.id]
  {
    hide Ids;
    assert (fs + [f])[..|fs|] == fs;
  }

  lemma NoneRemain(gone: set<string>)
    ensures Remaining([], gone) == []
  {
  }

  /** The map partitions both reports into mapped and unmatched findings. */
  ghost predicate Partitions(r: MatchResult, olds: seq<Finding>, news: seq<Finding>) {
    && r.ladder.mapped.Keys <= Ids(olds) && r.ladder.taken <= Ids(news)
    && r.unmatchedOld == Remaining(olds, r.ladder.mapped.Keys)
    && r.unmatchedNew == Remaining(news, r.ladder.taken)
  }

  /** No pair the two loosest tiers would accept is left over. */
  ghost predicate NothingAcceptableLeft(recipe: Recipe, l: Ladder, olds: seq<Finding>, news: seq<Finding>) {
    forall o, n | o in olds && n in news && o.id !in l.mapped && n.id !in l.taken ::
      && recipe.titleSimilarity(o.content.title, n.content.title) < 0.6
      && !HalfShared(o, n)
  }

  /** What the four tiers, one after the other, can return: `l1` to `l3` are the ladders between them. */
  ghost predicate ClimbedBy(recipe: Recipe, old_: Report, new_: Report, l1: Ladder, l2: Ladder, l3: Ladder, r: MatchResult) {
    var olds, news := old_.findings, new_.findings;
    && l1.Valid() && l2.Valid() && l3.Valid() && r.ladder.Valid() && Partitions(r, olds, news)
    && AddsPairs(EMPTY, l1, olds, news, StampBuckets(recipe, old_.repository, new_.repository), |olds|)
    && AddsPairs(l1, l2, olds, news, PATH_AND_CWE, |olds|)
    && SerialChoice(l2, l3, olds, news, PathScoring(recipe), |olds|)
    && SerialChoice(l3, r.ladder, olds, news, TitleScoring(recipe), |olds|)
  }

  method MatchFindings(recipe: Recipe, old_: Report, new_: Report)
    returns (r: MatchResult, ghost l1: Ladder, ghost l2: Ladder, ghost l3: Ladder)
    requires DistinctIds(old_.findings) && DistinctIds(new_.findings)
    ensures l1.Valid() && l2.Valid() && l3.Valid() && r.ladder.Valid() && Partitions(r, old_.findings, new_.findings)
    ensures AddsPairs(EMPTY, l1, old_.findings, new_.findings,
                      StampBuckets(recipe, old_.repository, new_.repository), |old_.findings|)
    ensures AddsPairs(l1, l2, old_.findings, new_.findings, PATH_AND_CWE, |old_.findings|)
    ensures SerialChoice(l2, l3, old_.findings, new_.findings, PathScoring(recipe), |old_.findings|)
    ensures SerialChoice(l3, r.ladder, old_.findings, new_.findings, TitleScoring(recipe), |old_.findings|)
    ensures NothingAcceptableLeft(recipe, r.ladder, old_.findings, new_.findings)
  {
    var olds, news := old_.findings, new_.findings;
    var stamps := StampBuckets(recipe, old_.repository, new_.repository);
    var t1 := ClaimUnique(EMPTY, olds, news, stamps);
    var t2 := ClaimUnique(t1, olds, news, PATH_AND_CWE);
    var t3 := ClaimBest(t2, olds, news, PathScoring(recipe));
    var t4 := ClaimBest(t3, olds, news, TitleScoring(recipe));
    r := MatchResult(t4, Remaining(olds, t4.mapped.Keys), Remaining(news, t4.taken));
    l1, l2, l3 := t1, t2, t3;
    assert InRange(t4, olds, news) by {
      UniqueInRange(EMPTY, t1, olds, news, stamps);
      UniqueInRange(t1, t2, olds, news, PATH_AND_CWE);
      BestInRange(t2, t3, olds, news, PathScoring(recipe));
      BestInRange(t3, t4, olds, news, TitleScoring(recipe));
    }
    LadderLeavesNothing(recipe, t2, t3, t4, olds, news);
  }

  /** `r` is a result of the ladder on these reports. */
  ghost predicate FromLadder(recipe: Recipe, old_: Report, new_: Report, r: MatchResult) {
    exists l1, l2, l3 :: ClimbedBy(recipe, old_, new_, l1, l2, l3, r)
  }

  // --------------------------------------------------------------------------
  // What each tier means, in terms of the findings alone
  // --------------------------------------------------------------------------

  /** Why a tier pairs two findings. */
  predicate Reasoned(recipe: Recipe, old_: Report, new_: Report, tier: Tier, o: Finding, n: Finding) {
    match tier
    case ByFingerprint => Stamped(recipe, o, old_.repository) == Stamped(recipe, n, new_.repository)
    case ByPathAndCwe => SamePlace(o, n)
    case ByPathSet => HalfShared(o, n)
    case ByTitle => recipe.titleSimilarity(o.content.title, n.content.title) >= 0.6
  }

  /** Why `o` would not be paired with `n` while `other` is free. */
  predicate Rivals(recipe: Recipe, old_: Report, new_: Report, tier: Tier, o: Finding, n: Finding, other: Finding) {
    match tier
    case ByFingerprint => Reasoned(recipe, old_, new_, tier, o, other)
    case ByPathAndCwe => Reasoned(recipe, old_, new_, tier, o, other)
    case ByPathSet => Closer(recipe, o, other, n)
    case ByTitle => TitleCloser(recipe, o, other, n)
  }

  /** The match of `o` has its tier's reason, and no new finding that stayed free rivals it. */
  ghost predicate Explained(recipe: Recipe, old_: Report, new_: Report, l: Ladder, o: Finding)
    requires o.id in l.mapped
  {
    exists n :: n in new_.findings && n.id == l.mapped[o.id].newId && Reasoned(recipe, old_, new_, l.mapped[o.id].tier, o, n)
      && forall other | other in new_.findings && other.id !in l.taken :: !Rivals(recipe, old_, new_, l.mapped[o.id].tier, o, n, other)
  }

  /** Every match of the ladder is explained by the findings. */
  lemma MatchesExplained(recipe: Recipe, old_: Report, new_: Report, r: MatchResult, o: Finding)
    requires FromLadder(recipe, old_, new_, r) && DistinctIds(old_.findings) && DistinctIds(new_.findings)
    requires o in old_.findings && o.id in r.ladder.mapped
    ensures Explained(recipe, old_, new_, r.ladder, o)
  {
    hide AddsPairs, SerialChoice, Explained, DistinctIds, Ladder.Valid, Partitions, Keeps, BucketsBy, ScoresBy, StampBuckets, PathScoring, TitleScoring;
    var l1, l2, l3 :| ClimbedBy(recipe, old_, new_, l1, l2, l3, r);
    LadderGrows(recipe, old_, new_, l1, l2, l3, r);
    BucketsMeanTiers(recipe, old_, new_);
    ScoresMeanTiers(recipe, old_, new_);
    if o.id in l1.mapped {
      PairExplained(recipe, old_, new_, EMPTY, l1, r.ladder, StampBuckets(recipe, old_.repository, new_.repository), o);
    } else if o.id in l2.mapped {
      PairExplained(recipe, old_, new_, l1, l2, r.ladder, PATH_AND_CWE, o);
    } else if o.id in l3.mapped {
      ChoiceExplained(recipe, old_, new_, l2, l3, r.ladder, PathScoring(recipe), o);
    } else {
      ChoiceExplained(recipe, old_, new_, l3, r.ladder, r.ladder, TitleScoring(recipe), o);
    }
  }

  /** The ladder of the tiers before `tier`: `id` was mapped, or was taken, by one of them. */
  predicate MappedBefore(l: Ladder, tier: Tier, id: string) {
    id in l.mapped && tier != ByFingerprint && l.mapped[id].tier == ByFingerprint
  }

  ghost predicate TakenBefore(l: Ladder, tier: Tier, newId: string) {
    exists id :: MappedBefore(l, tier, id) && l.mapped[id].newId == newId
  }

  /**
   * What was left by the tiers before pairs `olds[i]` and `news[j]` beyond doubt: `news[j]` is the only new
   * finding with the tier's reason for `olds[i]`, which is the first old finding that has it for `news[j]`.
   */
  ghost predicate Undoubted(recipe: Recipe, old_: Report, new_: Report, l: Ladder, tier: Tier, i: nat, j: nat)
    requires i < |old_.findings| && j < |new_.findings|
  {
    var olds, news := old_.findings, new_.findings;
    && !MappedBefore(l, tier, olds[i].id) && !TakenBefore(l, tier, news[j].id) && Reasoned(recipe, old_, new_, tier, olds[i], news[j])
    && (forall k | 0 <= k < |news| && !TakenBefore(l, tier, news[k].id) && Reasoned(recipe, old_, new_, tier, olds[i], news[k]) :: k == j)
    && forall k | 0 <= k < i && !MappedBefore(l, tier, olds[k].id) :: !Reasoned(recipe, old_, new_, tier, olds[k], news[j])
  }

  /** The two automatic tiers make exactly the undoubted pairs. */
  lemma UndoubtedExactly(recipe: Recipe, old_: Report, new_: Report, r: MatchResult, tier: Tier, i: nat, j: nat)
    requires FromLadder(recipe, old_, new_, r) && DistinctIds(old_.findings) && DistinctIds(new_.findings)
    requires (tier == ByFingerprint || tier == ByPathAndCwe) && i < |old_.findings| && j < |new_.findings|
    ensures old_.findings[i].id in r.ladder.mapped && r.ladder.mapped[old_.findings[i].id] == Match(new_.findings[j].id, tier)
      <==> Undoubted(recipe, old_, new_, r.ladder, tier, i, j)
  {
    hide AddsPairs, DistinctIds, Ladder.Valid, Partitions, BucketsBy, StampBuckets, SerialChoice, PathScoring, TitleScoring, Undoubted, MappedBefore, TakenBefore;
    var l1, l2, l3 :| ClimbedBy(recipe, old_, new_, l1, l2, l3, r);
    var stamps := StampBuckets(recipe, old_.repository, new_.repository);
    BucketsMeanTiers(recipe, old_, new_);
    LadderGrows(recipe, old_, new_, l1, l2, l3, r);
    TiersOfLadder(recipe, old_, new_, l1, l2, l3, r);
    if tier == ByFingerprint {
      NothingBefore(r.ladder);
      PairExactly(recipe, old_, new_, EMPTY, l1, r.ladder, stamps, i, j);
    } else {
      StampsBefore(l1, r.ladder);
      PairExactly(recipe, old_, new_, l1, l2, r.ladder, PATH_AND_CWE, i, j);
    }
  }

  /** Each ladder holds what its tiers mapped. */
  lemma TiersOfLadder(recipe: Recipe, old_: Report, new_: Report, l1: Ladder, l2: Ladder, l3: Ladder, r: MatchResult)
    requires ClimbedBy(recipe, old_, new_, l1, l2, l3, r)
    ensures HoldsTiers(l1, r.ladder, {ByFingerprint}) && HoldsTiers(l2, r.ladder, {ByFingerprint, ByPathAndCwe})
  {
    hide AddsPairs, SerialChoice, StampBuckets, PathScoring, TitleScoring, Ladder.Valid, Partitions;
    var olds, news := old_.findings, new_.findings;
    BucketsMeanTiers(recipe, old_, new_);
    ScoresMeanTiers(recipe, old_, new_);
    PairTiers(EMPTY, l1, olds, news, StampBuckets(recipe, old_.repository, new_.repository));
    PairTiers(l1, l2, olds, news, PATH_AND_CWE);
    ChoiceTiers(l2, l3, olds, news, PathScoring(recipe));
    ChoiceTiers(l3, r.ladder, olds, news, TitleScoring(recipe));
  }

  /** The new mappings of a pass carry its tier. */
  ghost predicate AddsTier(before: Ladder, after: Ladder, tier: Tier) {
    Keeps(before, after) && forall id | id in after.mapped && id !in before.mapped :: after.mapped[id].tier == tier
  }

  lemma PairTiers<K>(before: Ladder, after: Ladder, olds: seq<Finding>, news: seq<Finding>, b: Bucketing<K>)
    requires AddsPairs(before, after, olds, news, b, |olds|)
    ensures AddsTier(before, after, b.tier)
  {
    hide Pairs;
    forall id | id in after.mapped && id !in before.mapped ensures after.mapped[id].tier == b.tier {
      assert FromPair(before, after.mapped[id], olds, news, b, |olds|, id);
    }
  }

  lemma ChoiceTiers(before: Ladder, after: Ladder, olds: seq<Finding>, news: seq<Finding>, s: Scoring)
    requires SerialChoice(before, after, olds, news, s, |olds|)
    ensures AddsTier(before, after, s.tier)
  {
    forall id | id in after.mapped && id !in before.mapped ensures after.mapped[id].tier == s.tier {
      var i :| 0 <= i < |olds| && olds[i].id == id;
      assert BestLeft(before, after, olds, news, s, i);
    }
  }

  /** `before` holds what the tiers before `tier` mapped and took. */
  ghost predicate IsBefore(before: Ladder, end: Ladder, tier: Tier) {
    && (forall id :: id in before.mapped <==> MappedBefore(end, tier, id))
    && forall id :: id in before.taken <==> TakenBefore(end, tier, id)
  }

  lemma NothingBefore(end: Ladder)
    ensures IsBefore(EMPTY, end, ByFingerprint)
  {
  }

  lemma StampsBefore(l1: Ladder, end: Ladder)
    requires l1.Valid() && Keeps(l1, end) && HoldsTiers(l1, end, {ByFingerprint})
    ensures IsBefore(l1, end, ByPathAndCwe)
  {
    forall id ensures id in l1.taken <==> TakenBefore(end, ByPathAndCwe, id) {
      if id in l1.taken {
        var o :| o in l1.mapped && l1.mapped[o].newId == id;
        assert MappedBefore(end, ByPathAndCwe, o);
      }
    }
  }

  lemma PairExactly<K(!new)>(recipe: Recipe, old_: Report, new_: Report, before: Ladder, after: Ladder, end: Ladder, b: Bucketing<K>, i: nat, j: nat)
    requires i < |old_.findings| && j < |new_.findings| && DistinctIds(old_.findings) && DistinctIds(new_.findings)
    requires AddsPairs(before, after, old_.findings, new_.findings, b, |old_.findings|) && Keeps(after, end)
    requires IsBefore(before, end, b.tier) && BucketsBy(recipe, old_, new_, b)
    requires forall id | id in end.mapped && end.mapped[id].tier == b.tier :: id in after.mapped && id !in before.mapped
    ensures old_.findings[i].id in end.mapped && end.mapped[old_.findings[i].id] == Match(new_.findings[j].id, b.tier)
      <==> Undoubted(recipe, old_, new_, end, b.tier, i, j)
  {
    hide Pairs, Undoubted, IsBefore, BucketsBy, AddsPairs;
    var olds, news := old_.findings, new_.findings;
    PairIsUndoubted(recipe, old_, new_, before, end, b, i, j);
    PairsMapped(before, after, olds, news, b, i, j);
    var id := olds[i].id;
    if id in end.mapped && end.mapped[id] == Match(news[j].id, b.tier) {
      var a, c := PairBehind(before, after, olds, news, b, id);
      assert a == i && c == j;
    }
  }

  lemma PairsMapped<K>(before: Ladder, after: Ladder, olds: seq<Finding>, news: seq<Finding>, b: Bucketing<K>, i: nat, j: nat)
    requires AddsPairs(before, after, olds, news, b, |olds|) && i < |olds| && j < |news|
    ensures Pairs(before, olds, news, b, i, j) ==> olds[i].id in after.mapped && after.mapped[olds[i].id] == Match(news[j].id, b.tier)
  {
  }

  /** The pair behind a new mapping. */
  lemma PairBehind<K>(before: Ladder, after: Ladder, olds: seq<Finding>, news: seq<Finding>, b: Bucketing<K>, id: string) returns (i: nat, j: nat)
    requires AddsPairs(before, after, olds, news, b, |olds|) && id in after.mapped && id !in before.mapped
    ensures i < |olds| && j < |news| && Pairs(before, olds, news, b, i, j) && olds[i].id == id && after.mapped[id] == Match(news[j].id, b.tier)
  {
    assert FromPair(before, after.mapped[id], olds, news, b, |olds|, id);
    i, j :| i < |olds| && Pairs(before, olds, news, b, i, j) && olds[i].id == id && after.mapped[id] == Match(news[j].id, b.tier);
  }

  lemma PairIsUndoubted<K(!new)>(recipe: Recipe, old_: Report, new_: Report, before: Ladder, end: Ladder, b: Bucketing<K>, i: nat, j: nat)
    requires i < |old_.findings| && j < |new_.findings| && IsBefore(before, end, b.tier) && BucketsBy(recipe, old_, new_, b)
    ensures Pairs(before, old_.findings, new_.findings, b, i, j) <==> Undoubted(recipe, old_, new_, end, b.tier, i, j)
  {
    hide Reasoned, MappedBefore, TakenBefore;
    var olds, news := old_.findings, new_.findings;
    assert forall k | 0 <= k < |olds| :: b.oldKey(olds[k]) == Some(b.newKey(news[j])) <==> Reasoned(recipe, old_, new_, b.tier, olds[k], news[j]);
    assert forall k | 0 <= k < |news| :: b.oldKey(olds[i]) == Some(b.newKey(news[k])) <==> Reasoned(recipe, old_, new_, b.tier, olds[i], news[k]);
  }

  ghost predicate HoldsTiers(l: Ladder, end: Ladder, tiers: set<Tier>) {
    forall id | id in end.mapped :: id in l.mapped <==> end.mapped[id].tier in tiers
  }

  lemma LadderGrows(recipe: Recipe, old_: Report, new_: Report, l1: Ladder, l2: Ladder, l3: Ladder, r: MatchResult)
    requires ClimbedBy(recipe, old_, new_, l1, l2, l3, r)
    ensures l1.taken <= r.ladder.taken && Keeps(l1, r.ladder) && Keeps(l2, r.ladder) && Keeps(l3, r.ladder) && Keeps(r.ladder, r.ladder)
  {
  }

  /** The bucketing is that of its tier. */
  ghost predicate BucketsBy<K(!new)>(recipe: Recipe, old_: Report, new_: Report, b: Bucketing<K>) {
    forall o, n :: b.oldKey(o) == Some(b.newKey(n)) <==> Reasoned(recipe, old_, new_, b.tier, o, n)
  }

  lemma BucketsMeanTiers(recipe: Recipe, old_: Report, new_: Report)
    ensures BucketsBy(recipe, old_, new_, StampBuckets(recipe, old_.repository, new_.repository)) && BucketsBy(recipe, old_, new_, PATH_AND_CWE)
    ensures StampBuckets(recipe, old_.repository, new_.repository).tier == ByFingerprint && PATH_AND_CWE.tier == ByPathAndCwe
  {
  }

  /** Nothing else that stayed free has the reason of a pair. */
  lemma PairHasNoRival<K(!new)>(recipe: Recipe, old_: Report, new_: Report, before: Ladder, end: Ladder, b: Bucketing<K>, i: nat, j: nat)
    requires i < |old_.findings| && j < |new_.findings| && Pairs(before, old_.findings, new_.findings, b, i, j)
    requires BucketsBy(recipe, old_, new_, b) && (b.tier.ByFingerprint? || b.tier.ByPathAndCwe?)
    requires before.taken <= end.taken && new_.findings[j].id in end.taken
    ensures Reasoned(recipe, old_, new_, b.tier, old_.findings[i], new_.findings[j])
    ensures forall k | 0 <= k < |new_.findings| && new_.findings[k].id !in end.taken ::
      !Rivals(recipe, old_, new_, b.tier, old_.findings[i], new_.findings[j], new_.findings[k])
  {
    hide Reasoned;
    var o, news := old_.findings[i], new_.findings;
    forall k | 0 <= k < |news| && news[k].id !in end.taken ensures !Rivals(recipe, old_, new_, b.tier, o, news[j], news[k]) {
      assert k != j ==> b.newKey(news[k]) != b.oldKey(o).value;
    }
  }

  lemma ClaimedIsTaken(l: Ladder, id: string)
    requires l.Valid() && id in l.mapped
    ensures l.mapped[id].newId in l.taken
  {
  }

  lemma PairExplained<K(!new)>(recipe: Recipe, old_: Report, new_: Report, before: Ladder, after: Ladder, end: Ladder, b: Bucketing<K>, o: Finding)
    requires AddsPairs(before, after, old_.findings, new_.findings, b, |old_.findings|) && before.taken <= end.taken && Keeps(after, end)
    requires BucketsBy(recipe, old_, new_, b) && (b.tier.ByFingerprint? || b.tier.ByPathAndCwe?)
    requires DistinctIds(old_.findings) && DistinctIds(new_.findings) && end.Valid()
    requires o in old_.findings && o.id in after.mapped && o.id !in before.mapped
    ensures o.id in end.mapped && Explained(recipe, old_, new_, end, o)
  {
    var olds, news := old_.findings, new_.findings;
    hide AddsPairs, Ladder.Valid, Rivals, Reasoned;
    var i, j := PairBehind(before, after, olds, news, b, o.id);
    assert olds[i] == o;
    ClaimedIsTaken(end, o.id);
    PairHasNoRival(recipe, old_, new_, before, end, b, i, j);
    forall other | other in news && other.id !in end.taken ensures !Rivals(recipe, old_, new_, b.tier, o, news[j], other) {
      var k: nat :| k < |news| && news[k] == other;
    }
  }

  /** The scoring is that of its tier. */
  ghost predicate ScoresBy(recipe: Recipe, old_: Report, new_: Report, s: Scoring) {
    && (forall o, n :: s.Acceptable(o, n) <==> Reasoned(recipe, old_, new_, s.tier, o, n))
    && forall o, n, other | s.Acceptable(o, n) && Rivals(recipe, old_, new_, s.tier, o, n, other) ::
         s.Acceptable(o, other) && Better(s.score(o, other), s.score(o, n))
  }

  lemma ScoresMeanTiers(recipe: Recipe, old_: Report, new_: Report)
    ensures ScoresBy(recipe, old_, new_, PathScoring(recipe)) && ScoresBy(recipe, old_, new_, TitleScoring(recipe))
    ensures PathScoring(recipe).tier == ByPathSet && TitleScoring(recipe).tier == ByTitle
  {
    forall o: Finding, n: Finding ensures o.content.paths != {} ==> (Overlap(o.content.paths, n.content.paths) >= 0.5 <==> HalfShared(o, n)) {
      if o.content.paths != {} {
        OverlapHalf(o.content.paths, n.content.paths);
      }
    }
    forall o: Finding, n: Finding, other: Finding | o.content.paths != {}
      ensures Better(PathScoring(recipe).score(o, other), PathScoring(recipe).score(o, n)) <==> Closer(recipe, o, other, n)
    {
      OverlapCompares(o.content.paths, other.content.paths, n.content.paths);
    }
  }

  lemma NotEmpty(a: set<string>, b: set<string>)
    requires a != {}
    ensures |a + b| > 0
  {
    var x :| x in a;
    assert x in a + b;
  }

  lemma OverlapHalf(a: set<string>, b: set<string>)
    requires a != {}
    ensures Overlap(a, b) >= 0.5 <==> 2 * |a * b| >= |a + b|
  {
    NotEmpty(a, b);
    RatioHalf(|a * b| as real, |a + b| as real);
  }

  lemma RatioHalf(x: real, y: real)
    requires y > 0.0
    ensures x / y >= 0.5 <==> 2.0 * x >= y
  {
    assert x == (x / y) * y;
  }

  lemma OverlapCompares(a: set<string>, b: set<string>, c: set<string>)
    requires a != {}
    ensures Overlap(a, b) > Overlap(a, c) <==> |a * b| * |a + c| > |a * c| * |a + b|
    ensures Overlap(a, b) == Overlap(a, c) <==> |a * b| * |a + c| == |a * c| * |a + b|
  {
    NotEmpty(a, b);
    NotEmpty(a, c);
    RatioCompares(|a * b|, |a + b|, |a * c|, |a + c|);
  }

  lemma RatioCompares(x: nat, y: nat, z: nat, w: nat)
    requires y > 0 && w > 0
    ensures x as real / y as real > z as real / w as real <==> x * w > z * y
    ensures x as real / y as real == z as real / w as real <==> x * w == z * y
  {
    var p, q, a, b := x as real / y as real, z as real / w as real, y as real, w as real;
    assert (x * w) as real == x as real * b && (z * y) as real == z as real * a;
    assert x as real == p * a && z as real == q * b;
    assert x as real * b == p * (a * b) && z as real * a == q * (a * b);
    Scaled(p, q, a * b);
  }

  lemma Scaled(p: real, q: real, c: real)
    requires c > 0.0
    ensures p > q <==> p * c > q * c
    ensures p == q <==> p * c == q * c
  {
    assert p * c - q * c == (p - q) * c;
  }

  lemma ChoiceExplained(recipe: Recipe, old_: Report, new_: Report, before: Ladder, after: Ladder, end: Ladder, s: Scoring, o: Finding)
    requires SerialChoice(before, after, old_.findings, new_.findings, s, |old_.findings|) && Keeps(after, end)
    requires ScoresBy(recipe, old_, new_, s) && (s.tier.ByPathSet? || s.tier.ByTitle?)
    requires end.Valid() && o in old_.findings && o.id in after.mapped && o.id !in before.mapped
    ensures o.id in end.mapped && Explained(recipe, old_, new_, end, o)
  {
    hide Reasoned, Rivals, Better, Ladder.Valid, SerialChoice, Scoring.Acceptable;
    var news := new_.findings;
    var j := ChoiceBehind(before, after, end, old_.findings, news, s, o);
    forall other | other in news && other.id !in end.taken ensures !Rivals(recipe, old_, new_, s.tier, o, news[j], other) {
      var k: nat :| k < |news| && news[k] == other;
      assert !s.Prefers(o, news, k, j);
    }
    assert news[j] in news;
  }

  /** The choice behind a new mapping: whatever it preferred is taken in the end. */
  lemma ChoiceBehind(before: Ladder, after: Ladder, end: Ladder, olds: seq<Finding>, news: seq<Finding>, s: Scoring, o: Finding) returns (j: nat)
    requires SerialChoice(before, after, olds, news, s, |olds|) && Keeps(after, end) && end.Valid()
    requires o in olds && o.id in after.mapped && o.id !in before.mapped
    ensures j < |news| && s.Acceptable(o, news[j]) && after.mapped[o.id] == Match(news[j].id, s.tier)
    ensures forall k | 0 <= k < |news| && s.Prefers(o, news, k, j) :: news[k].id in end.taken
  {
    hide Scoring.Acceptable, Scoring.Prefers;
    var i: nat :| i < |olds| && olds[i] == o;
    assert BestLeft(before, after, olds, news, s, i);
    j :| j < |news| && s.Acceptable(o, news[j]) && after.mapped[o.id] == Match(news[j].id, s.tier)
      && forall k | 0 <= k < |news| && news[k].id !in before.taken && s.Prefers(o, news, k, j) :: ClaimedEarlier(before, after, olds, i, news[k].id);
    forall x | ClaimedEarlier(before, after, olds, i, x) ensures x in end.taken {
    }
  }

  /** No tier can pair the two findings: other fingerprint, other paths or class, little overlap, other title. */
  ghost predicate Unrelated(recipe: Recipe, old_: Report, new_: Report, o: Finding, n: Finding) {
    && Fingerprint(recipe, o, old_.repository) != Fingerprint(recipe, n, new_.repository)
    && (o.content.paths == {} || (Overlap(o.content.paths, n.content.paths) < 0.5 && (o.content.paths, o.content.cwe) != (n.content.paths, n.content.cwe)))
    && recipe.titleSimilarity(o.content.title, n.content.title) < 0.6
  }

  /** Reports without related findings stay unmatched: the ladder has one result on them. */
  lemma UnrelatedStayUnmatched(recipe: Recipe, old_: Report, new_: Report, r: MatchResult)
    requires forall o, n | o in old_.findings && n in new_.findings :: Unrelated(recipe, old_, new_, o, n)
    requires FromLadder(recipe, old_, new_, r)
    ensures r == MatchResult(EMPTY, Remaining(old_.findings, {}), Remaining(new_.findings, {}))
  {
    UnrelatedNoMatch(recipe, old_, new_, r);
    EmptyLadder(r.ladder);
    assert r.ladder.mapped.Keys == {};
  }

  lemma UnrelatedNoMatch(recipe: Recipe, old_: Report, new_: Report, r: MatchResult)
    requires forall o, n | o in old_.findings && n in new_.findings :: Unrelated(recipe, old_, new_, o, n)
    requires FromLadder(recipe, old_, new_, r)
    ensures r.ladder.mapped == map[]
  {
    hide AddsPairs, SerialChoice, Ladder.Valid, Partitions;
    var olds, news := old_.findings, new_.findings;
    var l1, l2, l3 :| ClimbedBy(recipe, old_, new_, l1, l2, l3, r);
    NoPairsNoMatch(EMPTY, l1, olds, news, StampBuckets(recipe, old_.repository, new_.repository));
    NoPairsNoMatch(l1, l2, olds, news, PATH_AND_CWE);
    NoneAcceptableNoMatch(l2, l3, olds, news, PathScoring(recipe));
    NoneAcceptableNoMatch(l3, r.ladder, olds, news, TitleScoring(recipe));
  }

  lemma NoPairsNoMatch<K>(before: Ladder, after: Ladder, olds: seq<Finding>, news: seq<Finding>, b: Bucketing<K>)
    requires AddsPairs(before, after, olds, news, b, |olds|) && before.mapped == map[]
    requires forall o, n | o in olds && n in news :: b.oldKey(o) != Some(b.newKey(n))
    ensures after.mapped == map[]
  {
    assert forall i: nat, j: nat | i < |olds| && j < |news| :: b.oldKey(olds[i]) != Some(b.newKey(news[j]));
    assert after.mapped.Keys == {};
  }

  lemma NoneAcceptableNoMatch(before: Ladder, after: Ladder, olds: seq<Finding>, news: seq<Finding>, s: Scoring)
    requires SerialChoice(before, after, olds, news, s, |olds|) && before.mapped == map[]
    requires forall o, n | o in olds && n in news :: !s.Acceptable(o, n)
    ensures after.mapped == map[]
  {
    assert forall i: nat | i < |olds| :: BestLeft(before, after, olds, news, s, i);
    assert forall i: nat, j: nat | i < |olds| && j < |news| :: !s.Acceptable(olds[i], news[j]);
    assert after.mapped.Keys == {};
  }

  lemma HasFirst(s: seq<string>)
    ensures s == [] || s[0] in s
  {
  }

  lemma EmptyLadder(l: Ladder)
    requires l.Valid() && l.mapped == map[]
    ensures l == EMPTY
  {
    HasFirst(l.order);
    assert l.order == [] && l.taken == {};
    assert l == Ladder(map[], [], {});
  }

  lemma LadderLeavesNothing(recipe: Recipe, t2: Ladder, t3: Ladder, t4: Ladder, olds: seq<Finding>, news: seq<Finding>)
    requires t3.Valid() && t4.Valid()
    requires SerialChoice(t2, t3, olds, news, PathScoring(recipe), |olds|)
    requires SerialChoice(t3, t4, olds, news, TitleScoring(recipe), |olds|)
    ensures NothingAcceptableLeft(recipe, t4, olds, news)
  {
    NoneLeft(t2, t3, olds, news, PathScoring(recipe));
    NoneLeft(t3, t4, olds, news, TitleScoring(recipe));
    forall o, n | o in olds && n in news && o.id !in t4.mapped && n.id !in t4.taken
      ensures recipe.titleSimilarity(o.content.title, n.content.title) < 0.6
      ensures !HalfShared(o, n)
    {
      if o.content.paths != {} {
        OverlapHalf(o.content.paths, n.content.paths);
      }
      assert !PathScoring(recipe).Acceptable(o, n) && !TitleScoring(recipe).Acceptable(o, n);
    }
  }

  ghost predicate InRange(l: Ladder, olds: seq<Finding>, news: seq<Finding>) {
    l.mapped.Keys <= Ids(olds) && l.taken <= Ids(news)
  }

  lemma UniqueInRange<K>(before: Ladder, after: Ladder, olds: seq<Finding>, news: seq<Finding>, b: Bucketing<K>)
    requires after.Valid() && before.Valid() && InRange(before, olds, news)
    requires AddsPairs(before, after, olds, news, b, |olds|)
    ensures InRange(after, olds, news)
  {
    forall id | id in after.mapped ensures id in Ids(olds) && after.mapped[id].newId in Ids(news) {
      if id !in before.mapped {
        var i, j := PairBehind(before, after, olds, news, b, id);
        assert olds[i] in olds && news[j] in news;
      }
    }
  }

  lemma BestInRange(before: Ladder, after: Ladder, olds: seq<Finding>, news: seq<Finding>, s: Scoring)
    requires before.Valid() && after.Valid() && InRange(before, olds, news)
    requires SerialChoice(before, after, olds, news, s, |olds|)
    ensures InRange(after, olds, news)
  {
    forall id | id in after.mapped ensures id in Ids(olds) && after.mapped[id].newId in Ids(news) {
      if id in before.mapped {
        assert before.mapped[id].newId in before.taken;
      } else {
        var i :| 0 <= i < |olds| && olds[i].id == id;
        assert olds[i] in olds && BestLeft(before, after, olds, news, s, i);
        var j :| 0 <= j < |news| && after.mapped[id] == Match(news[j].id, s.tier);
        assert news[j] in news;
      }
    }
  }

  /** After a serial choice no acceptable pair remains. */
  lemma NoneLeft(before: Ladder, after: Ladder, olds: seq<Finding>, news: seq<Finding>, s: Scoring)
    requires after.Valid() && SerialChoice(before, after, olds, news, s, |olds|)
    ensures forall o, n | o in olds && n in news && o.id !in after.mapped && n.id !in after.taken :: !s.Acceptable(o, n)
  {
    forall o, n | o in olds && n in news && o.id !in after.mapped && n.id !in after.taken
      ensures !s.Acceptable(o, n)
    {
      var i :| 0 <= i < |olds| && olds[i] == o;
      var j :| 0 <= j < |news| && news[j] == n;
      assert BestLeft(before, after, olds, news, s, i);
      assert ClaimedEarlier(before, after, olds, i, n.id) ==> n.id in after.taken;
    }
  }
}

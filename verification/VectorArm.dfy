/** The two-stage vector search of one segment and the merge across segments and tail
    (crates/mlake-index/src/query_node.rs:1464-1500, 1600-1648). Scores are any integers: only their
    order matters. */
module VectorArm {
  import opened Memories
  import opened Sorting

  datatype Scored = Scored(id: MemoryId, score: int)

  /** A stage-one candidate: estimate and error interval. */
  datatype Cand = Cand(id: MemoryId, est: int, lo: int, hi: int)

  /** Score descending, then id ascending. */
  predicate RankLe(a: Scored, b: Scored) {
    a.score > b.score || (a.score == b.score && a.id <= b.id)
  }

  predicate Better(a: Scored, b: Scored) {
    RankLe(a, b) && a != b
  }

  const RERANK_REFINE: nat := 16

  // ---- The reference: brute force --------------------------------------------------------------------

  function Take<T>(s: seq<T>, k: nat): seq<T> {
    if k < |s| then s[..k] else s
  }

  function BruteForce(all: seq<Scored>, k: nat): seq<Scored> {
    Take(StableSort(all, RankLe), k)
  }

  ghost predicate Strict(r: seq<Scored>) {
    forall i, j :: 0 <= i < j < |r| ==> Better(r[i], r[j])
  }

  ghost predicate IsTopK(r: seq<Scored>, s: set<Scored>, k: nat) {
    && Strict(r)
    && (forall i :: 0 <= i < |r| ==> r[i] in s)
    && |r| == (if k < |s| then k else |s|)
    && (forall x, i :: x in s && x !in r && 0 <= i < |r| ==> Better(r[i], x))
  }

  function Elements<T>(s: seq<T>): set<T> {
    set x | x in s
  }

  ghost predicate Distinct(s: seq<Scored>) {
    forall i, j :: 0 <= i < j < |s| ==> s[i].id != s[j].id
  }

  lemma {:induction false} StrictSize(r: seq<Scored>)
    requires Strict(r)
    ensures |Elements(r)| == |r|
  {
    if r != [] {
      var n := |r| - 1;
      StrictSize(r[..n]);
      assert Elements(r) == Elements(r[..n]) + {r[n]};
      assert r[n] !in r[..n];
    }
  }

  lemma {:induction false} StrictClass(r: seq<Scored>, x: Scored)
    requires Strict(r)
    ensures Class(r, x, RankLe) == if x in r then [x] else []
  {
    if r != [] {
      assert Strict(r[1..]);
      StrictClass(r[1..], x);
      assert x in r <==> x == r[0] || x in r[1..];
    }
  }

  /** Strictly ranked lists with the same members are the same list. */
  lemma StrictUnique(a: seq<Scored>, b: seq<Scored>)
    requires Strict(a) && Strict(b) && Elements(a) == Elements(b)
    ensures a == b
  {
    forall x ensures Class(a, x, RankLe) == Class(b, x, RankLe) {
      StrictClass(a, x);
      StrictClass(b, x);
      assert x in a <==> x in Elements(a);
      assert x in b <==> x in Elements(b);
    }
    StableUnique(a, b, RankLe);
  }

  lemma SameSizeSubset<T>(a: set<T>, b: set<T>)
    requires a <= b && |a| == |b|
    ensures a == b
  {
    assert b == a + (b - a);
  }

  lemma OtherMember<T>(a: set<T>, b: set<T>, x: T) returns (y: T)
    requires |a| == |b| && x in a && x !in b
    ensures y in b && y !in a
  {
    if b <= a { SameSizeSubset(b, a); }
    y :| y in b && y !in a;
  }

  lemma TopKContains(a: seq<Scored>, b: seq<Scored>, s: set<Scored>, k: nat)
    requires IsTopK(a, s, k) && IsTopK(b, s, k)
    ensures Elements(a) <= Elements(b)
  {
    StrictSize(a);
    StrictSize(b);
    forall x | x in a ensures x in b {
      if x !in b {
        var y := OtherMember(Elements(a), Elements(b), x);
      }
    }
  }

  /** There is only one top-k list. */
  lemma TopKUnique(a: seq<Scored>, b: seq<Scored>, s: set<Scored>, k: nat)
    requires IsTopK(a, s, k) && IsTopK(b, s, k)
    ensures a == b
  {
    TopKContains(a, b, s, k);
    TopKContains(b, a, s, k);
    StrictUnique(a, b);
  }

  lemma {:induction false} DistinctSize(s: seq<Scored>)
    requires Distinct(s)
    ensures |Elements(s)| == |s|
  {
    if s != [] {
      var n := |s| - 1;
      DistinctSize(s[..n]);
      assert Elements(s) == Elements(s[..n]) + {s[n]};
      assert s[n] !in s[..n];
    }
  }

  lemma {:induction false} SortStrict(s: seq<Scored>)
    requires Distinct(s)
    ensures Strict(StableSort(s, RankLe))
    ensures Elements(StableSort(s, RankLe)) == Elements(s)
  {
    var r := StableSort(s, RankLe);
    SortIsStable(s, RankLe);
    SortPermutes(s, RankLe);
    forall x ensures x in r <==> x in s { SortMembers(s, x, RankLe); }
    DistinctSize(s);
    assert Elements(r) == Elements(s);
    forall i, j | 0 <= i < j < |r| ensures Better(r[i], r[j]) {
      assert RankLe(r[i], r[j]);
      if r[i] == r[j] { RepeatShrinks(r, i, j); }
    }
  }

  lemma RepeatShrinks(r: seq<Scored>, i: nat, j: nat)
    requires i < j < |r| && r[i] == r[j]
    ensures |Elements(r)| < |r|
  {
    var shorter := r[..j] + r[j + 1..];
    forall x | x in r ensures x in shorter {
      var k :| 0 <= k < |r| && r[k] == x;
      if k < j { assert shorter[k] == x; } else if k > j { assert shorter[k - 1] == x; } else { assert shorter[i] == x; }
    }
    assert Elements(r) == Elements(shorter);
    ElementsBound(shorter);
  }

  lemma {:induction false} ElementsBound(s: seq<Scored>)
    ensures |Elements(s)| <= |s|
  {
    if s != [] {
      var n := |s| - 1;
      ElementsBound(s[..n]);
      assert Elements(s) == Elements(s[..n]) + {s[n]};
    }
  }

  /** Brute force is top-k of the candidates' set. */
  lemma BruteForceIsTopK(all: seq<Scored>, k: nat)
    requires Distinct(all)
    ensures IsTopK(BruteForce(all, k), Elements(all), k)
  {
    var r := StableSort(all, RankLe);
    SortStrict(all);
    StrictSize(r);
    var out := Take(r, k);
    forall x, i | x in Elements(all) && x !in out && 0 <= i < |out| ensures Better(out[i], x) {
      assert x in Elements(r);
      var j :| 0 <= j < |r| && r[j] == x;
    }
    forall i | 0 <= i < |out| ensures out[i] in Elements(all) {
      assert r[i] in Elements(r);
    }
  }

  lemma {:induction false} Enumerate(s: set<Scored>) returns (r: seq<Scored>)
    ensures Strict(r) && Elements(r) == s
  {
    if s == {} {
      r := [];
    } else {
      var x :| x in s;
      var rest := Enumerate(s - {x});
      r := StableSort([x] + rest, RankLe);
      SortIsStable([x] + rest, RankLe);
      SortPermutes([x] + rest, RankLe);
      StrictSize(rest);
      forall y ensures y in r <==> y in s {
        SortMembers([x] + rest, y, RankLe);
        assert y in rest <==> y in Elements(rest);
      }
      assert Elements(r) == s && |s| == |s - {x}| + 1;
      forall i, j | 0 <= i < j < |r| ensures Better(r[i], r[j]) {
        assert RankLe(r[i], r[j]);
        if r[i] == r[j] { RepeatShrinks(r, i, j); }
      }
    }
  }

  lemma TakeIsTopK(r: seq<Scored>, k: nat)
    requires Strict(r)
    ensures IsTopK(Take(r, k), Elements(r), k)
  {
    StrictSize(r);
    var out := Take(r, k);
    forall x, i | x in Elements(r) && x !in out && 0 <= i < |out| ensures Better(out[i], x) {
      var j :| 0 <= j < |r| && r[j] == x;
    }
  }

  lemma TopExists(s: set<Scored>, k: nat)
    ensures exists r :: IsTopK(r, s, k)
  {
    var r := Enumerate(s);
    TakeIsTopK(r, k);
  }

  /** The k best of a set, best first. */
  ghost function Top(s: set<Scored>, k: nat): (r: seq<Scored>)
    ensures IsTopK(r, s, k)
  {
    TopExists(s, k);
    var r :| IsTopK(r, s, k); r
  }

  /** Brute force over any listing of the set. */
  lemma BruteForceIsTop(all: seq<Scored>, k: nat)
    requires Distinct(all)
    ensures BruteForce(all, k) == Top(Elements(all), k)
  {
    BruteForceIsTopK(all, k);
    TopKUnique(BruteForce(all, k), Top(Elements(all), k), Elements(all), k);
  }

  /** Leaving out what is not in the top-k list keeps the list. */
  lemma RestrictTop(r: seq<Scored>, all: set<Scored>, s: set<Scored>, k: nat)
    requires IsTopK(r, all, k) && s <= all && forall x :: x in all && x !in s ==> x !in r
    ensures IsTopK(r, s, k)
  {
    StrictSize(r);
    assert Elements(r) <= s;
    BestFits(Elements(r), s);
    BestFits(s, all);
    if |all| < k {
      SameSizeSubset(Elements(r), all);
    }
  }

  /** What `k` others beat is not in the top-k list. */
  lemma BeatenIsOut(r: seq<Scored>, s: set<Scored>, x: Scored, k: nat)
    requires IsTopK(r, s, k) && Beaten(s, x, k)
    ensures x !in r
  {
    if x in r {
      var i :| 0 <= i < |r| && r[i] == x;
      forall b | b in Betters(s, x) ensures b in Elements(r) - {x} {
        assert b !in r ==> Better(r[i], b);
      }
      BestFits(Betters(s, x), Elements(r) - {x});
      StrictSize(r);
    }
  }

  /** What fewer than `k` others beat is in the top-k list. */
  lemma UnbeatenIsIn(r: seq<Scored>, s: set<Scored>, x: Scored, k: nat)
    requires IsTopK(r, s, k) && x in s && !Beaten(s, x, k)
    ensures x in r
  {
    if x !in r {
      StrictSize(r);
      assert Elements(r) + {x} <= s;
      BestFits(Elements(r) + {x}, s);
      assert Elements(r) <= Betters(s, x);
      BestFits(Elements(r), Betters(s, x));
    }
  }

  // ---- Pruning -------------------------------------------------------------------------------------------

  /** Dropping `c` is harmless when `k` of the remaining candidates beat it. */
  lemma PruneOne(r: seq<Scored>, s: set<Scored>, c: Scored, best: set<Scored>, k: nat)
    requires IsTopK(r, s, k) && c !in s
    requires best <= s && |best| >= k && forall b :: b in best ==> Better(b, c)
    ensures IsTopK(r, s + {c}, k)
  {
    BestFits(best, s);
    assert |r| == k;
    forall i | 0 <= i < |r| ensures Better(r[i], c) {
      if !Better(r[i], c) { BeatenMember(r, s, c, best, k, i); }
    }
  }

  lemma BestFits(best: set<Scored>, s: set<Scored>)
    requires best <= s
    ensures |best| <= |s|
  {
    assert s == best + (s - best);
  }

  /** A member that does not beat `c` would make the list longer than it is. */
  lemma BeatenMember(r: seq<Scored>, s: set<Scored>, c: Scored, best: set<Scored>, k: nat, i: nat)
    requires IsTopK(r, s, k) && c !in s && i < |r| == k
    requires best <= s && |best| >= k && forall b :: b in best ==> Better(b, c)
    ensures Better(r[i], c)
  {
    if !Better(r[i], c) {
      forall b | b in best ensures b in Elements(r) && b != r[i] {
        assert b !in r ==> Better(r[i], b);
      }
      assert best + {r[i]} <= Elements(r);
      BestFits(best + {r[i]}, Elements(r));
      StrictSize(r);
    }
  }

  function Betters(s: set<Scored>, c: Scored): set<Scored> {
    set b | b in s && Better(b, c)
  }

  /** At least `k` candidates of `s` beat `c`. */
  predicate Beaten(s: set<Scored>, c: Scored, k: nat) {
    |Betters(s, c)| >= k
  }

  lemma BeatenGrows(s: set<Scored>, t: set<Scored>, c: Scored, k: nat)
    requires s <= t && Beaten(s, c, k)
    ensures Beaten(t, c, k)
  {
    BestFits(Betters(s, c), Betters(t, c));
  }

  /** The pruned candidates all lose to `k` kept ones, so the top-k does not change. */
  lemma {:induction false} PruneAll(r: seq<Scored>, s: set<Scored>, pruned: set<Scored>, k: nat)
    requires IsTopK(r, s, k) && pruned !! s
    requires forall c :: c in pruned ==> Beaten(s, c, k)
    ensures IsTopK(r, s + pruned, k)
    decreases pruned
  {
    if pruned == {} {
      assert s + pruned == s;
    } else {
      var c :| c in pruned;
      PruneOne(r, s, c, Betters(s, c), k);
      forall d | d in pruned - {c} ensures Beaten(s + {c}, d, k) { BeatenGrows(s, s + {c}, d, k); }
      PruneAll(r, s + {c}, pruned - {c}, k);
      assert s + {c} + (pruned - {c}) == s + pruned;
    }
  }

  // ---- Stage one and stage two of one segment ---------------------------------------------------------------

  predicate Ge(a: int, b: int) {
    a >= b
  }

  predicate EstLe(a: Cand, b: Cand) {
    a.est >= b.est
  }

  function Los(cands: seq<Cand>): seq<int> {
    if cands == [] then [] else [cands[0].lo] + Los(cands[1..])
  }

  /** The k-th best lower bound; without one, nothing is pruned. */
  function Tau(cands: seq<Cand>, k: nat): Option<int>
    requires k >= 1
  {
    var los := StableSort(Los(cands), Ge);
    if k - 1 < |los| then Some(los[k - 1]) else None
  }

  predicate InContention(c: Cand, tau: Option<int>) {
    tau.Some? ==> c.hi >= tau.value
  }

  function Contenders(cands: seq<Cand>, tau: Option<int>): seq<Cand> {
    if cands == [] then []
    else (if InContention(cands[0], tau) then [cands[0]] else []) + Contenders(cands[1..], tau)
  }

  /** The exact score where there is a rerank row, the estimate otherwise. */
  function Rescore(c: Cand, rows: map<MemoryId, int>): Scored {
    Scored(c.id, if c.id in rows then rows[c.id] else c.est)
  }

  function True(c: Cand, truth: MemoryId -> int): Scored {
    Scored(c.id, truth(c.id))
  }

  function TrueSet(cands: seq<Cand>, truth: MemoryId -> int): set<Scored> {
    set c | c in cands :: True(c, truth)
  }

  /** What makes a segment's search exact: intervals contain the true score, contenders have rerank
      rows, and the cap on contenders does not bind. */
  ghost predicate Searchable(cands: seq<Cand>, rows: map<MemoryId, int>, k: nat, truth: MemoryId -> int)
    requires k >= 1
  {
    && (forall c :: c in cands ==> c.lo <= truth(c.id) <= c.hi)
    && (forall c :: c in cands && InContention(c, Tau(cands, k)) ==> c.id in rows && rows[c.id] == truth(c.id))
    && |Contenders(cands, Tau(cands, k))| <= k * RERANK_REFINE
  }

  /** The candidates of a segment that pruning leaves. */
  function KeptOf(cands: seq<Cand>, k: nat): set<Cand>
    requires k >= 1
  {
    set c | c in cands && InContention(c, Tau(cands, k))
  }

  ghost predicate DistinctCands(cands: seq<Cand>) {
    forall i, j :: 0 <= i < j < |cands| ==> cands[i].id != cands[j].id
  }

  /** The kept scores are true, and everything left out loses to `k` kept ones. */
  ghost predicate Complete(scored: seq<Scored>, cands: seq<Cand>, k: nat, truth: MemoryId -> int) {
    && Elements(scored) <= TrueSet(cands, truth)
    && forall c :: c in TrueSet(cands, truth) && c !in scored ==> Beaten(Elements(scored), c, k)
  }

  /** Probe, scan, prune by the k-th lower bound, rescore. Approximate mode ranks by estimate. */
  method SegmentArm(cands: seq<Cand>, depth: nat, rows: map<MemoryId, int>, exactRerank: bool, ghost truth: MemoryId -> int)
    returns (scored: seq<Scored>)
    requires DistinctCands(cands)
    ensures Distinct(scored)
    ensures forall s :: s in scored ==> exists c :: c in cands && c.id == s.id
    ensures var k := if depth < 1 then 1 else depth;
            exactRerank && Searchable(cands, rows, k, truth) ==>
              Complete(scored, cands, k, truth) && Elements(scored) == Image(KeptOf(cands, k), truth)
    ensures !exactRerank ==> IsTopK(scored, Estimates(cands), depth)
    ensures var k := if depth < 1 then 1 else depth;
            exactRerank ==> Strict(scored) && exists kept ::
              BestEstimates(kept, Contenders(cands, Tau(cands, k)), k * 16) && Elements(scored) == RescoredSet(kept, rows)
  {
    if !exactRerank {
      scored := Rescored(cands, map[]);
      RescoredFacts(cands, map[]);
      SortDistinct(scored);
      ghost var all := scored;
      scored := Take(StableSort(scored, RankLe), depth);
      ApproximateIsTop(cands, depth);
      forall s | s in scored ensures exists c :: c in cands && c.id == s.id {
        assert s in all;
        var c :| c in cands && s == Rescore(c, map[]);
      }
      return;
    }
    var k := if depth < 1 then 1 else depth;
    var tau := Tau(cands, k);
    var contenders := Contenders(cands, tau);
    ContendersFacts(cands, tau);
    ContendersKept(contenders, k * RERANK_REFINE);
    if |contenders| > k * RERANK_REFINE {
      SortedCands(contenders);
      contenders := StableSort(contenders, EstLe)[..k * RERANK_REFINE];
    }
    assert BestEstimates(Elements(contenders), Contenders(cands, tau), k * RERANK_REFINE);
    scored := Rescored(contenders, rows);
    RescoredFacts(contenders, rows);
    ghost var unsorted := scored;
    RescoredElements(contenders, rows);
    SortDistinct(scored);
    SortStrict(scored);
    scored := StableSort(scored, RankLe);
    assert Elements(scored) == RescoredSet(Elements(contenders), rows);
    if Searchable(cands, rows, k, truth) {
      ExactIsComplete(cands, rows, k, truth, contenders);
      assert Elements(scored) == Elements(unsorted);
    }
  }

  /** Every candidate with its estimate for a score. */
  function Estimates(cands: seq<Cand>): set<Scored> {
    set c | c in cands :: Scored(c.id, c.est)
  }

  function RescoredSet(kept: set<Cand>, rows: map<MemoryId, int>): set<Scored> {
    set c | c in kept :: Scored(c.id, if c.id in rows then rows[c.id] else c.est)
  }

  /** As many of the contenders as the cap allows, none with a lower estimate than one left out. */
  ghost predicate BestEstimates(kept: set<Cand>, contenders: seq<Cand>, cap: nat) {
    && kept <= Elements(contenders)
    && |kept| == (if cap < |contenders| then cap else |contenders|)
    && forall c, d :: c in kept && d in contenders && d !in kept ==> c.est >= d.est
  }

  lemma {:induction false} CandsSize(s: seq<Cand>)
    requires DistinctCands(s)
    ensures |Elements(s)| == |s|
  {
    if s != [] {
      var n := |s| - 1;
      CandsSize(s[..n]);
      assert Elements(s) == Elements(s[..n]) + {s[n]};
      assert forall c :: c in s[..n] ==> c.id != s[n].id;
    }
  }

  /** Cutting the estimate-ordered contenders keeps the best estimates. */
  lemma ContendersKept(contenders: seq<Cand>, cap: nat)
    requires DistinctCands(contenders)
    ensures |contenders| <= cap ==> BestEstimates(Elements(contenders), contenders, cap)
    ensures |contenders| > cap ==> |StableSort(contenders, EstLe)| == |contenders|
    ensures |contenders| > cap ==> BestEstimates(Elements(StableSort(contenders, EstLe)[..cap]), contenders, cap)
  {
    CandsSize(contenders);
    SortedCands(contenders);
    if |contenders| > cap {
      SortIsStable(contenders, EstLe);
      CutKeepsBest(contenders, StableSort(contenders, EstLe), cap);
    }
  }

  lemma CutKeepsBest(contenders: seq<Cand>, r: seq<Cand>, cap: nat)
    requires cap < |r| == |contenders| && DistinctCands(r) && Sorted(r, EstLe) && forall c :: c in r <==> c in contenders
    ensures BestEstimates(Elements(r[..cap]), contenders, cap)
  {
    var kept := r[..cap];
    CandsSize(kept);
    forall c | c in kept ensures c in contenders { assert c in r; }
    forall c, d | c in kept && d in contenders && d !in kept ensures c.est >= d.est {
      CutOrder(r, cap, c, d);
    }
  }

  lemma CutOrder(r: seq<Cand>, cap: nat, c: Cand, d: Cand)
    requires cap < |r| && Sorted(r, EstLe) && c in r[..cap] && d in r && d !in r[..cap]
    ensures c.est >= d.est
  {
    var i :| 0 <= i < |r[..cap]| && r[..cap][i] == c;
    var j :| 0 <= j < |r| && r[j] == d;
    assert forall k :: 0 <= k < cap ==> r[k] in r[..cap];
    assert EstLe(r[i], r[j]);
  }

  lemma RescoredElements(cands: seq<Cand>, rows: map<MemoryId, int>)
    requires DistinctCands(cands)
    ensures Elements(Rescored(cands, rows)) == RescoredSet(Elements(cands), rows)
  {
    RescoredFacts(cands, rows);
    forall s ensures s in Elements(Rescored(cands, rows)) <==> s in RescoredSet(Elements(cands), rows) {
      if s in RescoredSet(Elements(cands), rows) {
        var c :| c in Elements(cands) && s == Scored(c.id, if c.id in rows then rows[c.id] else c.est);
        assert c in cands && s == Rescore(c, rows);
      }
      if s in Elements(Rescored(cands, rows)) {
        var c :| c in cands && s == Rescore(c, rows);
        assert c in Elements(cands);
      }
    }
  }

  /** Approximate mode is the top-`depth` by estimate. */
  lemma ApproximateIsTop(cands: seq<Cand>, depth: nat)
    requires DistinctCands(cands)
    ensures IsTopK(Take(StableSort(Rescored(cands, map[]), RankLe), depth), Estimates(cands), depth)
  {
    var all := Rescored(cands, map[]);
    RescoredFacts(cands, map[]);
    BruteForceIsTopK(all, depth);
    forall s ensures s in Elements(all) <==> s in Estimates(cands) {
      if s in Elements(all) {
        var c :| c in cands && s == Rescore(c, map[]);
      }
      if s in Estimates(cands) {
        var c :| c in cands && s == Scored(c.id, c.est);
        assert s == Rescore(c, map[]);
      }
    }
    assert Elements(all) == Estimates(cands);
  }

  function Rescored(cands: seq<Cand>, rows: map<MemoryId, int>): seq<Scored> {
    if cands == [] then [] else [Rescore(cands[0], rows)] + Rescored(cands[1..], rows)
  }

  lemma {:induction false} RescoredFacts(cands: seq<Cand>, rows: map<MemoryId, int>)
    requires DistinctCands(cands)
    ensures Distinct(Rescored(cands, rows))
    ensures forall s :: s in Rescored(cands, rows) <==> exists c :: c in cands && s == Rescore(c, rows)
  {
    if cands != [] {
      RescoredFacts(cands[1..], rows);
      var rest := Rescored(cands[1..], rows);
      forall i | 0 <= i < |rest| ensures rest[i].id != cands[0].id {
        assert rest[i] in rest;
        var c :| c in cands[1..] && rest[i] == Rescore(c, rows);
        var k :| 0 <= k < |cands[1..]| && cands[1..][k] == c;
        assert cands[0].id != cands[k + 1].id;
      }
      forall s ensures s in Rescored(cands, rows) <==> exists c :: c in cands && s == Rescore(c, rows) {
        assert s in Rescored(cands, rows) <==> s == Rescore(cands[0], rows) || s in rest;
        assert forall c :: c in cands <==> c == cands[0] || c in cands[1..];
      }
    }
  }

  lemma SortDistinct(s: seq<Scored>)
    requires Distinct(s)
    ensures Distinct(StableSort(s, RankLe)) && Elements(StableSort(s, RankLe)) == Elements(s)
    ensures forall x :: x in StableSort(s, RankLe) <==> x in s
  {
    var r := StableSort(s, RankLe);
    SortStrict(s);
    forall x ensures x in r <==> x in s { SortMembers(s, x, RankLe); }
    forall i, j | 0 <= i < j < |r| ensures r[i].id != r[j].id {
      assert Better(r[i], r[j]) && r[i] in s && r[j] in s;
      var a :| 0 <= a < |s| && s[a] == r[i];
      var b :| 0 <= b < |s| && s[b] == r[j];
      assert a < b || b < a;
    }
  }

  lemma {:induction false} ContendersFacts(cands: seq<Cand>, tau: Option<int>)
    requires DistinctCands(cands)
    ensures DistinctCands(Contenders(cands, tau))
    ensures forall c :: c in Contenders(cands, tau) <==> c in cands && InContention(c, tau)
  {
    if cands != [] {
      ContendersFacts(cands[1..], tau);
      var rest := Contenders(cands[1..], tau);
      forall i | 0 <= i < |rest| ensures rest[i].id != cands[0].id {
        assert rest[i] in cands[1..];
        var k :| 0 <= k < |cands[1..]| && cands[1..][k] == rest[i];
        assert cands[0].id != cands[k + 1].id;
      }
      assert Contenders(cands, tau) == if InContention(cands[0], tau) then [cands[0]] + rest else rest;
      assert forall c :: c in cands <==> c == cands[0] || c in cands[1..];
    }
  }

  lemma {:induction false} InsertCands(x: Cand, s: seq<Cand>)
    requires DistinctCands(s) && forall c :: c in s ==> c.id != x.id
    ensures DistinctCands(Insert(x, s, EstLe))
    ensures forall c :: c in Insert(x, s, EstLe) <==> c == x || c in s
  {
    forall c ensures c in Insert(x, s, EstLe) <==> c == x || c in s { InsertMembers(x, s, c, EstLe); }
    if s != [] && !EstLe(x, s[0]) {
      InsertCands(x, s[1..]);
      var rest := Insert(x, s[1..], EstLe);
      forall i | 0 <= i < |rest| ensures rest[i].id != s[0].id {
        assert rest[i] in rest;
        if rest[i] != x {
          var k :| 0 <= k < |s[1..]| && s[1..][k] == rest[i];
          assert s[0].id != s[k + 1].id;
        }
      }
      assert Insert(x, s, EstLe) == [s[0]] + rest;
    }
  }

  lemma {:induction false} SortedCands(s: seq<Cand>)
    requires DistinctCands(s)
    ensures DistinctCands(StableSort(s, EstLe)) && |StableSort(s, EstLe)| == |s|
    ensures forall c :: c in StableSort(s, EstLe) <==> c in s
  {
    SortPermutes(s, EstLe);
    forall c ensures c in StableSort(s, EstLe) <==> c in s { SortMembers(s, c, EstLe); }
    if s != [] {
      SortedCands(s[1..]);
      forall c | c in StableSort(s[1..], EstLe) ensures c.id != s[0].id {
        var k :| 0 <= k < |s[1..]| && s[1..][k] == c;
        assert s[0].id != s[k + 1].id;
      }
      InsertCands(s[0], StableSort(s[1..], EstLe));
    }
  }

  // ---- Counting the lower bounds that reach tau -----------------------------------------------------------

  function CountGe(s: seq<int>, t: int): nat {
    if s == [] then 0 else (if s[0] >= t then 1 else 0) + CountGe(s[1..], t)
  }

  lemma {:induction false} InsertCount(x: int, s: seq<int>, t: int)
    ensures CountGe(Insert(x, s, Ge), t) == (if x >= t then 1 else 0) + CountGe(s, t)
  {
    if s != [] && !Ge(x, s[0]) {
      InsertCount(x, s[1..], t);
      assert Insert(x, s, Ge)[1..] == Insert(x, s[1..], Ge);
    } else {
      assert ([x] + s)[1..] == s;
    }
  }

  lemma {:induction false} SortCount(s: seq<int>, t: int)
    ensures CountGe(StableSort(s, Ge), t) == CountGe(s, t)
  {
    if s != [] {
      SortCount(s[1..], t);
      InsertCount(s[0], StableSort(s[1..], Ge), t);
    }
  }

  lemma {:induction false} PrefixCount(s: seq<int>, k: nat, t: int)
    requires k <= |s| && forall i :: 0 <= i < k ==> s[i] >= t
    ensures CountGe(s, t) >= k
  {
    if k > 0 { PrefixCount(s[1..], k - 1, t); }
  }

  /** The candidates whose lower bound reaches `t`. */
  function Reaching(cands: seq<Cand>, t: int): set<Cand> {
    set c | c in cands && c.lo >= t
  }

  lemma {:induction false} ReachingSize(cands: seq<Cand>, t: int)
    requires DistinctCands(cands)
    ensures |Reaching(cands, t)| == CountGe(Los(cands), t)
  {
    if cands != [] {
      var rest := Reaching(cands[1..], t);
      ReachingSize(cands[1..], t);
      assert forall c :: c in cands <==> c == cands[0] || c in cands[1..];
      assert Los(cands)[1..] == Los(cands[1..]);
      if cands[0].lo >= t {
        assert Reaching(cands, t) == {cands[0]} + rest;
        forall c | c in cands[1..] ensures c.id != cands[0].id {
          var k :| 0 <= k < |cands[1..]| && cands[1..][k] == c;
          assert cands[0].id != cands[k + 1].id;
        }
      } else {
        assert Reaching(cands, t) == rest;
      }
    }
  }

  lemma TauReached(cands: seq<Cand>, k: nat)
    requires DistinctCands(cands) && k >= 1 && Tau(cands, k).Some?
    ensures |Reaching(cands, Tau(cands, k).value)| >= k
  {
    var los := StableSort(Los(cands), Ge);
    var t := los[k - 1];
    SortIsStable(Los(cands), Ge);
    forall i | 0 <= i < k ensures los[i] >= t {
      if i < k - 1 { assert Ge(los[i], los[k - 1]); }
    }
    PrefixCount(los, k, t);
    SortCount(Los(cands), t);
    ReachingSize(cands, t);
  }

  /** Every id at most once. */
  ghost predicate UniqueIn(s: set<Cand>) {
    forall c, d :: c in s && d in s && c.id == d.id ==> c == d
  }

  /** The true scores of a set of candidates. */
  function Image(s: set<Cand>, truth: MemoryId -> int): set<Scored> {
    set c | c in s :: True(c, truth)
  }

  lemma {:induction false} ImageSize(s: set<Cand>, truth: MemoryId -> int)
    requires UniqueIn(s)
    ensures |Image(s, truth)| == |s|
  {
    if s != {} {
      var c :| c in s;
      ImageSize(s - {c}, truth);
      assert Image(s, truth) == Image(s - {c}, truth) + {True(c, truth)};
    }
  }

  lemma DistinctIsUnique(cands: seq<Cand>)
    requires DistinctCands(cands)
    ensures UniqueIn(Elements(cands))
  {
    forall c, d | c in Elements(cands) && d in Elements(cands) && c.id == d.id ensures c == d {
      var i :| 0 <= i < |cands| && cands[i] == c;
      var j :| 0 <= j < |cands| && cands[j] == d;
      assert i == j;
    }
  }

  lemma ExactIsComplete(cands: seq<Cand>, rows: map<MemoryId, int>, k: nat, truth: MemoryId -> int, contenders: seq<Cand>)
    requires DistinctCands(cands) && k >= 1 && Searchable(cands, rows, k, truth)
    requires contenders == Contenders(cands, Tau(cands, k))
    ensures Complete(Rescored(contenders, rows), cands, k, truth)
    ensures Elements(Rescored(contenders, rows)) == Image(KeptOf(cands, k), truth)
  {
    var tau := Tau(cands, k);
    var scored := Rescored(contenders, rows);
    ContendersFacts(cands, tau);
    RescoredFacts(contenders, rows);
    forall c | c in cands && InContention(c, tau) ensures True(c, truth) in scored {
      assert c in contenders && True(c, truth) == Rescore(c, rows);
    }
    forall s | s in scored ensures s in TrueSet(cands, truth) {
      var c :| c in contenders && s == Rescore(c, rows);
      assert c in cands && s == True(c, truth);
    }
    forall s | s in TrueSet(cands, truth) && s !in scored ensures Beaten(Elements(scored), s, k) {
      var c :| c in cands && s == True(c, truth);
      PrunedIsBeaten(cands, rows, k, truth, scored, c);
    }
  }

  lemma PrunedIsBeaten(cands: seq<Cand>, rows: map<MemoryId, int>, k: nat, truth: MemoryId -> int, scored: seq<Scored>, c: Cand)
    requires DistinctCands(cands) && k >= 1 && Searchable(cands, rows, k, truth)
    requires forall d :: d in cands && InContention(d, Tau(cands, k)) ==> True(d, truth) in scored
    requires c in cands && !InContention(c, Tau(cands, k))
    ensures Beaten(Elements(scored), True(c, truth), k)
  {
    var t := Tau(cands, k).value;
    var best := Reaching(cands, t);
    TauReached(cands, k);
    DistinctIsUnique(cands);
    ImageSize(best, truth);
    forall b | b in Image(best, truth) ensures b in Betters(Elements(scored), True(c, truth)) {
      var d :| d in best && b == True(d, truth);
    }
    BestFits(Image(best, truth), Betters(Elements(scored), True(c, truth)));
  }

  // ---- Merging tail and segments ------------------------------------------------------------------------------

  function Items(m: map<MemoryId, int>): set<Scored> {
    set x | x in m :: Scored(x, m[x])
  }

  lemma ItemsPut(m: map<MemoryId, int>, s: Scored)
    requires s.id !in m
    ensures Items(m[s.id := s.score]) == Items(m) + {s}
  {
    var n := m[s.id := s.score];
    forall x ensures x in Items(n) <==> x in Items(m) + {s} {
      assert x in Items(n) <==> x.id in n && x.score == n[x.id];
      assert x in Items(m) <==> x.id in m && x.score == m[x.id];
    }
  }

  /** The scores of ids that `m` does not have. */
  function New(scored: seq<Scored>, m: map<MemoryId, int>): set<Scored> {
    set s | s in scored && s.id !in m
  }

  /** Adds scores for ids not seen yet; what came first stays. */
  method AddUnseen(m0: map<MemoryId, int>, scored: seq<Scored>) returns (m: map<MemoryId, int>)
    ensures forall x :: x in m0 ==> x in m && m[x] == m0[x]
    ensures forall x :: x in m <==> x in m0 || exists s :: s in scored && s.id == x
    ensures Distinct(scored) ==> Items(m) == Items(m0) + New(scored, m0)
  {
    m := m0;
    for i := 0 to |scored|
      invariant forall x :: x in m0 ==> x in m && m[x] == m0[x]
      invariant forall x :: x in m <==> x in m0 || exists s :: s in scored[..i] && s.id == x
      invariant Distinct(scored) ==> Items(m) == Items(m0) + New(scored[..i], m0)
    {
      assert forall s :: s in scored[..i + 1] <==> s in scored[..i] || s == scored[i];
      if Distinct(scored) { StillUnseen(scored, i, m0, m); }
      if scored[i].id !in m {
        ItemsPut(m, scored[i]);
        m := m[scored[i].id := scored[i].score];
      }
    }
    assert scored[..|scored|] == scored;
  }

  lemma StillUnseen(scored: seq<Scored>, i: nat, m0: map<MemoryId, int>, m: map<MemoryId, int>)
    requires i < |scored| && Distinct(scored)
    requires forall x :: x in m <==> x in m0 || exists s :: s in scored[..i] && s.id == x
    ensures scored[i].id in m <==> scored[i].id in m0
    ensures New(scored[..i + 1], m0) == New(scored[..i], m0) + if scored[i].id in m0 then {} else {scored[i]}
  {
    assert forall s :: s in scored[..i + 1] <==> s in scored[..i] || s == scored[i];
    forall s | s in scored[..i] ensures s.id != scored[i].id {
      var k :| 0 <= k < i && scored[..i][k] == s;
      assert scored[k].id != scored[i].id;
    }
  }

  /** The pairs of a map in some order. */
  method Collect(m: map<MemoryId, int>) returns (s: seq<Scored>)
    ensures Distinct(s) && Elements(s) == Items(m)
  {
    s := [];
    var ids := m.Keys;
    while ids != {}
      invariant ids <= m.Keys && Distinct(s)
      invariant forall i :: 0 <= i < |s| ==> s[i].id in m && s[i].id !in ids && s[i].score == m[s[i].id]
      invariant forall x :: x in m && x !in ids ==> Scored(x, m[x]) in s
      decreases ids
    {
      var x :| x in ids;
      s := s + [Scored(x, m[x])];
      ids := ids - {x};
    }
  }

  function TrueScores(cands: seq<Cand>, truth: MemoryId -> int): seq<Scored> {
    if cands == [] then [] else [True(cands[0], truth)] + TrueScores(cands[1..], truth)
  }

  /** Every candidate with its true score: the tail, then the segments in order. */
  function AllTrue(tail: seq<Scored>, segs: seq<seq<Cand>>, truth: MemoryId -> int): seq<Scored> {
    if segs == [] then tail
    else AllTrue(tail, segs[..|segs| - 1], truth) + TrueScores(segs[|segs| - 1], truth)
  }

  lemma {:induction false} TrueScoresFacts(cands: seq<Cand>, truth: MemoryId -> int)
    ensures |TrueScores(cands, truth)| == |cands|
    ensures forall i :: 0 <= i < |cands| ==> TrueScores(cands, truth)[i] == True(cands[i], truth)
    ensures Elements(TrueScores(cands, truth)) == TrueSet(cands, truth)
  {
    if cands != [] {
      TrueScoresFacts(cands[1..], truth);
      assert forall i :: 0 < i < |cands| ==> cands[i] == cands[1..][i - 1];
    }
    var ts := TrueScores(cands, truth);
    forall x ensures x in Elements(ts) <==> x in TrueSet(cands, truth) {
      if x in Elements(ts) {
        var i :| 0 <= i < |ts| && ts[i] == x;
        assert cands[i] in cands;
      }
      if x in TrueSet(cands, truth) {
        var c :| c in cands && True(c, truth) == x;
        var i :| 0 <= i < |cands| && cands[i] == c;
        assert ts[i] == x;
      }
    }
  }

  // ---- What the search finds, and what it owes ---------------------------------------------------------------

  function Ids(tail: seq<Scored>): set<MemoryId> {
    set s | s in tail :: s.id
  }

  function Candidates(segs: seq<seq<Cand>>): set<Cand> {
    set i, c | 0 <= i < |segs| && c in segs[i] :: c
  }

  /** The candidates that pruning leaves, segment by segment. */
  function KeptCands(segs: seq<seq<Cand>>, k: nat): set<Cand>
    requires k >= 1
  {
    set i, c | 0 <= i < |segs| && c in KeptOf(segs[i], k) :: c
  }

  function Outside(s: set<Cand>, ids: set<MemoryId>): set<Cand> {
    set c | c in s && c.id !in ids
  }

  /** The supersede test shows each id in at most one segment, and a segment holds it once. */
  ghost predicate OneCopy(segs: seq<seq<Cand>>) {
    forall i, j, c, d :: 0 <= i < |segs| && 0 <= j < |segs| && c in segs[i] && d in segs[j] && c.id == d.id ==> i == j && c == d
  }

  /** What the search ranks: the tail's scores, and of each segment what pruning left and the tail does
      not score itself. */
  function FoundSet(tail: seq<Scored>, segs: seq<seq<Cand>>, k: nat, truth: MemoryId -> int): set<Scored>
    requires k >= 1
  {
    Elements(tail) + Image(Outside(KeptCands(segs, k), Ids(tail)), truth)
  }

  /** What it owes: the tail's scores, and every indexed candidate that is not stale. Stale are the ids
      the tail writes, of which it scores those that pass the filter, and the ids whose indexed copy a
      predicate deletes: the block scan tests for neither. */
  function LiveSet(tail: seq<Scored>, stale: set<MemoryId>, segs: seq<seq<Cand>>, truth: MemoryId -> int): set<Scored> {
    Elements(tail) + Image(Outside(Candidates(segs), stale), truth)
  }

  ghost predicate Within(segs: seq<seq<Cand>>, truth: MemoryId -> int) {
    forall c :: c in Candidates(segs) ==> c.lo <= truth(c.id) <= c.hi
  }

  /** Whatever the true scores, `d` ranks before `c`. */
  predicate SurelyBeats(d: Cand, c: Cand) {
    d.lo > c.hi || (d.lo == c.hi && d.id < c.id)
  }

  /** The live candidates that surely beat `c`. */
  function Rivals(segs: seq<seq<Cand>>, stale: set<MemoryId>, c: Cand): set<Cand> {
    set d | d in Outside(Candidates(segs), stale) && SurelyBeats(d, c)
  }

  /** A live candidate that pruning drops, or a stale one that it leaves and no tail score covers. */
  ghost predicate Misplaced(segs: seq<seq<Cand>>, k: nat, scored: set<MemoryId>, stale: set<MemoryId>, c: Cand)
    requires k >= 1
  {
    || (c in Outside(Candidates(segs), stale) && c !in KeptCands(segs, k))
    || (c in Outside(KeptCands(segs, k), scored) && c.id in stale)
  }

  /** Every misplaced candidate is out of the running by its interval alone. */
  ghost predicate Harmless(segs: seq<seq<Cand>>, k: nat, scored: set<MemoryId>, stale: set<MemoryId>)
    requires k >= 1
  {
    forall c :: Misplaced(segs, k, scored, stale, c) ==> |Rivals(segs, stale, c)| >= k
  }

  lemma OneCopyIsUnique(segs: seq<seq<Cand>>)
    requires OneCopy(segs)
    ensures UniqueIn(Candidates(segs))
  {
  }

  lemma KeptAreCandidates(segs: seq<seq<Cand>>, k: nat)
    requires k >= 1
    ensures KeptCands(segs, k) <= Candidates(segs)
  {
  }

  lemma RivalIsBetter(segs: seq<seq<Cand>>, stale: set<MemoryId>, tail: seq<Scored>, truth: MemoryId -> int, c: Cand, d: Cand)
    requires Within(segs, truth) && c in Candidates(segs) && d in Rivals(segs, stale, c)
    ensures True(d, truth) in LiveSet(tail, stale, segs, truth) && Better(True(d, truth), True(c, truth))
  {
    assert d in Candidates(segs);
  }

  lemma RivalsBeat(segs: seq<seq<Cand>>, stale: set<MemoryId>, tail: seq<Scored>, truth: MemoryId -> int, c: Cand, k: nat)
    requires OneCopy(segs) && Within(segs, truth) && c in Candidates(segs) && |Rivals(segs, stale, c)| >= k
    ensures Beaten(LiveSet(tail, stale, segs, truth), True(c, truth), k)
  {
    var rivals := Rivals(segs, stale, c);
    OneCopyIsUnique(segs);
    ImageSize(rivals, truth);
    var live := LiveSet(tail, stale, segs, truth);
    forall b | b in Image(rivals, truth) ensures b in Betters(live, True(c, truth)) {
      var d :| d in rivals && b == True(d, truth);
      RivalIsBetter(segs, stale, tail, truth, c, d);
    }
    BestFits(Image(rivals, truth), Betters(live, True(c, truth)));
  }

  /** When the misplaced candidates are harmless the search is exact, for these scores and truths. */
  lemma HarmlessIsExact(tail: seq<Scored>, stale: set<MemoryId>, segs: seq<seq<Cand>>, k: nat, truth: MemoryId -> int)
    requires k >= 1 && OneCopy(segs) && Within(segs, truth) && Ids(tail) <= stale
    requires Harmless(segs, k, Ids(tail), stale)
    ensures Top(FoundSet(tail, segs, k, truth), k) == Top(LiveSet(tail, stale, segs, truth), k)
  {
    var found, live := FoundSet(tail, segs, k, truth), LiveSet(tail, stale, segs, truth);
    var r := Top(live, k);
    KeptAreCandidates(segs, k);
    forall x | x in found + live && (x !in live || x !in found) ensures Beaten(live, x, k) {
      var c := MisplacedSource(tail, stale, segs, k, truth, x);
      RivalsBeat(segs, stale, tail, truth, c, k);
    }
    PruneAll(r, live, found - live, k);
    var all := live + (found - live);
    forall x | x in all && x !in found ensures x !in r {
      BeatenGrows(live, all, x, k);
      BeatenIsOut(r, all, x, k);
    }
    RestrictTop(r, all, found, k);
    TopKUnique(r, Top(found, k), found, k);
  }

  /** A score in one set and not in the other comes from a misplaced candidate. */
  lemma MisplacedSource(tail: seq<Scored>, stale: set<MemoryId>, segs: seq<seq<Cand>>, k: nat, truth: MemoryId -> int, x: Scored)
    returns (c: Cand)
    requires k >= 1 && Ids(tail) <= stale && KeptCands(segs, k) <= Candidates(segs)
    requires (x in FoundSet(tail, segs, k, truth)) != (x in LiveSet(tail, stale, segs, truth))
    ensures c in Candidates(segs) && Misplaced(segs, k, Ids(tail), stale, c) && x == True(c, truth)
  {
    if x in FoundSet(tail, segs, k, truth) {
      c :| c in Outside(KeptCands(segs, k), Ids(tail)) && x == True(c, truth);
      assert c.id !in stale ==> c in Outside(Candidates(segs), stale);
    } else {
      assert forall d :: d in KeptCands(segs, k) && d.id !in stale ==> d in Outside(KeptCands(segs, k), Ids(tail));
      c :| c in Outside(Candidates(segs), stale) && x == True(c, truth);
    }
  }

  // ---- The condition is necessary ------------------------------------------------------------------------------

  /** The lower bound recorded for `x`. */
  ghost function LowOf(s: set<Cand>, x: MemoryId): int {
    if exists d :: d in s && d.id == x then var d :| d in s && d.id == x; d.lo else 0
  }

  /** `c` at its best, everybody else at their worst. */
  ghost function Favouring(s: set<Cand>, c: Cand): (truth: MemoryId -> int)
    ensures truth(c.id) == c.hi
    ensures forall x :: x != c.id ==> truth(x) == LowOf(s, x)
  {
    (x: MemoryId) => if x == c.id then c.hi else LowOf(s, x)
  }

  lemma FavouringFits(segs: seq<seq<Cand>>, c: Cand)
    requires OneCopy(segs) && c in Candidates(segs) && forall d :: d in Candidates(segs) ==> d.lo <= d.hi
    ensures Within(segs, Favouring(Candidates(segs), c))
    ensures forall d :: d in Candidates(segs) && d != c ==> d.id != c.id && Favouring(Candidates(segs), c)(d.id) == d.lo
  {
    OneCopyIsUnique(segs);
    forall d | d in Candidates(segs) && d != c ensures d.id != c.id && Favouring(Candidates(segs), c)(d.id) == d.lo {
    }
  }

  /** A tail over `ids` that scores `score` throughout. */
  lemma {:induction false} FlatTail(ids: set<MemoryId>, score: int) returns (tail: seq<Scored>)
    ensures Distinct(tail) && Ids(tail) == ids && forall s :: s in tail ==> s.score == score
  {
    if ids == {} {
      tail := [];
    } else {
      var x :| x in ids;
      var rest := FlatTail(ids - {x}, score);
      tail := [Scored(x, score)] + rest;
      forall i | 0 <= i < |rest| ensures rest[i].id != x {
        assert rest[i].id in Ids(rest);
      }
      forall y ensures y in Ids(tail) <==> y in ids {
        if y == x { assert Scored(x, score) in tail; }
        if y in Ids(rest) {
          var s :| s in rest && s.id == y;
          assert s in tail;
        }
      }
    }
  }

  /** In that world only rivals beat `c`. */
  lemma FavouredBeatenByRivals(segs: seq<seq<Cand>>, stale: set<MemoryId>, tail: seq<Scored>, c: Cand, k: nat)
    requires OneCopy(segs) && c in Candidates(segs) && forall d :: d in Candidates(segs) ==> d.lo <= d.hi
    requires (forall s :: s in tail ==> s.score == c.hi - 1) && |Rivals(segs, stale, c)| < k
    ensures var truth := Favouring(Candidates(segs), c);
            !Beaten(LiveSet(tail, stale, segs, truth), True(c, truth), k)
  {
    var truth := Favouring(Candidates(segs), c);
    var rivals := Rivals(segs, stale, c);
    ImageSize(rivals, truth);
    forall b | b in Betters(LiveSet(tail, stale, segs, truth), True(c, truth)) ensures b in Image(rivals, truth) {
      BetterIsRival(segs, stale, tail, c, b);
    }
    BestFits(Betters(LiveSet(tail, stale, segs, truth), True(c, truth)), Image(rivals, truth));
  }

  /** When the scores favour `c`, only its rivals can still be ahead of it. */
  lemma BetterIsRival(segs: seq<seq<Cand>>, stale: set<MemoryId>, tail: seq<Scored>, c: Cand, b: Scored)
    requires OneCopy(segs) && c in Candidates(segs) && forall d :: d in Candidates(segs) ==> d.lo <= d.hi
    requires forall s :: s in tail ==> s.score == c.hi - 1
    requires var truth := Favouring(Candidates(segs), c); b in Betters(LiveSet(tail, stale, segs, truth), True(c, truth))
    ensures b in Image(Rivals(segs, stale, c), Favouring(Candidates(segs), c))
  {
    var truth := Favouring(Candidates(segs), c);
    FavouringFits(segs, c);
    OneCopyIsUnique(segs);
    var d :| d in Outside(Candidates(segs), stale) && b == True(d, truth);
    assert d != c && SurelyBeats(d, c);
    assert d in Rivals(segs, stale, c);
  }

  /** A misplaced candidate with too few rivals makes the search wrong for some scores and truths. */
  lemma MisplacedHurts(segs: seq<seq<Cand>>, k: nat, scored: set<MemoryId>, stale: set<MemoryId>, c: Cand)
    returns (tail: seq<Scored>, truth: MemoryId -> int)
    requires k >= 1 && OneCopy(segs) && scored <= stale && forall d :: d in Candidates(segs) ==> d.lo <= d.hi
    requires Misplaced(segs, k, scored, stale, c) && |Rivals(segs, stale, c)| < k
    ensures Distinct(tail) && Ids(tail) == scored && Within(segs, truth)
    ensures Top(FoundSet(tail, segs, k, truth), k) != Top(LiveSet(tail, stale, segs, truth), k)
  {
    KeptAreCandidates(segs, k);
    tail := FlatTail(scored, c.hi - 1);
    truth := Favouring(Candidates(segs), c);
    FavouringFits(segs, c);
    FavouredBeatenByRivals(segs, stale, tail, c, k);
    var found, live, x := FoundSet(tail, segs, k, truth), LiveSet(tail, stale, segs, truth), True(c, truth);
    MisplacedSides(segs, k, tail, stale, c, truth);
    if x in live {
      UnbeatenIsIn(Top(live, k), live, x, k);
      assert x !in Top(found, k);
    } else {
      IntruderShows(found, live, x, k);
    }
  }

  /** A misplaced candidate's score is in exactly one of the two sets. */
  lemma MisplacedSides(segs: seq<seq<Cand>>, k: nat, tail: seq<Scored>, stale: set<MemoryId>, c: Cand, truth: MemoryId -> int)
    requires k >= 1 && OneCopy(segs) && Ids(tail) <= stale && KeptCands(segs, k) <= Candidates(segs)
    requires Misplaced(segs, k, Ids(tail), stale, c)
    ensures (True(c, truth) in FoundSet(tail, segs, k, truth)) != (True(c, truth) in LiveSet(tail, stale, segs, truth))
  {
    OneCopyIsUnique(segs);
    assert c.id !in Ids(tail);
    assert True(c, truth) !in tail;
    if c in KeptCands(segs, k) {
      assert c in Outside(KeptCands(segs, k), Ids(tail));
    } else {
      assert c in Outside(Candidates(segs), stale);
    }
  }

  /** A stranger that too few of `live` beat shows in the list over `found`. */
  lemma IntruderShows(found: set<Scored>, live: set<Scored>, x: Scored, k: nat)
    requires x in found && x !in live && !Beaten(live, x, k)
    ensures Top(found, k) != Top(live, k)
  {
    var r := Top(found, k);
    if r == Top(live, k) {
      assert x !in r;
      StrictSize(r);
      BestFits(Elements(r) + {x}, found);
      assert Elements(r) <= Betters(live, x);
      BestFits(Elements(r), Betters(live, x));
    }
  }

  /** For given candidates and tail ids, the search returns the true top-k for all tail scores and all true
      scores inside the intervals if and only if every misplaced candidate - a live one that pruning
      drops, or a stale one that it keeps and no tail score covers - is surely beaten by k live
      candidates. */
  lemma SearchIsExactIffHarmless(segs: seq<seq<Cand>>, k: nat, scored: set<MemoryId>, stale: set<MemoryId>)
    requires k >= 1 && OneCopy(segs) && scored <= stale && forall d :: d in Candidates(segs) ==> d.lo <= d.hi
    ensures (forall tail, truth: MemoryId -> int :: Distinct(tail) && Ids(tail) == scored && Within(segs, truth) ==>
               Top(FoundSet(tail, segs, k, truth), k) == Top(LiveSet(tail, stale, segs, truth), k))
            <==> Harmless(segs, k, scored, stale)
  {
    if Harmless(segs, k, scored, stale) {
      forall tail, truth: MemoryId -> int | Distinct(tail) && Ids(tail) == scored && Within(segs, truth)
        ensures Top(FoundSet(tail, segs, k, truth), k) == Top(LiveSet(tail, stale, segs, truth), k)
      {
        HarmlessIsExact(tail, stale, segs, k, truth);
      }
    } else {
      var c :| Misplaced(segs, k, scored, stale, c) && |Rivals(segs, stale, c)| < k;
      var tail, truth := MisplacedHurts(segs, k, scored, stale, c);
    }
  }

  /** Of a pruned candidate, the k that set its segment's bound are rivals if none of them is stale. */
  lemma PrunedHasRivals(segs: seq<seq<Cand>>, k: nat, stale: set<MemoryId>, i: nat, c: Cand)
    requires k >= 1 && i < |segs| && DistinctCands(segs[i]) && c in segs[i] && !InContention(c, Tau(segs[i], k))
    requires forall d :: d in segs[i] ==> d.id !in stale
    ensures |Rivals(segs, stale, c)| >= k
  {
    TauReached(segs[i], k);
    var best := Reaching(segs[i], Tau(segs[i], k).value);
    forall d | d in best ensures d in Rivals(segs, stale, c) {
      assert d in segs[i];
      assert d in Candidates(segs);
    }
    FitsIn(best, Rivals(segs, stale, c));
  }

  /** Without a stale candidate in any segment - no copy of an id the tail writes, none that a predicate
      deletes - pruning by the k-th lower bound is harmless, whatever the tail scores. */
  lemma DisjointIsHarmless(segs: seq<seq<Cand>>, k: nat, scored: set<MemoryId>, stale: set<MemoryId>)
    requires k >= 1 && forall i :: 0 <= i < |segs| ==> DistinctCands(segs[i])
    requires forall c :: c in Candidates(segs) ==> c.id !in stale
    ensures Harmless(segs, k, scored, stale)
  {
    KeptAreCandidates(segs, k);
    forall c | Misplaced(segs, k, scored, stale, c) ensures |Rivals(segs, stale, c)| >= k {
      var i := PrunedSomewhere(segs, k, c);
      forall d | d in segs[i] ensures d.id !in stale { assert d in Candidates(segs); }
      PrunedHasRivals(segs, k, stale, i, c);
    }
  }

  lemma PrunedSomewhere(segs: seq<seq<Cand>>, k: nat, c: Cand) returns (i: nat)
    requires k >= 1 && c in Candidates(segs) && c !in KeptCands(segs, k)
    ensures i < |segs| && c in segs[i] && !InContention(c, Tau(segs[i], k))
  {
    assert forall j :: 0 <= j < |segs| ==> KeptOf(segs[j], k) <= KeptCands(segs, k);
    i :| 0 <= i < |segs| && c in segs[i];
    assert c !in KeptOf(segs[i], k);
  }

  lemma FitsIn(a: set<Cand>, b: set<Cand>)
    requires a <= b
    ensures |a| <= |b|
  {
    assert b == a + (b - a);
  }

  // ---- The search as it runs ------------------------------------------------------------------------------------

  /** Where every segment's search is as promised, and ids repeat only between tail and segments. */
  ghost predicate Sound(tail: seq<Scored>, segs: seq<seq<Cand>>, rows: seq<map<MemoryId, int>>, depth: nat, truth: MemoryId -> int)
    requires depth >= 1 && |rows| == |segs|
  {
    && Distinct(tail) && OneCopy(segs)
    && (forall i :: 0 <= i < |segs| ==> Searchable(segs[i], rows[i], depth, truth))
  }

  /** As above, and no id in two places. */
  ghost predicate Exact(tail: seq<Scored>, segs: seq<seq<Cand>>, rows: seq<map<MemoryId, int>>, depth: nat, truth: MemoryId -> int)
    requires depth >= 1 && |rows| == |segs|
  {
    && (forall i :: 0 <= i < |segs| ==> Searchable(segs[i], rows[i], depth, truth))
    && Distinct(AllTrue(tail, segs, truth))
  }

  lemma SoundIsWithin(tail: seq<Scored>, segs: seq<seq<Cand>>, rows: seq<map<MemoryId, int>>, depth: nat, truth: MemoryId -> int)
    requires depth >= 1 && |rows| == |segs| && Sound(tail, segs, rows, depth, truth)
    ensures Within(segs, truth)
  {
    forall c | c in Candidates(segs) ensures c.lo <= truth(c.id) <= c.hi {
      var i :| 0 <= i < |segs| && c in segs[i];
      assert Searchable(segs[i], rows[i], depth, truth);
    }
  }

  /** What one more segment adds to the merge. */
  lemma FoundStep(tail: seq<Scored>, segs: seq<seq<Cand>>, i: nat, m0: map<MemoryId, int>, scored: seq<Scored>, k: nat, truth: MemoryId -> int)
    requires k >= 1 && i < |segs| && OneCopy(segs)
    requires Items(m0) == FoundSet(tail, segs[..i], k, truth) && Elements(scored) == Image(KeptOf(segs[i], k), truth)
    ensures Items(m0) + New(scored, m0) == FoundSet(tail, segs[..i + 1], k, truth)
  {
    forall x ensures x in Items(m0) + New(scored, m0) <==> x in FoundSet(tail, segs[..i + 1], k, truth) {
      FoundStepAt(tail, segs, i, m0, scored, k, truth, x);
    }
  }

  lemma KeptStep(segs: seq<seq<Cand>>, i: nat, k: nat)
    requires k >= 1 && i < |segs|
    ensures KeptCands(segs[..i + 1], k) == KeptCands(segs[..i], k) + KeptOf(segs[i], k)
  {
    assert segs[..i + 1] == segs[..i] + [segs[i]];
    forall c ensures c in KeptCands(segs[..i + 1], k) <==> c in KeptCands(segs[..i], k) || c in KeptOf(segs[i], k) {
      if c in KeptCands(segs[..i], k) {
        var j :| 0 <= j < i && c in KeptOf(segs[..i][j], k);
        assert segs[..i + 1][j] == segs[..i][j];
      }
      if c in KeptOf(segs[i], k) { assert segs[..i + 1][i] == segs[i]; }
      if c in KeptCands(segs[..i + 1], k) {
        var j :| 0 <= j < i + 1 && c in KeptOf(segs[..i + 1][j], k);
        if j < i { assert segs[..i][j] == segs[..i + 1][j]; }
      }
    }
  }

  lemma FoundElsewhere(tail: seq<Scored>, segs: seq<seq<Cand>>, i: nat, c: Cand, k: nat, truth: MemoryId -> int, x: Scored)
    requires k >= 1 && i < |segs| && OneCopy(segs) && c in segs[i]
    requires x in FoundSet(tail, segs[..i], k, truth) && x !in tail
    ensures x.id != c.id
  {
    var kept := KeptCands(segs[..i], k);
    var d :| d in Outside(kept, Ids(tail)) && x == True(d, truth);
    var j := KeptSource(segs[..i], k, d);
    OtherSegment(segs, i, j, c, d);
  }

  lemma KeptSource(segs: seq<seq<Cand>>, k: nat, d: Cand) returns (j: nat)
    requires k >= 1 && d in KeptCands(segs, k)
    ensures j < |segs| && d in segs[j]
  {
    j :| 0 <= j < |segs| && d in KeptOf(segs[j], k);
  }

  lemma OtherSegment(segs: seq<seq<Cand>>, i: nat, j: nat, c: Cand, d: Cand)
    requires OneCopy(segs) && i < |segs| && j < |segs| && i != j && c in segs[i] && d in segs[j]
    ensures c.id != d.id
  {
  }

  /** An id already merged is the tail's: an earlier segment cannot show it. */
  lemma MergedIdIsTails(tail: seq<Scored>, segs: seq<seq<Cand>>, i: nat, m0: map<MemoryId, int>, c: Cand, k: nat, truth: MemoryId -> int)
    requires k >= 1 && i < |segs| && OneCopy(segs) && c in segs[i]
    requires Items(m0) == FoundSet(tail, segs[..i], k, truth)
    ensures c.id in m0 <==> c.id in Ids(tail)
  {
    forall x | x in Items(m0) && x !in tail ensures x.id != c.id {
      FoundElsewhere(tail, segs, i, c, k, truth, x);
    }
    if c.id in m0 {
      assert Scored(c.id, m0[c.id]) in Items(m0);
    }
    if c.id in Ids(tail) {
      var s :| s in tail && s.id == c.id;
      assert s in Items(m0);
    }
  }

  lemma FoundStepAt(tail: seq<Scored>, segs: seq<seq<Cand>>, i: nat, m0: map<MemoryId, int>, scored: seq<Scored>, k: nat,
                    truth: MemoryId -> int, x: Scored)
    requires k >= 1 && i < |segs| && OneCopy(segs)
    requires Items(m0) == FoundSet(tail, segs[..i], k, truth) && Elements(scored) == Image(KeptOf(segs[i], k), truth)
    ensures x in Items(m0) + New(scored, m0) <==> x in FoundSet(tail, segs[..i + 1], k, truth)
  {
    KeptStep(segs, i, k);
    var earlier, next := Outside(KeptCands(segs[..i], k), Ids(tail)), Outside(KeptCands(segs[..i + 1], k), Ids(tail));
    if x in New(scored, m0) {
      assert x in Elements(scored);
      var c :| c in KeptOf(segs[i], k) && x == True(c, truth);
      MergedIdIsTails(tail, segs, i, m0, c, k, truth);
      assert c in next;
    } else if x in Items(m0) && x !in tail {
      var c :| c in earlier && x == True(c, truth);
      assert c in next;
    }
    if x in FoundSet(tail, segs[..i + 1], k, truth) && x !in tail {
      var c :| c in next && x == True(c, truth);
      if c in KeptOf(segs[i], k) {
        MergedIdIsTails(tail, segs, i, m0, c, k, truth);
        assert x in Elements(scored);
      } else {
        assert c in earlier;
      }
    }
  }

  /** Tail first, then every segment newest-first, sort, truncate. The outcome is the top-k of what was
      found; of what is live when the misplaced candidates are harmless; and brute force over every
      candidate scanned, ties included, when no id is in two places. */
  method VectorSearch(tail: seq<Scored>, segs: seq<seq<Cand>>, rows: seq<map<MemoryId, int>>, depth: nat,
                      ghost stale: set<MemoryId>, ghost truth: MemoryId -> int)
    returns (out: seq<Scored>)
    requires depth >= 1 && |rows| == |segs| && Ids(tail) <= stale
    requires forall i :: 0 <= i < |segs| ==> DistinctCands(segs[i])
    ensures Strict(out) && |out| <= depth
    ensures Sound(tail, segs, rows, depth, truth) ==> out == Top(FoundSet(tail, segs, depth, truth), depth)
    ensures Sound(tail, segs, rows, depth, truth) && Harmless(segs, depth, Ids(tail), stale) ==>
              out == Top(LiveSet(tail, stale, segs, truth), depth)
    ensures Exact(tail, segs, rows, depth, truth) ==> out == BruteForce(AllTrue(tail, segs, truth), depth)
  {
    var merged := AddUnseen(map[], tail);
    ghost var sound := Sound(tail, segs, rows, depth, truth);
    FoundNone(tail, depth, truth);
    for i := 0 to |segs|
      invariant sound ==> Items(merged) == FoundSet(tail, segs[..i], depth, truth)
    {
      var scored := SegmentArm(segs[i], depth, rows[i], true, truth);
      if sound {
        FoundStep(tail, segs, i, merged, scored, depth, truth);
      }
      merged := AddUnseen(merged, scored);
    }
    var all := Collect(merged);
    out := Take(StableSort(all, RankLe), depth);
    BruteForceIsTop(all, depth);
    if sound {
      assert segs[..|segs|] == segs;
      SoundIsWithin(tail, segs, rows, depth, truth);
      if Harmless(segs, depth, Ids(tail), stale) {
        HarmlessIsExact(tail, stale, segs, depth, truth);
      }
    }
    if Exact(tail, segs, rows, depth, truth) {
      ExactIsBruteForce(tail, segs, rows, depth, truth);
    }
  }

  lemma FoundNone(tail: seq<Scored>, k: nat, truth: MemoryId -> int)
    requires k >= 1
    ensures FoundSet(tail, [], k, truth) == Elements(tail)
    ensures Items(map[]) + New(tail, map[]) == Elements(tail)
  {
    assert KeptCands([], k) == {};
    assert Items(map[]) == {};
  }

  lemma DistinctParts(a: seq<Scored>, b: seq<Scored>)
    requires Distinct(a + b)
    ensures Distinct(a) && Distinct(b)
    ensures forall i, j :: 0 <= i < |a| && 0 <= j < |b| ==> a[i].id != b[j].id
    ensures Elements(a + b) == Elements(a) + Elements(b)
  {
    var s := a + b;
    assert forall i :: 0 <= i < |a| ==> s[i] == a[i];
    assert forall j :: 0 <= j < |b| ==> s[|a| + j] == b[j];
  }

  /** With no id in two places, every candidate has one copy, outside the tail, and all are live. */
  lemma {:induction false} NoIdTwice(tail: seq<Scored>, segs: seq<seq<Cand>>, truth: MemoryId -> int)
    requires Distinct(AllTrue(tail, segs, truth))
    ensures Distinct(tail) && OneCopy(segs)
    ensures Elements(AllTrue(tail, segs, truth)) == Elements(tail) + Image(Candidates(segs), truth)
    ensures forall c :: c in Candidates(segs) ==> c.id !in Ids(tail)
  {
    if segs != [] {
      var n := |segs| - 1;
      var init, last := AllTrue(tail, segs[..n], truth), TrueScores(segs[n], truth);
      DistinctParts(init, last);
      NoIdTwice(tail, segs[..n], truth);
      TrueScoresFacts(segs[n], truth);
      assert segs == segs[..n] + [segs[n]];
      forall c | c in segs[n] ensures c.id !in Ids(tail) && forall d :: d in Candidates(segs[..n]) ==> d.id != c.id {
        NewInLast(tail, segs[..n], segs[n], truth, c);
      }
      CandidatesSnoc(segs);
      DistinctIsUnique(segs[n]);
      OneCopySnoc(segs);
    }
  }

  lemma CandidatesSnoc(segs: seq<seq<Cand>>)
    requires segs != []
    ensures var n := |segs| - 1; Candidates(segs) == Candidates(segs[..n]) + Elements(segs[n])
  {
    var n := |segs| - 1;
    forall c ensures c in Candidates(segs) <==> c in Candidates(segs[..n]) || c in segs[n] {
      if c in Candidates(segs[..n]) {
        var j :| 0 <= j < n && c in segs[..n][j];
        assert c in segs[j];
      }
      if c in Candidates(segs) {
        var j :| 0 <= j < |segs| && c in segs[j];
        if j < n { assert c in segs[..n][j]; }
      }
    }
  }

  /** A true score of the last segment's candidate carries an id none of the earlier ones carries. */
  lemma NewInLast(tail: seq<Scored>, init: seq<seq<Cand>>, last: seq<Cand>, truth: MemoryId -> int, c: Cand)
    requires Distinct(AllTrue(tail, init, truth) + TrueScores(last, truth)) && c in last
    requires Elements(AllTrue(tail, init, truth)) == Elements(tail) + Image(Candidates(init), truth)
    ensures c.id !in Ids(tail) && forall d :: d in Candidates(init) ==> d.id != c.id
  {
    var a, b := AllTrue(tail, init, truth), TrueScores(last, truth);
    DistinctParts(a, b);
    TrueScoresFacts(last, truth);
    var j :| 0 <= j < |last| && last[j] == c;
    assert b[j].id == c.id;
    forall s | s in Elements(a) ensures s.id != c.id {
      var i :| 0 <= i < |a| && a[i] == s;
    }
    forall d | d in Candidates(init) ensures d.id != c.id {
      assert True(d, truth) in Image(Candidates(init), truth);
    }
  }

  lemma OneCopySnoc(segs: seq<seq<Cand>>)
    requires segs != [] && OneCopy(segs[..|segs| - 1])
    requires forall c, d :: c in segs[|segs| - 1] && d in Candidates(segs[..|segs| - 1]) ==> d.id != c.id
    requires UniqueIn(Elements(segs[|segs| - 1]))
    ensures OneCopy(segs)
  {
    var n := |segs| - 1;
    forall i, j, c, d | 0 <= i < |segs| && 0 <= j < |segs| && c in segs[i] && d in segs[j] && c.id == d.id
      ensures i == j && c == d
    {
      assert i < n ==> c in segs[..n][i] && c in Candidates(segs[..n]);
      assert j < n ==> d in segs[..n][j] && d in Candidates(segs[..n]);
    }
  }

  /** The disjoint case, as a corollary. */
  lemma ExactIsBruteForce(tail: seq<Scored>, segs: seq<seq<Cand>>, rows: seq<map<MemoryId, int>>, depth: nat, truth: MemoryId -> int)
    requires depth >= 1 && |rows| == |segs| && Exact(tail, segs, rows, depth, truth)
    requires forall i :: 0 <= i < |segs| ==> DistinctCands(segs[i])
    ensures Sound(tail, segs, rows, depth, truth)
    ensures Top(FoundSet(tail, segs, depth, truth), depth) == BruteForce(AllTrue(tail, segs, truth), depth)
  {
    NoIdTwice(tail, segs, truth);
    SoundIsWithin(tail, segs, rows, depth, truth);
    DisjointIsExact(tail, segs, depth, truth);
    BruteForceIsTop(AllTrue(tail, segs, truth), depth);
  }

  lemma DisjointIsExact(tail: seq<Scored>, segs: seq<seq<Cand>>, k: nat, truth: MemoryId -> int)
    requires k >= 1 && OneCopy(segs) && Within(segs, truth) && forall i :: 0 <= i < |segs| ==> DistinctCands(segs[i])
    requires forall c :: c in Candidates(segs) ==> c.id !in Ids(tail)
    ensures Top(FoundSet(tail, segs, k, truth), k) == Top(Elements(tail) + Image(Candidates(segs), truth), k)
  {
    DisjointIsHarmless(segs, k, Ids(tail), Ids(tail));
    HarmlessIsExact(tail, Ids(tail), segs, k, truth);
    AllOutside(Candidates(segs), Ids(tail));
  }

  lemma AllOutside(s: set<Cand>, ids: set<MemoryId>)
    requires forall c :: c in s ==> c.id !in ids
    ensures Outside(s, ids) == s
  {
  }

  // ---- A stale copy at work -------------------------------------------------------------------------------------

  const STALE := Cand(1, 10, 10, 10)
  const BEST := Cand(2, 5, 5, 5)

  lemma TwoCands(a: Cand, b: Cand)
    requires a.lo >= b.lo && a.hi >= a.lo > b.hi
    ensures Tau([a, b], 1) == Some(a.lo) && KeptOf([a, b], 1) == {a}
    ensures Candidates([[a, b]]) == {a, b} && KeptCands([[a, b]], 1) == {a}
  {
    assert [a, b][1..] == [b] && [b][1..] == [];
    assert Los([b]) == [b.lo];
    var los := [a.lo, b.lo];
    assert Los([a, b]) == los;
    assert los[1..] == [b.lo] && [b.lo][1..] == [];
    assert StableSort([b.lo], Ge) == [b.lo];
    assert StableSort(los, Ge) == los;
    var segs := [[a, b]];
    forall c ensures c in Candidates(segs) <==> c in {a, b} {
      if c in {a, b} { assert c in segs[0]; }
    }
    forall c ensures c in KeptCands(segs, 1) <==> c in {a} {
      if c == a { assert c in KeptOf(segs[0], 1); }
    }
  }

  lemma TopOfOne(x: Scored)
    ensures Top({x}, 1) == [x]
  {
    var r := [x];
    assert Elements(r) == {x};
    TakeIsTopK(r, 1);
    TopKUnique(r, Top({x}, 1), {x}, 1);
  }

  lemma TopOfTwo(a: Scored, b: Scored)
    requires Better(a, b)
    ensures Top({a, b}, 1) == [a]
  {
    var r := [a, b];
    assert Elements(r) == {a, b};
    TakeIsTopK(r, 1);
    assert Take(r, 1) == [a];
    TopKUnique([a], Top({a, b}, 1), {a, b}, 1);
  }

  lemma StaleIsSound(tail: seq<Scored>, truth: MemoryId -> int)
    requires truth(1) == 10 && truth(2) == 5 && Distinct(tail)
    ensures Sound(tail, [[STALE, BEST]], [map[1 := 10, 2 := 5]], 1, truth)
  {
    TwoCands(STALE, BEST);
    ContendersSmall([STALE, BEST], Tau([STALE, BEST], 1));
    assert Searchable([STALE, BEST], map[1 := 10, 2 := 5], 1, truth);
  }

  lemma StaleSets(truth: MemoryId -> int)
    requires truth(1) == 10 && truth(2) == 5
    ensures FoundSet([Scored(1, 0)], [[STALE, BEST]], 1, truth) == {Scored(1, 0)}
    ensures LiveSet([Scored(1, 0)], {1}, [[STALE, BEST]], truth) == {Scored(2, 5), Scored(1, 0)}
  {
    var tail := [Scored(1, 0)];
    TwoCands(STALE, BEST);
    assert Ids(tail) == {1} by { assert Scored(1, 0) in tail; }
    assert Outside({STALE}, {1}) == {} && Outside({STALE, BEST}, {1}) == {BEST};
    assert Elements(tail) == {Scored(1, 0)};
    assert Image({BEST}, truth) == {Scored(2, 5)};
  }

  /** The tail re-scores id 1 from 10 to 0; its indexed copy still sets the bound and prunes id 2, so the
      search returns id 1 where brute force over what is live returns id 2. */
  lemma StaleCopyPrunesTheBest(truth: MemoryId -> int)
    requires truth(1) == 10 && truth(2) == 5
    ensures var tail, segs, rows := [Scored(1, 0)], [[STALE, BEST]], [map[1 := 10, 2 := 5]];
            && Sound(tail, segs, rows, 1, truth)
            && Top(FoundSet(tail, segs, 1, truth), 1) == [Scored(1, 0)]
            && Top(LiveSet(tail, {1}, segs, truth), 1) == [Scored(2, 5)]
  {
    StaleIsSound([Scored(1, 0)], truth);
    StaleSets(truth);
    TopOfOne(Scored(1, 0));
    TopOfTwo(Scored(2, 5), Scored(1, 0));
  }

  lemma DeletedSets(truth: MemoryId -> int)
    requires truth(1) == 10 && truth(2) == 5
    ensures FoundSet([], [[STALE, BEST]], 1, truth) == {Scored(1, 10)}
    ensures LiveSet([], {1}, [[STALE, BEST]], truth) == {Scored(2, 5)}
  {
    TwoCands(STALE, BEST);
    assert Ids([]) == {} && Elements<Scored>([]) == {};
    assert Outside({STALE}, {}) == {STALE} && Outside({STALE, BEST}, {1}) == {BEST};
    assert Image({STALE}, truth) == {Scored(1, 10)} && Image({BEST}, truth) == {Scored(2, 5)};
  }

  /** A predicate deletes the indexed copy of id 1 and the tail is empty: the copy still sets the bound and
      takes the one place, where what is live is id 2. */
  lemma DeletedCopyTakesThePlace(truth: MemoryId -> int)
    requires truth(1) == 10 && truth(2) == 5
    ensures var segs, rows := [[STALE, BEST]], [map[1 := 10, 2 := 5]];
            && Sound([], segs, rows, 1, truth)
            && Top(FoundSet([], segs, 1, truth), 1) == [Scored(1, 10)]
            && Top(LiveSet([], {1}, segs, truth), 1) == [Scored(2, 5)]
  {
    StaleIsSound([], truth);
    DeletedSets(truth);
    TopOfOne(Scored(1, 10));
    TopOfOne(Scored(2, 5));
  }

  lemma {:induction false} ContendersSmall(cands: seq<Cand>, tau: Option<int>)
    ensures |Contenders(cands, tau)| <= |cands|
  {
    if cands != [] { ContendersSmall(cands[1..], tau); }
  }
}

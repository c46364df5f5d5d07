/** The size-tiered compaction trigger and the segment count it keeps
    (crates/mlake-index/src/indexer.rs:75-115, 253-266). */
module Fanout {
  import opened Memories

  const COMPACT_FANOUT: nat := 8
  const MIN_RUN: nat := 2

  function Sum(counts: seq<nat>): nat {
    if counts == [] then 0 else Sum(counts[..|counts| - 1]) + counts[|counts| - 1]
  }

  /** The newest `k` segments together hold no more documents than the first segment kept. */
  predicate Fits(counts: seq<nat>, k: nat)
    requires k < |counts|
  {
    k >= MIN_RUN && Sum(counts[..k]) <= counts[k]
  }

  /** `run` is the longest fitting prefix, or none fits. */
  ghost predicate IsLongestRun(counts: seq<nat>, run: Option<nat>) {
    match run
    case Some(k) => k < |counts| && Fits(counts, k) && forall j :: k < j < |counts| ==> !Fits(counts, j)
    case None => forall j :: 0 <= j < |counts| ==> !Fits(counts, j)
  }

  method MinorRunLen(counts: seq<nat>) returns (best: Option<nat>)
    ensures IsLongestRun(counts, best)
  {
    best := None;
    var cum := 0;
    for k := 0 to |counts|
      invariant cum == Sum(counts[..k])
      invariant best.Some? ==> best.value < k && Fits(counts, best.value)
      invariant forall j :: (if best.Some? then best.value + 1 else 0) <= j < k ==> !Fits(counts, j)
    {
      if k >= MIN_RUN && cum <= counts[k] {
        best := Some(k);
      }
      cum := cum + counts[k];
      assert counts[..k + 1][..k] == counts[..k];
    }
  }

  // ---- Folds by any number of indexers -----------------------------------------------------------------

  datatype Plan = Rebuild | Minor(k: nat) | FlushTail

  /** Document counts newest-first, and what each indexer decided from the manifest it read. */
  datatype State = State(counts: seq<nat>, plans: map<nat, Plan>)

  datatype Step =
    | Decide(j: nat, plan: Plan)
    | Act(j: nat, docs: nat)
    | Lose(j: nat)

  /** What a fold chooses for the list it reads. */
  ghost predicate Chooses(counts: seq<nat>, plan: Plan) {
    if counts == [] || |counts| >= COMPACT_FANOUT then plan == Rebuild
    else match plan
         case Rebuild => false
         case Minor(k) => IsLongestRun(counts, Some(k))
         case FlushTail => IsLongestRun(counts, None)
  }

  /** What it then does to the list it finds; a prefix that is gone falls back to a flush. */
  function Apply(counts: seq<nat>, plan: Plan, docs: nat): seq<nat> {
    match plan
    case Rebuild => [docs]
    case Minor(k) => if MIN_RUN <= k <= |counts| then [docs] + counts[k..] else [docs] + counts
    case FlushTail => [docs] + counts
  }

  ghost predicate Next(indexers: nat, s: State, s': State, step: Step) {
    match step
    case Decide(j, plan) =>
      j < indexers && j !in s.plans && Chooses(s.counts, plan) && s' == s.(plans := s.plans[j := plan])
    case Act(j, docs) =>
      j in s.plans && s' == State(Apply(s.counts, s.plans[j], docs), s.plans - {j})
    case Lose(j) =>
      s' == s.(plans := s.plans - {j})
  }

  datatype Run = Run(states: seq<State>, steps: seq<Step>)

  ghost predicate RunOk(indexers: nat, r: Run) {
    && |r.states| == |r.steps| + 1
    && r.states[0] == State([], map[])
    && forall i :: 0 <= i < |r.steps| ==> Next(indexers, r.states[i], r.states[i + 1], r.steps[i])
  }

  function Flushers(plans: map<nat, Plan>): set<nat> {
    set j | j in plans && plans[j] == FlushTail
  }

  /** Every pending flush was decided below the cap, so list and pending flushes stay bounded together. */
  ghost predicate Inv(indexers: nat, s: State) {
    && (forall j :: j in s.plans ==> j < indexers)
    && (forall j :: j in s.plans && s.plans[j].Minor? ==> MIN_RUN <= s.plans[j].k < COMPACT_FANOUT)
    && (indexers == 0 ==> s.counts == [])
    && (indexers > 0 ==> |s.counts| + |Flushers(s.plans)| < COMPACT_FANOUT + indexers)
  }

  lemma {:induction false} BoundedSet(s: set<nat>, n: nat)
    requires forall x :: x in s ==> x < n
    ensures |s| <= n
  {
    if n == 0 {
      assert s == {};
    } else {
      BoundedSet(s - {n - 1}, n - 1);
    }
  }

  lemma FlushersWithout(plans: map<nat, Plan>, j: nat)
    ensures |Flushers(plans - {j})| == |Flushers(plans)| - (if j in Flushers(plans) then 1 else 0)
  {
    assert Flushers(plans - {j}) == Flushers(plans) - {j};
  }

  /** A pending plan of `j` that is not a flush leaves one indexer out of the flushers. */
  lemma FlushersBelow(indexers: nat, plans: map<nat, Plan>, j: nat)
    requires forall i :: i in plans ==> i < indexers
    requires j in plans && plans[j] != FlushTail
    ensures |Flushers(plans)| < indexers
  {
    BoundedSet(Flushers(plans) + {j}, indexers);
  }

  lemma StepKeeps(indexers: nat, s: State, s': State, step: Step)
    requires Inv(indexers, s) && Next(indexers, s, s', step)
    ensures Inv(indexers, s')
  {
    match step
    case Decide(j, plan) =>
      if plan == FlushTail {
        BoundedSet(Flushers(s'.plans), indexers);
      } else {
        assert Flushers(s'.plans) == Flushers(s.plans);
      }
    case Act(j, docs) =>
      FlushersWithout(s.plans, j);
      if s.plans[j] != FlushTail { FlushersBelow(indexers, s.plans, j); }
    case Lose(j) =>
      FlushersWithout(s.plans, j);
  }

  lemma {:induction false} RunKeeps(indexers: nat, r: Run, t: nat)
    requires RunOk(indexers, r) && t < |r.states|
    ensures Inv(indexers, r.states[t])
  {
    if t > 0 {
      RunKeeps(indexers, r, t - 1);
      StepKeeps(indexers, r.states[t - 1], r.states[t], r.steps[t - 1]);
    }
  }

  /** With `n` indexers folding at will the list never exceeds the cap by more than `n - 1`; with one it
      never exceeds the cap. */
  lemma SegmentsBounded(indexers: nat, r: Run, t: nat)
    requires RunOk(indexers, r) && t < |r.states| && indexers >= 1
    ensures |r.states[t].counts| <= COMPACT_FANOUT - 1 + indexers
    ensures indexers == 1 ==> |r.states[t].counts| <= COMPACT_FANOUT
  {
    RunKeeps(indexers, r, t);
  }

  // ---- The bound is reached -----------------------------------------------------------------------------

  function Last(r: Run): State
    requires r.states != []
  {
    r.states[|r.states| - 1]
  }

  lemma Extend(indexers: nat, r: Run, step: Step, s: State) returns (r': Run)
    requires RunOk(indexers, r) && Next(indexers, Last(r), s, step)
    ensures RunOk(indexers, r') && Last(r') == s
  {
    r' := Run(r.states + [s], r.steps + [step]);
    forall i | 0 <= i < |r'.steps| ensures Next(indexers, r'.states[i], r'.states[i + 1], r'.steps[i]) {
      if i < |r.steps| {
        assert r'.states[i] == r.states[i] && r'.states[i + 1] == r.states[i + 1] && r'.steps[i] == r.steps[i];
      }
    }
  }

  function Ones(n: nat): (r: seq<nat>)
    ensures |r| == n && forall i :: 0 <= i < n ==> r[i] == 1
  {
    seq(n, _ => 1)
  }

  lemma {:induction false} SumOnes(s: seq<nat>)
    requires forall i :: 0 <= i < |s| ==> s[i] == 1
    ensures Sum(s) == |s|
  {
    if s != [] { SumOnes(s[..|s| - 1]); }
  }

  /** Equal segments never fit under one of themselves. */
  lemma OnesHold(n: nat)
    ensures IsLongestRun(Ones(n), None)
  {
    forall j | 0 <= j < n ensures !Fits(Ones(n), j) {
      SumOnes(Ones(n)[..j]);
    }
  }

  /** One indexer alone builds `n` equal segments, below the cap. */
  lemma {:induction false} BuildOnes(indexers: nat, n: nat) returns (r: Run)
    requires indexers >= 1 && 1 <= n < COMPACT_FANOUT
    ensures RunOk(indexers, r) && Last(r) == State(Ones(n), map[])
  {
    if n == 1 {
      r := Run([State([], map[])], []);
      r := Extend(indexers, r, Decide(0, Rebuild), State([], map[0 := Rebuild]));
      assert map[0 := Rebuild] - {0} == map[];
      assert Ones(1) == [1];
      r := Extend(indexers, r, Act(0, 1), State(Ones(1), map[]));
    } else {
      r := BuildOnes(indexers, n - 1);
      OnesHold(n - 1);
      r := Extend(indexers, r, Decide(0, FlushTail), State(Ones(n - 1), map[0 := FlushTail]));
      assert map[0 := FlushTail] - {0} == map[];
      assert [1] + Ones(n - 1) == Ones(n);
      r := Extend(indexers, r, Act(0, 1), State(Ones(n), map[]));
    }
  }

  function AllFlush(n: nat): (r: map<nat, Plan>)
    ensures forall j: nat :: j in r <==> j < n
    ensures forall j :: j in r ==> r[j] == FlushTail
  {
    if n == 0 then map[] else AllFlush(n - 1)[n - 1 := FlushTail]
  }

  /** Everybody reads the list one below the cap and decides to flush. */
  lemma {:induction false} DecideAll(indexers: nat, n: nat) returns (r: Run)
    requires indexers >= 1 && n <= indexers
    ensures RunOk(indexers, r) && Last(r) == State(Ones(COMPACT_FANOUT - 1), AllFlush(n))
  {
    if n == 0 {
      r := BuildOnes(indexers, COMPACT_FANOUT - 1);
      assert AllFlush(0) == map[];
    } else {
      r := DecideAll(indexers, n - 1);
      OnesHold(COMPACT_FANOUT - 1);
      assert AllFlush(n - 1)[n - 1 := FlushTail] == AllFlush(n);
      r := Extend(indexers, r, Decide(n - 1, FlushTail), State(Ones(COMPACT_FANOUT - 1), AllFlush(n)));
    }
  }

  lemma {:induction false} ActAll(indexers: nat, n: nat) returns (r: Run)
    requires indexers >= 1 && n <= indexers
    ensures RunOk(indexers, r) && Last(r) == State(Ones(COMPACT_FANOUT - 1 + indexers - n), AllFlush(n))
    decreases indexers - n
  {
    if n == indexers {
      r := DecideAll(indexers, n);
    } else {
      r := ActAll(indexers, n + 1);
      var size := COMPACT_FANOUT - 1 + indexers - n;
      assert AllFlush(n + 1) - {n} == AllFlush(n);
      assert [1] + Ones(size - 1) == Ones(size);
      r := Extend(indexers, r, Act(n, 1), State(Ones(size), AllFlush(n)));
    }
  }

  /** The bound is tight for every number of indexers: each flush re-reads the manifest after the fold
      has chosen it, so racing flushes pile up past the cap. */
  lemma BoundIsReached(indexers: nat)
    requires indexers >= 1
    ensures exists r: Run :: RunOk(indexers, r) && |Last(r).counts| == COMPACT_FANOUT - 1 + indexers
  {
    var r := ActAll(indexers, 0);
  }

  /** A minor compaction can be due again at once, without a write in between: a delete-only segment
      merged with the memory it deletes leaves an empty one that again fits with its neighbour. */
  lemma BackToBackCompactions()
    ensures IsLongestRun([0, 1, 1, 1], Some(2)) && Apply([0, 1, 1, 1], Minor(2), 0) == [0, 1, 1]
    ensures IsLongestRun([0, 1, 1], Some(2))
  {
    var a, b := [0, 1, 1, 1], [0, 1, 1];
    assert a[..2] == [0, 1] && a[..3] == [0, 1, 1] && b[..2] == [0, 1];
    assert [0, 1][..1] == [0] && [0, 1, 1][..2] == [0, 1] && [0][..0] == [];
    assert Sum([0, 1]) == 1 && Sum([0, 1, 1]) == 2;
  }
}

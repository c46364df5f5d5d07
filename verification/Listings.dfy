/** What the log listing still shows once the collector has trimmed it: that folds and readers lose
    nothing they need, and exactly when the next publish can take the cursor back. */
module Listings {
  import opened Memories
  import opened Wal
  import opened Lsm
  import opened Protocol

  /** The entries still listed. */
  function Listed(log: seq<Entry>, trimmed: set<nat>): seq<Entry> {
    if log == [] then []
    else
      var n := |log| - 1;
      Listed(log[..n], trimmed) + if log[n].at in trimmed then [] else [log[n]]
  }

  /** No entry of `(lo, hi]` is trimmed. */
  ghost predicate Intact(log: seq<Entry>, trimmed: set<nat>, lo: nat, hi: nat) {
    forall i :: 0 <= i < |log| && lo < log[i].at <= hi ==> log[i].at !in trimmed
  }

  /** A listed slice is no longer than the slice of the whole log. */
  lemma {:induction false} ListedIsShorter(log: seq<Entry>, trimmed: set<nat>, lo: nat, hi: nat)
    ensures |Slice(Listed(log, trimmed), lo, hi)| <= |Slice(log, lo, hi)|
  {
    if log != [] {
      var n := |log| - 1;
      ListedIsShorter(log[..n], trimmed, lo, hi);
      ListedSnoc(log, trimmed, lo, hi);
    }
  }

  lemma ListedSnoc(log: seq<Entry>, trimmed: set<nat>, lo: nat, hi: nat)
    requires log != []
    ensures var n := |log| - 1;
            Slice(Listed(log, trimmed), lo, hi) ==
            Slice(Listed(log[..n], trimmed), lo, hi) + if lo < log[n].at <= hi && log[n].at !in trimmed then [log[n]] else []
  {
    var n := |log| - 1;
    var rest := Listed(log[..n], trimmed);
    if log[n].at !in trimmed {
      assert (rest + [log[n]])[..|rest|] == rest;
    } else {
      assert rest + [] == rest;
    }
  }

  lemma SliceSnoc(log: seq<Entry>, lo: nat, hi: nat)
    requires log != []
    ensures var n := |log| - 1;
            Slice(log, lo, hi) == Slice(log[..n], lo, hi) + if lo < log[n].at <= hi then [log[n]] else []
  {
  }

  lemma IntactSnoc(log: seq<Entry>, trimmed: set<nat>, lo: nat, hi: nat)
    requires log != []
    ensures var n := |log| - 1;
            Intact(log, trimmed, lo, hi) <==> Intact(log[..n], trimmed, lo, hi) && (lo < log[n].at <= hi ==> log[n].at !in trimmed)
  {
    var n := |log| - 1;
    assert forall i :: 0 <= i < n ==> log[..n][i] == log[i];
  }

  /** The listing shows a slice whole exactly when none of its entries is trimmed. */
  lemma {:induction false} ListedIffIntact(log: seq<Entry>, trimmed: set<nat>, lo: nat, hi: nat)
    ensures Slice(Listed(log, trimmed), lo, hi) == Slice(log, lo, hi) <==> Intact(log, trimmed, lo, hi)
  {
    if log != [] {
      var n := |log| - 1;
      ListedIffIntact(log[..n], trimmed, lo, hi);
      ListedIsShorter(log[..n], trimmed, lo, hi);
      ListedSnoc(log, trimmed, lo, hi);
      SliceSnoc(log, lo, hi);
      IntactSnoc(log, trimmed, lo, hi);
      LastAlike(Slice(Listed(log[..n], trimmed), lo, hi), Slice(log[..n], lo, hi), log[n]);
    }
  }

  lemma LastAlike(a: seq<Entry>, b: seq<Entry>, e: Entry)
    ensures a + [e] == b + [e] <==> a == b
    ensures |a| <= |b| ==> a != b + [e]
  {
    if a + [e] == b + [e] {
      assert (a + [e])[..|a|] == a && (b + [e])[..|b|] == b;
    }
  }

  // ---- What readers and folds still find ---------------------------------------------------------

  /** In every reachable state a reader of the current or the previous manifest finds its tail whole. */
  lemma ReadersFindTheirTail(r: Run, t: nat, i: nat, head: nat)
    requires RunOk(r) && RunGuarded(r) && t < |r.states| && i < |r.states[t].history| <= i + 2
    ensures var s := r.states[t];
            && Intact(s.log, s.trimmed, s.history[i].cursor, head)
            && Slice(Listed(s.log, s.trimmed), s.history[i].cursor, head) == Slice(s.log, s.history[i].cursor, head)
  {
    var s := r.states[t];
    RunKeepsInv(r, t);
    TailKept(s, i);
    ListedIffIntact(s.log, s.trimmed, s.history[i].cursor, head);
  }

  lemma TailKept(s: Sys, i: nat)
    requires Inv(s) && i < |s.history| <= i + 2
    ensures s.Current().prevCursor <= s.history[i].cursor
  {
    var last := |s.history| - 1;
    assert ManifestInv(s.log, s.history[last]);
    if i < last { assert Folds(s.log, s.history[i], s.history[last]); }
  }

  /** For any published manifest: legal trims can cut into its tail exactly when its cursor is below the
      previous cursor of the current one. */
  lemma TailCanBeCutIffOlder(r: Run, t: nat, i: nat)
    requires RunOk(r) && RunGuarded(r) && t < |r.states| && i < |r.states[t].history|
    ensures var s := r.states[t];
            (exists trims :: LegalTrims(s, trims) && !Intact(s.log, trims, s.history[i].cursor, LastAt(s.log))) <==>
            s.history[i].cursor < s.Current().prevCursor
  {
    var s := r.states[t];
    RunKeepsInv(r, t);
    if s.history[i].cursor < s.Current().prevCursor {
      var k := PreviousIsEntry(s);
      var trims := s.trimmed + {s.log[k].at};
      LastIsLargest(s.log, k);
      assert LegalTrims(s, trims) && !Intact(s.log, trims, s.history[i].cursor, LastAt(s.log));
    }
  }

  lemma PreviousIsEntry(s: Sys) returns (k: nat)
    requires Inv(s) && s.Current().prevCursor > 0
    ensures k < |s.log| && s.log[k].at == s.Current().prevCursor
  {
    var last := |s.history| - 1;
    assert last > 0;
    assert Folds(s.log, s.history[last - 1], s.history[last]);
    assert ManifestInv(s.log, s.history[last - 1]);
    k :| 0 <= k < |s.log| && s.log[k].at == s.history[last - 1].cursor;
  }

  lemma LastIsLargest(log: seq<Entry>, k: nat)
    requires LogOk(log) && k < |log|
    ensures log[k].at <= LastAt(log)
  {
    if k < |log| - 1 { assert log[k].at < log[|log| - 1].at; }
  }

  /** The log only grows, and so do the trims. */
  ghost predicate Later(a: Sys, b: Sys) {
    && |a.log| <= |b.log| && b.log[..|a.log|] == a.log
    && a.trimmed <= b.trimmed
  }

  lemma {:induction false} RunMovesOn(r: Run, u: nat, t: nat)
    requires RunOk(r) && u <= t < |r.states|
    ensures Later(r.states[u], r.states[t])
    decreases t - u
  {
    if u < t {
      RunMovesOn(r, u, t - 1);
      StepMovesOn(r.states[t - 1], r.states[t], r.steps[t - 1]);
      LaterTrans(r.states[u], r.states[t - 1], r.states[t]);
    } else {
      assert r.states[t].log[..|r.states[u].log|] == r.states[u].log;
    }
  }

  lemma StepMovesOn(a: Sys, b: Sys, step: Step)
    requires a.history != [] && Next(a, b, step)
    ensures Later(a, b)
  {
    if !step.Append? { assert b.log[..|a.log|] == a.log; }
  }

  lemma LaterTrans(a: Sys, b: Sys, c: Sys)
    requires Later(a, b) && Later(b, c)
    ensures Later(a, c)
  {
    assert c.log[..|a.log|] == c.log[..|b.log|][..|a.log|];
  }

  lemma {:induction false} SliceOfLonger(log: seq<Entry>, n: nat, lo: nat, hi: nat)
    requires LogOk(log) && n <= |log| && hi <= LastAt(log[..n])
    ensures Slice(log, lo, hi) == Slice(log[..n], lo, hi)
    decreases |log|
  {
    if n < |log| {
      var last := |log| - 1;
      assert log[..last][..n] == log[..n];
      if n > 0 { assert log[n - 1].at < log[last].at; }
      SliceOfLonger(log[..last], n, lo, hi);
    } else {
      assert log[..n] == log;
    }
  }

  ghost predicate Swaps(s: Sys, step: Step)
    requires s.history != []
  {
    step.Publish? && step.j in s.jobs && s.jobs[step.j].Opened? && s.Current() == s.jobs[step.j].base
  }

  /** Whenever between its listing and its swap a fold reads the log: if the swap succeeds, the listing
      showed it the whole slice that the published manifest stands for. */
  lemma SwapFoldedTheWholeSlice(r: Run, u: nat, t: nat)
    requires RunOk(r) && RunGuarded(r) && u <= t < |r.steps| && Swaps(r.states[t], r.steps[t])
    requires r.states[t].jobs[r.steps[t].j].head <= LastAt(r.states[u].log)
    ensures var job := r.states[t].jobs[r.steps[t].j];
            Slice(Listed(r.states[u].log, r.states[u].trimmed), job.base.cursor, job.head) ==
            Slice(r.states[t].log, job.base.cursor, job.head)
  {
    var a, b, job := r.states[u], r.states[t], r.states[t].jobs[r.steps[t].j];
    RunKeepsInv(r, t);
    RunMovesOn(r, u, t);
    TailKept(b, |b.history| - 1);
    forall i | 0 <= i < |a.log| && job.base.cursor < a.log[i].at <= job.head ensures a.log[i].at !in a.trimmed {
      assert a.log[i].at !in b.trimmed;
    }
    ListedIffIntact(a.log, a.trimmed, job.base.cursor, job.head);
    SliceOfLonger(b.log, |a.log|, job.base.cursor, job.head);
  }

  // ---- When the next publish can take the cursor back --------------------------------------------

  /** Any continuation, guarded or not. */
  ghost predicate PathOk(p: Run) {
    && |p.states| == |p.steps| + 1
    && forall i :: 0 <= i < |p.steps| ==> p.states[i].history != [] && Next(p.states[i], p.states[i + 1], p.steps[i])
  }

  /** Its first `n` steps swap nothing. */
  ghost predicate Quiet(p: Run, n: nat)
    requires PathOk(p) && n <= |p.steps|
  {
    forall i :: 0 <= i < n ==> !Swaps(p.states[i], p.steps[i])
  }

  /** The first swap of the continuation is its last step, and lowers the cursor. */
  ghost predicate FirstSwapLowers(p: Run) {
    && PathOk(p) && p.steps != [] && Quiet(p, |p.steps| - 1)
    && var n := |p.steps| - 1;
       && Swaps(p.states[n], p.steps[n]) && p.states[n + 1].history != []
       && p.states[n + 1].Current().cursor < p.states[n].Current().cursor
  }

  /** A job that has listed a head behind the manifest it would replace. */
  ghost predicate Behind(s: Sys, j: nat)
    requires s.history != []
  {
    && j in s.jobs && !s.jobs[j].Read?
    && s.jobs[j].base == s.Current() && s.jobs[j].head < s.Current().cursor
  }

  ghost predicate NothingNew(s: Sys)
    requires s.history != []
  {
    0 < s.Current().cursor && s.Current().prevCursor == s.Current().cursor == LastAt(s.log)
  }

  /** The last publish folded nothing and nothing came since, or a job saw the log when that was so. */
  ghost predicate Exposed(s: Sys)
    requires s.history != []
  {
    NothingNew(s) || exists j :: Behind(s, j)
  }

  lemma QuietStepKeepsInv(s: Sys, s': Sys, step: Step)
    requires Inv(s) && Next(s, s', step) && !Swaps(s, step)
    ensures Inv(s') && s'.history == s.history
  {
    if step.Publish? {
      DropJobKeepsInv(s, s', step.j);
    } else {
      StepKeepsInv(s, s', step);
    }
  }

  lemma ListsUnlessNothingNew(s: Sys)
    requires Inv(s)
    ensures NothingNew(s) || ListedHead(s.log, s.trimmed) >= s.Current().cursor
    ensures s.Current().cursor <= LastAt(s.log)
  {
    assert ManifestInv(s.log, s.history[|s.history| - 1]);
    if !NothingNew(s) && s.Current().cursor > 0 { UntrimmedEntry(s, s.trimmed); }
  }

  /** Without a swap no state becomes exposed. */
  lemma QuietStepExposesNothing(s: Sys, s': Sys, step: Step)
    requires Inv(s) && Next(s, s', step) && !Swaps(s, step)
    ensures s'.history == s.history && (Exposed(s') ==> Exposed(s))
  {
    ListsUnlessNothingNew(s);
    QuietKeepsHistory(s, s', step);
    QuietExposes(s, s', step);
  }

  lemma QuietExposes(s: Sys, s': Sys, step: Step)
    requires s.history != [] && Next(s, s', step) && s'.history == s.history
    requires s'.log == s.log || LastAt(s'.log) > LastAt(s.log) >= s.Current().cursor
    requires NothingNew(s) || ListedHead(s.log, s.trimmed) >= s.Current().cursor
    ensures Exposed(s') ==> Exposed(s)
  {
    assert s'.Current() == s.Current();
    if j :| Behind(s', j) {
      QuietJob(s, s', step, j);
    }
  }

  lemma QuietKeepsHistory(s: Sys, s': Sys, step: Step)
    requires s.history != [] && Next(s, s', step) && !Swaps(s, step)
    ensures s'.history == s.history && (s'.log == s.log || LastAt(s'.log) > LastAt(s.log))
  {
  }

  /** A job's head below the cursor was there before, or has just been listed. */
  lemma QuietJob(s: Sys, s': Sys, step: Step, j: nat)
    requires s.history != [] && Next(s, s', step) && s'.history == s.history
    ensures Behind(s', j) ==> Behind(s, j) || ListedHead(s.log, s.trimmed) < s.Current().cursor
  {
  }

  lemma {:induction false} QuietExposesNothing(p: Run, n: nat)
    requires PathOk(p) && Inv(p.states[0]) && n <= |p.steps| && Quiet(p, n)
    ensures Inv(p.states[n]) && (Exposed(p.states[n]) ==> Exposed(p.states[0]))
  {
    if n > 0 {
      QuietExposesNothing(p, n - 1);
      var s, s', step := p.states[n - 1], p.states[n], p.steps[n - 1];
      assert !Swaps(s, step);
      QuietStepKeepsInv(s, s', step);
      QuietStepExposesNothing(s, s', step);
    }
  }

  lemma LowersFromExposed(p: Run)
    requires FirstSwapLowers(p) && Inv(p.states[0])
    ensures Exposed(p.states[0])
  {
    var n := |p.steps| - 1;
    QuietExposesNothing(p, n);
    LoweringJobIsBehind(p.states[n], p.states[n + 1], p.steps[n]);
  }

  lemma LoweringJobIsBehind(s: Sys, s': Sys, step: Step)
    requires s.history != [] && Next(s, s', step) && Swaps(s, step)
    requires s'.history != [] && s'.Current().cursor < s.Current().cursor
    ensures Behind(s, step.j)
  {
    BuiltCursors(s.log, s.jobs[step.j], step.kind, step.newId, step.nodeDocs);
  }

  // ---- Building the continuation -------------------------------------------------------------------

  lemma Then(p: Run, step: Step, s': Sys) returns (q: Run)
    requires PathOk(p) && Quiet(p, |p.steps|) && Last(p).history != [] && Next(Last(p), s', step)
    ensures q == Run(p.states + [s'], p.steps + [step]) && PathOk(q) && Quiet(q, |p.steps|)
    ensures q.states[0] == p.states[0] && Last(q) == s' && q.states[|p.steps|] == Last(p) && q.steps[|p.steps|] == step
    ensures !Swaps(Last(p), step) ==> Quiet(q, |q.steps|)
  {
    q := Run(p.states + [s'], p.steps + [step]);
    forall i | 0 <= i < |q.steps| ensures q.states[i].history != [] && Next(q.states[i], q.states[i + 1], q.steps[i]) {
      if i < |p.steps| { SameStep(p, step, s', i); }
    }
    forall i | 0 <= i < |p.steps| ensures !Swaps(q.states[i], q.steps[i]) {
      SameStep(p, step, s', i);
    }
  }

  lemma SameStep(p: Run, step: Step, s': Sys, i: nat)
    requires |p.states| == |p.steps| + 1 && i < |p.steps|
    ensures (p.states + [s'])[i] == p.states[i] && (p.states + [s'])[i + 1] == p.states[i + 1]
    ensures (p.steps + [step])[i] == p.steps[i]
  {
  }

  /** The collector trims the first `n` entries, one by one. */
  lemma {:induction false} TrimFirst(s: Sys, n: nat) returns (p: Run)
    requires Inv(s) && NothingNew(s) && n <= |s.log|
    ensures PathOk(p) && Quiet(p, |p.steps|) && p.states[0] == s
    ensures Last(p).log == s.log && Last(p).history == s.history
    ensures forall i :: 0 <= i < n ==> s.log[i].at in Last(p).trimmed
  {
    if n == 0 {
      p := Run([s], []);
    } else {
      p := TrimFirst(s, n - 1);
      var at, now := s.log[n - 1].at, Last(p);
      LastIsLargest(s.log, n - 1);
      assert at <= now.history[|now.history| - 1].prevCursor;
      p := Then(p, Trim(at), now.(trimmed := now.trimmed + {at}));
    }
  }

  lemma {:induction false} IdAbove(ids: set<nat>) returns (b: nat)
    ensures forall x :: x in ids ==> x < b
  {
    if ids == {} {
      b := 0;
    } else {
      var x :| x in ids;
      var rest := ids - {x};
      b := IdAbove(rest);
      b := if b <= x then x + 1 else b;
      assert forall y :: y in ids ==> y == x || y in rest;
    }
  }

  lemma NewId(history: seq<Manifest>) returns (newId: nat)
    ensures FreshId(history, newId)
  {
    var ids := set m, g | m in history && g in m.segments :: g.id;
    newId := IdAbove(ids);
    forall m, g | m in history && g in m.segments ensures g.id != newId {
      assert g.id in ids;
    }
  }

  /** A job that listed too low a head finishes and rebuilds. */
  lemma Finish(p: Run, j: nat) returns (q: Run)
    requires PathOk(p) && Quiet(p, |p.steps|) && Last(p).history != [] && Behind(Last(p), j)
    ensures q.states != [] && q.states[0] == p.states[0] && FirstSwapLowers(q)
  {
    q := p;
    var s := Last(p);
    if s.jobs[j].Headed? {
      q := Then(q, OpenNode(j), s.(jobs := s.jobs[j := Opened(s.jobs[j].base, s.jobs[j].head, s.Current())]));
      s := Last(q);
    }
    var step, s' := Rebuild(s, j);
    q := Then(q, step, s');
  }

  lemma Rebuild(s: Sys, j: nat) returns (step: Step, s': Sys)
    requires s.history != [] && Behind(s, j) && s.jobs[j].Opened?
    ensures Next(s, s', step) && Swaps(s, step) && s'.history != [] && s'.Current().cursor < s.Current().cursor
  {
    var job := s.jobs[j];
    var newId := NewId(s.history);
    var next := Built(s.log, job, Index, newId, map[]);
    BuiltCursors(s.log, job, Index, newId, map[]);
    step := Publish(j, Index, newId, map[]);
    s' := s.(jobs := s.jobs - {j}, history := s.history + [next]);
  }

  /** The collector trims everything and a job lists the empty log. */
  lemma ListNothing(s: Sys) returns (p: Run)
    requires Inv(s) && NothingNew(s)
    ensures PathOk(p) && Quiet(p, |p.steps|) && p.states[0] == s
    ensures Last(p).log == s.log && Last(p).history == s.history && Behind(Last(p), 0)
  {
    p := TrimFirst(s, |s.log|);
    var now := Last(p);
    AllTrimmed(now.log, now.trimmed);
    p := Then(p, ReadManifest(0), now.(jobs := now.jobs[0 := Read(now.Current())]));
    now := Last(p);
    p := Then(p, ListHead(0), now.(jobs := now.jobs[0 := Headed(now.jobs[0].base, 0)]));
  }

  /** An append does not end the exposure: a job that listed before it still holds the low head. */
  lemma AppendComesTooLate(s: Sys) returns (p: Run)
    requires Inv(s) && NothingNew(s)
    ensures PathOk(p) && Quiet(p, |p.steps|) && p.states[0] == s
    ensures Last(p).history == s.history && !NothingNew(Last(p)) && Exposed(Last(p))
  {
    p := ListNothing(s);
    var now := Last(p);
    var e := Entry(LastAt(s.log) + 1, []);
    p := Then(p, Append(e), now.(log := now.log + [e]));
    assert Behind(Last(p), 0);
  }

  lemma ExposedLowers(s: Sys) returns (p: Run)
    requires Inv(s) && Exposed(s)
    ensures p.states != [] && p.states[0] == s && FirstSwapLowers(p)
  {
    if NothingNew(s) {
      p := ListNothing(s);
      p := Finish(p, 0);
    } else {
      var j :| Behind(s, j);
      p := Finish(Run([s], []), j);
    }
  }

  /** In every reachable state: some continuation's next publish lowers the cursor if and only if the last
      publish folded nothing and nothing has been appended since, or a job still holds a head it listed
      when that was so. */
  lemma NextSwapCanLowerIffExposed(r: Run, t: nat)
    requires RunOk(r) && RunGuarded(r) && t < |r.states| && r.states[t].history != []
    ensures (exists p: Run :: p.states != [] && p.states[0] == r.states[t] && FirstSwapLowers(p)) <==> Exposed(r.states[t])
  {
    RunKeepsInv(r, t);
    if Exposed(r.states[t]) {
      var p := ExposedLowers(r.states[t]);
    } else {
      forall p: Run | p.states != [] && p.states[0] == r.states[t] ensures !FirstSwapLowers(p) {
        if FirstSwapLowers(p) { LowersFromExposed(p); }
      }
    }
  }
}

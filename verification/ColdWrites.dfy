/** The sequence a writer without a cached one claims (crates/mlake-wal/src/commit.rs:53-73): one past the
    larger of the listed head and the head the manifest remembers. */
module ColdWrites {
  import opened Memories
  import opened Wal
  import opened Lsm
  import opened Protocol
  import opened Listings

  function ColdNext(s: Sys): nat
    requires s.history != []
  {
    var listed, folded := ListedHead(s.log, s.trimmed), s.Current().walHead;
    (if listed < folded then folded else listed) + 1
  }

  /** Above every entry ever appended, and above what the manifest covers. */
  ghost predicate FreshClaim(s: Sys)
    requires s.history != []
  {
    (forall i :: 0 <= i < |s.log| ==> s.log[i].at < ColdNext(s)) && s.Current().cursor < ColdNext(s)
  }

  lemma BuiltRemembersItsCursor(log: seq<Entry>, job: Job, kind: Kind, newId: nat, nodeDocs: Docs)
    requires job.Opened? && Legal(kind, job.base, job.head)
    ensures var m := Built(log, job, kind, newId, nodeDocs); m.walHead == m.cursor
  {
  }

  /** In every run, guarded or not, each published manifest remembers as head exactly what it has folded. */
  lemma {:induction false} HeadIsCursor(r: Run, t: nat)
    requires RunOk(r) && t < |r.states|
    ensures r.states[t].history != [] && forall i :: 0 <= i < |r.states[t].history| ==>
              r.states[t].history[i].walHead == r.states[t].history[i].cursor
  {
    if t > 0 {
      HeadIsCursor(r, t - 1);
      HeadStep(r.states[t - 1], r.states[t], r.steps[t - 1]);
    }
  }

  lemma HeadStep(s: Sys, s': Sys, step: Step)
    requires s.history != [] && Next(s, s', step)
    requires forall i :: 0 <= i < |s.history| ==> s.history[i].walHead == s.history[i].cursor
    ensures s'.history != [] && forall i :: 0 <= i < |s'.history| ==> s'.history[i].walHead == s'.history[i].cursor
  {
    if Swaps(s, step) {
      BuiltRemembersItsCursor(s.log, s.jobs[step.j], step.kind, step.newId, step.nodeDocs);
    }
  }

  /** Sequences rise along the log, in every run. */
  lemma {:induction false} LogRises(r: Run, t: nat)
    requires RunOk(r) && t < |r.states|
    ensures LogOk(r.states[t].log)
  {
    if t > 0 {
      LogRises(r, t - 1);
      var s, step := r.states[t - 1], r.steps[t - 1];
      if step.Append? {
        forall i | 0 <= i < |s.log| ensures s.log[i].at < step.e.at { LastIsLargest(s.log, i); }
        LogOkSnoc(s.log, step.e);
      }
    }
  }

  /** In every reachable state of a guarded run a cold claim is fresh: no sequence is used twice, and the
      write lands above the cursor, where readers and folds look for it. */
  lemma ColdClaimsAreFresh(r: Run, t: nat)
    requires RunOk(r) && RunGuarded(r) && t < |r.states|
    ensures r.states[t].history != [] && FreshClaim(r.states[t])
  {
    var s := r.states[t];
    RunKeepsInv(r, t);
    HeadIsCursor(r, t);
    TailKept(s, |s.history| - 1);
    if s.log != [] && LastAt(s.log) > s.Current().cursor {
      var n := |s.log| - 1;
      assert s.log[n].at !in s.trimmed;
    }
    forall i | 0 <= i < |s.log| ensures s.log[i].at < ColdNext(s) { LastIsLargest(s.log, i); }
  }

  /** So a cold writer's append is one the log accepts. */
  lemma ColdAppendsAreLegal(r: Run, t: nat, ops: seq<Op>)
    requires RunOk(r) && RunGuarded(r) && t < |r.states| && PatchFreeEntry(Entry(0, ops))
    ensures r.states[t].history != []
    ensures var s := r.states[t];
            var e := Entry(ColdNext(s), ops);
            Next(s, s.(log := s.log + [e]), Append(e))
  {
    ColdClaimsAreFresh(r, t);
  }

  /** In every run whatsoever, a cold claim is fresh if and only if the last entry is still listed or the
      current manifest covers it. */
  lemma ColdClaimIsFreshIff(r: Run, t: nat)
    requires RunOk(r) && t < |r.states|
    ensures r.states[t].history != []
    ensures var s := r.states[t];
            FreshClaim(s) <==> s.log == [] || s.log[|s.log| - 1].at !in s.trimmed || LastAt(s.log) <= s.Current().cursor
  {
    var s := r.states[t];
    HeadIsCursor(r, t);
    LogRises(r, t);
    forall i | 0 <= i < |s.log| ensures s.log[i].at <= LastAt(s.log) { LastIsLargest(s.log, i); }
    if s.log != [] && s.log[|s.log| - 1].at in s.trimmed {
      ListedBelowLast(s.log, s.trimmed);
    }
  }

  lemma {:induction false} ListedBelowLast(log: seq<Entry>, trimmed: set<nat>)
    requires LogOk(log) && log != [] && log[|log| - 1].at in trimmed
    ensures ListedHead(log, trimmed) < LastAt(log) || LastAt(log) == 0
  {
    var n := |log| - 1;
    ListedAtMostLast(log[..n], trimmed);
    if n > 0 { assert log[n - 1].at < log[n].at; }
  }

  lemma {:induction false} ListedAtMostLast(log: seq<Entry>, trimmed: set<nat>)
    requires LogOk(log)
    ensures ListedHead(log, trimmed) <= LastAt(log)
  {
    if log != [] {
      var n := |log| - 1;
      ListedAtMostLast(log[..n], trimmed);
      if n > 0 { assert log[n - 1].at < log[n].at; }
    }
  }
}

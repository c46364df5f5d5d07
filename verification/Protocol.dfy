/** The publication protocol as a transition system: appending writers, any number of stateless
    indexers that read the manifest, list the log head, open a snapshot, build and swap or lose, and
    a collector that trims folded log entries. The specification is sequential replay of the log. */
module Protocol {
  import opened Memories
  import opened Sorting
  import opened Wal
  import opened Lsm

  // ---- Slices of the log ----------------------------------------------------------------------

  /** Entries with `lo < at <= hi`, in order. */
  function Slice(log: seq<Entry>, lo: nat, hi: nat): seq<Entry> {
    if log == [] then []
    else
      var n := |log| - 1;
      var rest := Slice(log[..n], lo, hi);
      if lo < log[n].at <= hi then rest + [log[n]] else rest
  }

  function SliceEvents(log: seq<Entry>, lo: nat, hi: nat): seq<Event> {
    Flatten(Slice(log, lo, hi))
  }

  /** What the namespace holds once everything through `hi` has been applied. */
  function ReplayThrough(log: seq<Entry>, hi: nat): Docs {
    Replay(Slice(log, 0, hi))
  }

  function LastAt(log: seq<Entry>): nat {
    if log == [] then 0 else log[|log| - 1].at
  }

  // ---- States and steps -----------------------------------------------------------------------

  datatype Job =
    | Read(base: Manifest)
    | Headed(base: Manifest, head: nat)
    | Opened(base: Manifest, head: nat, node: Manifest)

  /** `history` holds every published manifest, the current one last. */
  datatype Sys = Sys(log: seq<Entry>, trimmed: set<nat>, history: seq<Manifest>, jobs: map<nat, Job>) {
    function Current(): Manifest
      requires history != []
    {
      history[|history| - 1]
    }
  }

  datatype Kind = Flush | Minor(k: nat) | Index

  datatype Step =
    | Append(e: Entry)
    | ReadManifest(j: nat)
    | ListHead(j: nat)
    | OpenNode(j: nat)
    | Publish(j: nat, kind: Kind, newId: nat, nodeDocs: Docs)
    | Crash(j: nat)
    | Trim(at: nat)

  /** The head an indexer sees: the highest sequence still listed, 0 when nothing is. */
  function ListedHead(log: seq<Entry>, trimmed: set<nat>): nat {
    if log == [] then 0
    else
      var n := |log| - 1;
      if log[n].at in trimmed then ListedHead(log[..n], trimmed) else log[n].at
  }

  predicate Legal(kind: Kind, base: Manifest, head: nat) {
    match kind
    case Flush => base.cursor < head
    case Minor(k) => 2 <= k <= |base.segments|
    case Index => true
  }

  /** The manifest a finished job would swap in. */
  function Built(log: seq<Entry>, job: Job, kind: Kind, newId: nat, nodeDocs: Docs): Manifest
    requires job.Opened? && Legal(kind, job.base, job.head)
  {
    var scan := FoldTail(SliceEvents(log, job.base.cursor, job.head));
    var node := Node(job.node.segments, nodeDocs);
    match kind
    case Flush => FlushManifest(job.base, job.head, scan, node, newId)
    case Minor(k) => MinorManifest(job.base, k, job.head, scan, node, newId)
    case Index => IndexManifest(job.base, job.head, scan, newId)
  }

  predicate FreshId(history: seq<Manifest>, newId: nat) {
    forall m, s :: m in history && s in m.segments ==> s.id != newId
  }

  ghost predicate Init(s: Sys) {
    s == Sys([], {}, [EMPTY_MANIFEST], map[])
  }

  ghost predicate PatchFreeEntry(e: Entry) {
    forall i :: 0 <= i < |e.ops| ==> !e.ops[i].Patch?
  }

  ghost predicate Next(s: Sys, s': Sys, step: Step)
    requires s.history != []
  {
    match step
    case Append(e) =>
      && e.at > LastAt(s.log) && PatchFreeEntry(e)
      && s' == s.(log := s.log + [e])
    case ReadManifest(j) =>
      s' == s.(jobs := s.jobs[j := Read(s.Current())])
    case ListHead(j) =>
      && j in s.jobs && s.jobs[j].Read?
      && s' == s.(jobs := s.jobs[j := Headed(s.jobs[j].base, ListedHead(s.log, s.trimmed))])
    case OpenNode(j) =>
      && j in s.jobs && s.jobs[j].Headed?
      && s' == s.(jobs := s.jobs[j := Opened(s.jobs[j].base, s.jobs[j].head, s.Current())])
    case Publish(j, kind, newId, nodeDocs) =>
      && j in s.jobs && s.jobs[j].Opened? && FreshId(s.history, newId)
      && Legal(kind, s.jobs[j].base, s.jobs[j].head)
      && s' == s.(jobs := s.jobs - {j},
                  history := if s.Current() == s.jobs[j].base
                             then s.history + [Built(s.log, s.jobs[j], kind, newId, nodeDocs)]
                             else s.history)
    case Crash(j) =>
      s' == s.(jobs := s.jobs - {j})
    case Trim(at) =>
      && (exists i :: 0 <= i < |s.history| && at <= s.history[i].prevCursor)
      && s' == s.(trimmed := s.trimmed + {at})
  }

  /** The listing a fold acted on reached the cursor it folds from. Flush checks this itself; the
      full rebuild and the minor compaction do not. */
  ghost predicate ListingReachesCursor(s: Sys, step: Step) {
    step.Publish? && step.j in s.jobs && s.jobs[step.j].Opened? ==>
      s.jobs[step.j].head >= s.jobs[step.j].base.cursor
  }

  datatype Run = Run(states: seq<Sys>, steps: seq<Step>)

  ghost predicate RunOk(r: Run) {
    && |r.states| == |r.steps| + 1
    && Init(r.states[0])
    && forall i :: 0 <= i < |r.steps| ==>
         r.states[i].history != [] && Next(r.states[i], r.states[i + 1], r.steps[i])
  }

  ghost predicate RunGuarded(r: Run)
    requires |r.states| == |r.steps| + 1
  {
    forall i :: 0 <= i < |r.steps| ==> ListingReachesCursor(r.states[i], r.steps[i])
  }

  // ---- Invariant ------------------------------------------------------------------------------

  ghost predicate IsEntry(log: seq<Entry>, at: nat) {
    at == 0 || exists i :: 0 <= i < |log| && log[i].at == at
  }

  ghost predicate LogInv(log: seq<Entry>) {
    && LogOk(log)
    && (forall i :: 0 <= i < |log| ==> log[i].at >= 1 && PatchFreeEntry(log[i]))
  }

  ghost predicate ManifestInv(log: seq<Entry>, m: Manifest) {
    && SegsOk(m.segments, m.cursor)
    && IsEntry(log, m.cursor)
    && m.cursor <= LastAt(log)
    && m.prevCursor <= m.cursor
  }

  /** `b` folds exactly the slice between the two cursors into `a`. */
  ghost predicate Folds(log: seq<Entry>, a: Manifest, b: Manifest) {
    && b.version == a.version + 1
    && b.prevCursor == a.cursor <= b.cursor
    && Resolve(b.segments) == Overlay(Resolve(a.segments), FoldTail(SliceEvents(log, a.cursor, b.cursor)))
  }

  ghost predicate HistoryInv(log: seq<Entry>, h: seq<Manifest>) {
    && h != [] && h[0] == EMPTY_MANIFEST
    && (forall i :: 0 <= i < |h| ==> h[i].version == i && ManifestInv(log, h[i]))
    && (forall i :: 0 <= i < |h| - 1 ==> Folds(log, h[i], h[i + 1]))
  }

  ghost predicate Published(h: seq<Manifest>, m: Manifest) {
    m.version < |h| && h[m.version] == m
  }

  ghost predicate JobInv(log: seq<Entry>, h: seq<Manifest>, job: Job) {
    && Published(h, job.base)
    && (job.Headed? || job.Opened? ==> IsEntry(log, job.head) && job.head <= LastAt(log))
    && (job.Opened? ==> Published(h, job.node) && job.base.version <= job.node.version)
  }

  ghost predicate Inv(s: Sys) {
    && LogInv(s.log)
    && HistoryInv(s.log, s.history)
    && (forall j :: j in s.jobs ==> JobInv(s.log, s.history, s.jobs[j]))
    && (forall t :: t in s.trimmed ==> t <= s.Current().prevCursor)
  }

  // ---- Slice algebra --------------------------------------------------------------------------

  lemma {:induction false} SliceMembers(log: seq<Entry>, lo: nat, hi: nat)
    requires LogInv(log)
    ensures var sl := Slice(log, lo, hi);
            && LogOk(sl)
            && (forall i :: 0 <= i < |sl| ==> lo < sl[i].at <= hi && sl[i].at <= LastAt(log) && PatchFreeEntry(sl[i]))
  {
    if log != [] {
      var n := |log| - 1;
      SliceMembers(log[..n], lo, hi);
      if n > 0 { assert log[n - 1].at < log[n].at; }
      var rest := Slice(log[..n], lo, hi);
      assert forall i :: 0 <= i < |rest| ==> rest[i].at <= LastAt(log[..n]) <= LastAt(log);
      if lo < log[n].at <= hi {
        assert n == 0 ==> rest == [];
        assert Slice(log, lo, hi) == rest + [log[n]];
        LogOkSnoc(rest, log[n]);
      } else {
        assert Slice(log, lo, hi) == rest;
      }
    }
  }

  lemma LogOkSnoc(log: seq<Entry>, e: Entry)
    requires LogOk(log) && forall i :: 0 <= i < |log| ==> log[i].at < e.at
    ensures LogOk(log + [e])
  {
    var r := log + [e];
    forall i, j | 0 <= i < j < |r| ensures r[i].at < r[j].at {
      assert r[i] == log[i];
    }
  }

  lemma {:induction false} SliceAppend(log: seq<Entry>, e: Entry, lo: nat, hi: nat)
    requires hi < e.at
    ensures Slice(log + [e], lo, hi) == Slice(log, lo, hi)
  {
    assert (log + [e])[..|log|] == log;
  }

  lemma {:induction false} SliceEmpty(log: seq<Entry>, lo: nat, hi: nat)
    requires hi <= lo
    ensures Slice(log, lo, hi) == []
  {
    if log != [] { SliceEmpty(log[..|log| - 1], lo, hi); }
  }

  lemma {:induction false} SliceAbove(log: seq<Entry>, lo: nat, hi: nat)
    requires LogOk(log) && LastAt(log) <= lo
    ensures Slice(log, lo, hi) == []
  {
    if log != [] {
      var n := |log| - 1;
      if n > 0 { assert log[n - 1].at < log[n].at; }
      SliceAbove(log[..n], lo, hi);
    }
  }

  lemma {:induction false} SliceJoin(log: seq<Entry>, a: nat, b: nat, c: nat)
    requires LogInv(log) && a <= b <= c
    ensures Slice(log, a, c) == Slice(log, a, b) + Slice(log, b, c)
  {
    if log != [] {
      var n := |log| - 1;
      SliceJoin(log[..n], a, b, c);
      if n > 0 { assert log[n - 1].at < log[n].at; }
      if log[n].at <= b {
        SliceAbove(log[..n], b, c);
      }
    }
  }

  lemma {:induction false} FlattenConcat(a: seq<Entry>, b: seq<Entry>)
    ensures Flatten(a + b) == Flatten(a) + Flatten(b)
    decreases |b|
  {
    if b == [] {
      assert a + b == a;
    } else {
      var n := |b| - 1;
      assert (a + b)[..|a + b| - 1] == a + b[..n];
      FlattenConcat(a, b[..n]);
      Assoc(Flatten(a), Flatten(b[..n]), EntryEvents(b[n].at, b[n].ops));
    }
  }

  lemma {:induction false} ReplayConcat(docs: Docs, a: seq<Event>, b: seq<Event>)
    ensures ReplayFrom(docs, a + b) == ReplayFrom(ReplayFrom(docs, a), b)
    decreases |b|
  {
    if b == [] {
      assert a + b == a;
    } else {
      var n := |b| - 1;
      assert (a + b)[..|a + b| - 1] == a + b[..n];
      ReplayConcat(docs, a, b[..n]);
    }
  }

  lemma {:induction false} FlattenFacts(es: seq<Entry>, lo: nat, hi: nat)
    requires LogOk(es)
    requires forall i :: 0 <= i < |es| ==> lo < es[i].at <= hi && PatchFreeEntry(es[i])
    ensures PatchFree(Flatten(es)) && Ordered(Flatten(es))
    ensures forall i :: 0 <= i < |Flatten(es)| ==> lo < Flatten(es)[i].at <= hi
  {
    if es != [] {
      var n := |es| - 1;
      var cap := if n == 0 then lo else es[n - 1].at;
      assert forall i :: 0 <= i < n ==> es[i].at <= cap;
      FlattenFacts(es[..n], lo, cap);
      var last := EntryEvents(es[n].at, es[n].ops);
      var init := Flatten(es[..n]);
      assert Flatten(es) == init + last;
      assert forall i :: 0 <= i < |init| ==> init[i].at <= cap;
      assert forall i :: 0 <= i < |last| ==> last[i].at == es[n].at && !last[i].op.Patch?;
      if n > 0 { assert es[n - 1].at < es[n].at; }
    }
  }

  lemma SliceEventFacts(log: seq<Entry>, lo: nat, hi: nat)
    requires LogInv(log)
    ensures PatchFree(SliceEvents(log, lo, hi)) && Ordered(SliceEvents(log, lo, hi))
    ensures forall i :: 0 <= i < |SliceEvents(log, lo, hi)| ==> lo < SliceEvents(log, lo, hi)[i].at <= hi
  {
    SliceMembers(log, lo, hi);
    FlattenFacts(Slice(log, lo, hi), lo, hi);
  }

  lemma ReplayThroughJoin(log: seq<Entry>, b: nat, c: nat)
    requires LogInv(log) && b <= c
    ensures ReplayThrough(log, c) == ReplayFrom(ReplayThrough(log, b), SliceEvents(log, b, c))
  {
    SliceJoin(log, 0, b, c);
    FlattenConcat(Slice(log, 0, b), Slice(log, b, c));
    ReplayConcat(map[], Flatten(Slice(log, 0, b)), Flatten(Slice(log, b, c)));
  }

  lemma {:induction false} NoPending(evs: seq<Event>)
    requires PatchFree(evs)
    ensures FoldTail(evs).pending == map[]
  {
    if evs != [] {
      NoPending(evs[..|evs| - 1]);
    }
  }

  /** Folding a slice of the log gives a scan of the kind the fold lemmas ask for. */
  lemma ScanOfSlice(log: seq<Entry>, lo: nat, hi: nat)
    requires LogInv(log)
    ensures ScanOk(FoldTail(SliceEvents(log, lo, hi)), lo, hi)
  {
    var evs := SliceEvents(log, lo, hi);
    var s := FoldTail(evs);
    SliceEventFacts(log, lo, hi);
    NoPending(evs);
    forall x | x in s.upserts
      ensures s.upserts[x].id == x && lo < s.upserts[x].writeSeq <= hi
      ensures x !in s.tombstones && !KilledByAny(s.preds, s.upserts[x])
    {
      TailFactsHold(map[], evs, x);
      UpsertsSurvive(evs, x);
    }
    forall p | p in s.preds ensures lo < p.at <= hi { PredsAreDeletes(evs, p); }
  }

  // ---- Preservation ---------------------------------------------------------------------------

  lemma {:induction false} ListedHeadIsEntry(log: seq<Entry>, trimmed: set<nat>)
    requires LogOk(log)
    ensures IsEntry(log, ListedHead(log, trimmed)) && ListedHead(log, trimmed) <= LastAt(log)
    ensures forall i :: 0 <= i < |log| && log[i].at !in trimmed ==> log[i].at <= ListedHead(log, trimmed)
  {
    if log != [] {
      var n := |log| - 1;
      ListedHeadIsEntry(log[..n], trimmed);
      if n > 0 { assert log[n - 1].at < log[n].at; }
      if log[n].at in trimmed {
        var h := ListedHead(log[..n], trimmed);
        if h != 0 {
          var i :| 0 <= i < n && log[..n][i].at == h;
          assert log[i].at == h;
        }
        forall i | 0 <= i < |log| && log[i].at !in trimmed ensures log[i].at <= h {
          assert log[..n][i] == log[i];
        }
      }
    }
  }

  /** The swap has no ABA problem: when it succeeds, the snapshot the job opened half-way showed the
      very manifest the job started from. */
  lemma SwapSawItsOwnManifest(s: Sys, j: nat)
    requires Inv(s) && j in s.jobs && s.jobs[j].Opened?
    requires s.Current() == s.jobs[j].base
    ensures s.jobs[j].node == s.jobs[j].base
  {
  }

  lemma BuiltFolds(s: Sys, j: nat, kind: Kind, newId: nat, nodeDocs: Docs)
    requires Inv(s) && j in s.jobs && s.jobs[j].Opened?
    requires s.Current() == s.jobs[j].base && Legal(kind, s.jobs[j].base, s.jobs[j].head)
    requires s.jobs[j].base.cursor <= s.jobs[j].head
    ensures var next := Built(s.log, s.jobs[j], kind, newId, nodeDocs);
            Folds(s.log, s.Current(), next) && ManifestInv(s.log, next)
  {
    var job := s.jobs[j];
    var scan := FoldTail(SliceEvents(s.log, job.base.cursor, job.head));
    var node := Node(job.node.segments, nodeDocs);
    SwapSawItsOwnManifest(s, j);
    ScanOfSlice(s.log, job.base.cursor, job.head);
    match kind
    case Flush =>
      FlushShape(job.base, job.head, scan, node, newId);
      FlushResolves(job.base, job.head, scan, node, newId);
    case Minor(k) =>
      MinorResolves(job.base, k, job.head, scan, node, newId);
    case Index =>
      IndexResolves(job.base, job.head, scan, newId);
  }

  lemma HistoryAppend(log: seq<Entry>, h: seq<Manifest>, m: Manifest)
    requires HistoryInv(log, h) && Folds(log, h[|h| - 1], m) && ManifestInv(log, m)
    ensures HistoryInv(log, h + [m])
    ensures forall p: Manifest :: Published(h, p) ==> Published(h + [m], p)
  {
    var h' := h + [m];
    forall i | 0 <= i < |h'| - 1 ensures Folds(log, h'[i], h'[i + 1]) {
      if i < |h| - 1 { assert Folds(log, h[i], h[i + 1]); }
    }
  }

  lemma LogAppendKeeps(log: seq<Entry>, e: Entry, h: seq<Manifest>)
    requires LogInv(log) && e.at > LastAt(log) && PatchFreeEntry(e) && HistoryInv(log, h)
    ensures LogInv(log + [e]) && HistoryInv(log + [e], h)
    ensures forall at: nat :: IsEntry(log, at) ==> IsEntry(log + [e], at)
  {
    var log' := log + [e];
    forall i | 0 <= i < |log| ensures log[i].at <= LastAt(log) {
      if i < |log| - 1 { assert log[i].at < log[|log| - 1].at; }
    }
    forall at: nat | IsEntry(log, at) ensures IsEntry(log', at) {
      if at != 0 {
        var i :| 0 <= i < |log| && log[i].at == at;
        assert log'[i].at == at;
      }
    }
    forall i | 0 <= i < |h| - 1 ensures Folds(log', h[i], h[i + 1]) {
      assert Folds(log, h[i], h[i + 1]);
      SliceAppend(log, e, h[i].cursor, h[i + 1].cursor);
    }
  }

  lemma {:induction false} CursorsGrow(log: seq<Entry>, h: seq<Manifest>, i: nat, k: nat)
    requires HistoryInv(log, h) && i <= k < |h|
    ensures h[i].cursor <= h[k].cursor && h[i].prevCursor <= h[k].prevCursor
    decreases k - i
  {
    if i < k {
      assert Folds(log, h[k - 1], h[k]);
      CursorsGrow(log, h, i, k - 1);
    }
  }

  lemma JobSurvivesPublish(log: seq<Entry>, h: seq<Manifest>, m: Manifest, job: Job)
    requires JobInv(log, h, job)
    ensures JobInv(log, h + [m], job)
  {
  }

  lemma JobSurvivesAppend(log: seq<Entry>, e: Entry, h: seq<Manifest>, job: Job)
    requires JobInv(log, h, job) && e.at > LastAt(log)
    requires forall at: nat :: IsEntry(log, at) ==> IsEntry(log + [e], at)
    ensures JobInv(log + [e], h, job)
  {
  }

  lemma AppendKeepsInv(s: Sys, s': Sys, e: Entry)
    requires Inv(s) && Next(s, s', Append(e))
    ensures Inv(s')
  {
    LogAppendKeeps(s.log, e, s.history);
    forall j | j in s'.jobs ensures JobInv(s'.log, s'.history, s'.jobs[j]) {
      JobSurvivesAppend(s.log, e, s.history, s.jobs[j]);
    }
  }

  lemma PublishKeepsInv(s: Sys, s': Sys, step: Step)
    requires Inv(s) && step.Publish? && Next(s, s', step) && ListingReachesCursor(s, step)
    requires s.Current() == s.jobs[step.j].base
    ensures Inv(s')
  {
    var job := s.jobs[step.j];
    var next := Built(s.log, job, step.kind, step.newId, step.nodeDocs);
    BuiltFolds(s, step.j, step.kind, step.newId, step.nodeDocs);
    InstallKeepsInv(s, s', next);
  }

  /** Installing a manifest that folds the current one keeps the invariant. */
  lemma InstallKeepsInv(s: Sys, s': Sys, next: Manifest)
    requires Inv(s) && Folds(s.log, s.Current(), next) && ManifestInv(s.log, next)
    requires s'.log == s.log && s'.trimmed == s.trimmed && s'.history == s.history + [next]
    requires forall k :: k in s'.jobs ==> k in s.jobs && s'.jobs[k] == s.jobs[k]
    ensures Inv(s')
  {
    HistoryAppend(s.log, s.history, next);
    forall k | k in s'.jobs ensures JobInv(s'.log, s'.history, s'.jobs[k]) {
      JobSurvivesPublish(s.log, s.history, next, s.jobs[k]);
    }
    var last := s.history[|s.history| - 1];
    assert ManifestInv(s.log, last);
    assert s'.Current() == next;
  }

  /** Steps that only move one job. */
  lemma JobStepKeepsInv(s: Sys, s': Sys, j: nat, job: Job)
    requires Inv(s) && JobInv(s.log, s.history, job)
    requires s' == s.(jobs := s.jobs[j := job])
    ensures Inv(s')
  {
  }

  lemma DropJobKeepsInv(s: Sys, s': Sys, j: nat)
    requires Inv(s) && s' == s.(jobs := s.jobs - {j})
    ensures Inv(s')
  {
  }

  lemma TrimKeepsInv(s: Sys, s': Sys, at: nat)
    requires Inv(s) && Next(s, s', Trim(at))
    ensures Inv(s')
  {
    var i :| 0 <= i < |s.history| && at <= s.history[i].prevCursor;
    CursorsGrow(s.log, s.history, i, |s.history| - 1);
    assert s'.Current() == s.Current();
    forall t | t in s'.trimmed ensures t <= s'.Current().prevCursor {
      assert t in s.trimmed || t == at;
    }
  }

  lemma StepKeepsInv(s: Sys, s': Sys, step: Step)
    requires Inv(s) && Next(s, s', step) && ListingReachesCursor(s, step)
    ensures Inv(s')
  {
    match step
    case Append(e) => AppendKeepsInv(s, s', e);
    case ReadManifest(j) => JobStepKeepsInv(s, s', j, s'.jobs[j]);
    case ListHead(j) =>
      ListedHeadIsEntry(s.log, s.trimmed);
      JobStepKeepsInv(s, s', j, s'.jobs[j]);
    case OpenNode(j) => JobStepKeepsInv(s, s', j, s'.jobs[j]);
    case Publish(j, _, _, _) =>
      if s.Current() == s.jobs[j].base {
        PublishKeepsInv(s, s', step);
      } else {
        DropJobKeepsInv(s, s', j);
      }
    case Crash(j) => DropJobKeepsInv(s, s', j);
    case Trim(at) => TrimKeepsInv(s, s', at);
  }

  lemma {:induction false} RunKeepsInv(r: Run, i: nat)
    requires RunOk(r) && RunGuarded(r) && i < |r.states|
    ensures Inv(r.states[i])
  {
    if i > 0 {
      RunKeepsInv(r, i - 1);
      StepKeepsInv(r.states[i - 1], r.states[i], r.steps[i - 1]);
    }
  }

  // ---- Theorems about every run ---------------------------------------------------------------

  /** Every published manifest resolves to the replay of the log through its cursor. */
  ghost predicate Faithful(s: Sys) {
    forall i :: 0 <= i < |s.history| ==>
      Resolve(s.history[i].segments) == ReplayThrough(s.log, s.history[i].cursor)
  }

  /** No slice that a publish folded drops a write whose replaced copy survives the slice. */
  ghost predicate CleanCuts(s: Sys) {
    forall i :: 0 <= i < |s.history| - 1 ==>
      Clean(ReplayThrough(s.log, s.history[i].cursor),
            SliceEvents(s.log, s.history[i].cursor, s.history[i + 1].cursor))
  }

  lemma FoldIsReplayIffClean(log: seq<Entry>, a: Manifest, b: Manifest)
    requires LogInv(log) && Folds(log, a, b)
    requires Resolve(a.segments) == ReplayThrough(log, a.cursor)
    ensures Resolve(b.segments) == ReplayThrough(log, b.cursor) <==>
            Clean(ReplayThrough(log, a.cursor), SliceEvents(log, a.cursor, b.cursor))
  {
    var evs := SliceEvents(log, a.cursor, b.cursor);
    SliceEventFacts(log, a.cursor, b.cursor);
    OverlayIsReplayIffClean(ReplayThrough(log, a.cursor), evs);
    ReplayThroughJoin(log, a.cursor, b.cursor);
  }

  lemma {:induction false} CleanGivesReplay(s: Sys, i: nat)
    requires Inv(s) && CleanCuts(s) && i < |s.history|
    ensures Resolve(s.history[i].segments) == ReplayThrough(s.log, s.history[i].cursor)
  {
    if i == 0 {
      SliceEmpty(s.log, 0, 0);
      assert Resolve([]) == map[];
    } else {
      CleanGivesReplay(s, i - 1);
      assert Folds(s.log, s.history[i - 1], s.history[i]);
      FoldIsReplayIffClean(s.log, s.history[i - 1], s.history[i]);
    }
  }

  /** In every reachable state: all published manifests are the replay of their log prefix exactly
      when every folded slice is clean. */
  lemma PublishedIsReplayIffClean(r: Run, t: nat)
    requires RunOk(r) && RunGuarded(r) && t < |r.states|
    ensures Faithful(r.states[t]) <==> CleanCuts(r.states[t])
  {
    var s := r.states[t];
    RunKeepsInv(r, t);
    if CleanCuts(s) {
      forall i | 0 <= i < |s.history|
        ensures Resolve(s.history[i].segments) == ReplayThrough(s.log, s.history[i].cursor)
      {
        CleanGivesReplay(s, i);
      }
    }
    if Faithful(s) {
      forall i | 0 <= i < |s.history| - 1
        ensures Clean(ReplayThrough(s.log, s.history[i].cursor),
                      SliceEvents(s.log, s.history[i].cursor, s.history[i + 1].cursor))
      {
        assert Folds(s.log, s.history[i], s.history[i + 1]);
        FoldIsReplayIffClean(s.log, s.history[i], s.history[i + 1]);
      }
    }
  }

  ghost predicate NoPredicateDeletes(log: seq<Entry>) {
    forall i, k :: 0 <= i < |log| && 0 <= k < |log[i].ops| ==> !log[i].ops[k].TombstoneWhere?
  }

  lemma {:induction false} FlattenWithoutDeletes(es: seq<Entry>)
    requires NoPredicateDeletes(es)
    ensures forall i :: 0 <= i < |Flatten(es)| ==> !Flatten(es)[i].op.TombstoneWhere?
  {
    if es != [] {
      var n := |es| - 1;
      FlattenWithoutDeletes(es[..n]);
      assert forall k :: 0 <= k < |es[n].ops| ==> !es[n].ops[k].TombstoneWhere?;
    }
  }

  lemma {:induction false} SliceWithoutDeletes(log: seq<Entry>, lo: nat, hi: nat)
    requires NoPredicateDeletes(log)
    ensures NoPredicateDeletes(Slice(log, lo, hi))
  {
    if log != [] {
      var n := |log| - 1;
      assert forall i, k :: 0 <= i < n && 0 <= k < |log[..n][i].ops| ==> !log[i].ops[k].TombstoneWhere?;
      SliceWithoutDeletes(log[..n], lo, hi);
      assert forall k :: 0 <= k < |log[n].ops| ==> !log[n].ops[k].TombstoneWhere?;
    }
  }

  /** Logs of upserts and tombstones alone, the workload of the chaos suite, replay faithfully under
      every interleaving of writers, indexers and collector. */
  lemma UpsertsAndTombstonesAreFaithful(r: Run, t: nat)
    requires RunOk(r) && RunGuarded(r) && t < |r.states|
    requires NoPredicateDeletes(r.states[t].log)
    ensures Faithful(r.states[t])
  {
    var s := r.states[t];
    forall i | 0 <= i < |s.history| - 1
      ensures Clean(ReplayThrough(s.log, s.history[i].cursor),
                    SliceEvents(s.log, s.history[i].cursor, s.history[i + 1].cursor))
    {
      SliceWithoutDeletes(s.log, s.history[i].cursor, s.history[i + 1].cursor);
      FlattenWithoutDeletes(Slice(s.log, s.history[i].cursor, s.history[i + 1].cursor));
    }
    PublishedIsReplayIffClean(r, t);
  }

  /** Versions count the swaps, cursors never go back, and the collector never trims an entry that a
      reader of the current or the previous manifest still needs. */
  lemma VersionsAndCursorsGrow(r: Run, t: nat, i: nat, k: nat)
    requires RunOk(r) && RunGuarded(r) && t < |r.states|
    requires i <= k < |r.states[t].history|
    ensures var s := r.states[t];
            && s.history[i].version == i && s.history[k].version == k
            && s.history[i].cursor <= s.history[k].cursor
            && forall x :: x in s.trimmed ==> x <= s.history[|s.history| - 1].prevCursor
  {
    RunKeepsInv(r, t);
    CursorsGrow(r.states[t].log, r.states[t].history, i, k);
  }

  /** Newest-first the covered sequences strictly fall, and an id stored twice is in the newer
      overlay, so the supersede test alone leaves at most one copy of each id. */
  lemma OneUnsupersededCopy(r: Run, t: nat, i: nat, j: nat, x: MemoryId)
    requires RunOk(r) && RunGuarded(r) && t < |r.states| && r.states[t].history != []
    requires i < j < |r.states[t].Current().segments|
    ensures var segs := r.states[t].Current().segments;
            && segs[i].seqHi > segs[j].seqHi
            && (x in segs[i].docs && x in segs[j].docs ==>
                  x in segs[i].tomb.superseded && Superseded(segs, x, segs[j].seqHi))
  {
    var s := r.states[t];
    RunKeepsInv(r, t);
    var segs := s.Current().segments;
    assert SegsOk(segs, s.Current().cursor);
    assert Shadows(segs[i], segs[j]);
    assert segs[i] in segs;
  }

  // ---- When the listing falls behind the cursor -------------------------------------------------

  /** As long as the last publish folded something, the listing reaches the cursor. */
  lemma ListingBehindOnlyAfterEmptyFold(r: Run, t: nat)
    requires RunOk(r) && RunGuarded(r) && t < |r.states| && r.states[t].history != []
    requires r.states[t].Current().prevCursor < r.states[t].Current().cursor
    ensures ListedHead(r.states[t].log, r.states[t].trimmed) >= r.states[t].Current().cursor
  {
    var s := r.states[t];
    RunKeepsInv(r, t);
    ListedHeadIsEntry(s.log, s.trimmed);
    assert ManifestInv(s.log, s.history[|s.history| - 1]);
    var i :| 0 <= i < |s.log| && s.log[i].at == s.Current().cursor;
    assert s.log[i].at !in s.trimmed;
  }

  /** Trims that the collector may have made: nothing above the previous cursor. */
  ghost predicate LegalTrims(s: Sys, trims: set<nat>)
    requires s.history != []
  {
    s.trimmed <= trims && forall t :: t in trims ==> t <= s.Current().prevCursor
  }

  function EntriesOf(log: seq<Entry>): set<nat> {
    set i | 0 <= i < |log| :: log[i].at
  }

  lemma {:induction false} AllTrimmed(log: seq<Entry>, trims: set<nat>)
    requires forall i :: 0 <= i < |log| ==> log[i].at in trims
    ensures ListedHead(log, trims) == 0
  {
    if log != [] { AllTrimmed(log[..|log| - 1], trims); }
  }

  lemma TrimsReachable(s: Sys)
    requires Inv(s) && s.Current().prevCursor == s.Current().cursor == LastAt(s.log)
    ensures LegalTrims(s, s.trimmed + EntriesOf(s.log)) && ListedHead(s.log, s.trimmed + EntriesOf(s.log)) == 0
  {
    forall i | 0 <= i < |s.log| ensures s.log[i].at <= LastAt(s.log) {
      if i < |s.log| - 1 { assert s.log[i].at < s.log[|s.log| - 1].at; }
    }
    AllTrimmed(s.log, s.trimmed + EntriesOf(s.log));
  }

  /** In every reachable state: the listing can fall behind the cursor if and only if the last publish
      folded nothing and nothing has been appended since. */
  lemma ListingCanFallIffNothingNew(r: Run, t: nat)
    requires RunOk(r) && RunGuarded(r) && t < |r.states| && r.states[t].history != []
    ensures var s := r.states[t];
            (exists trims :: LegalTrims(s, trims) && ListedHead(s.log, trims) < s.Current().cursor) <==>
            0 < s.Current().cursor && s.Current().prevCursor == s.Current().cursor == LastAt(s.log)
  {
    var s := r.states[t];
    RunKeepsInv(r, t);
    assert ManifestInv(s.log, s.history[|s.history| - 1]);
    if s.Current().prevCursor == s.Current().cursor == LastAt(s.log) {
      TrimsReachable(s);
    } else {
      forall trims | LegalTrims(s, trims) ensures ListedHead(s.log, trims) >= s.Current().cursor {
        UntrimmedEntry(s, trims);
      }
    }
  }

  /** Past an unfolded or freshly folded entry nothing is trimmed, so the listing shows it. */
  lemma UntrimmedEntry(s: Sys, trims: set<nat>)
    requires Inv(s) && LegalTrims(s, trims)
    requires s.Current().prevCursor < s.Current().cursor || s.Current().cursor < LastAt(s.log)
    ensures ListedHead(s.log, trims) >= s.Current().cursor
  {
    assert ManifestInv(s.log, s.history[|s.history| - 1]);
    ListedHeadIsEntry(s.log, trims);
    if s.Current().cursor < LastAt(s.log) {
      var n := |s.log| - 1;
      assert s.log[n].at !in trims;
    } else {
      var i :| 0 <= i < |s.log| && s.log[i].at == s.Current().cursor;
      assert s.log[i].at !in trims;
    }
  }

  // ---- Runs without empty folds are guarded ---------------------------------------------------------

  /** A publish that succeeds over an empty slice. */
  ghost predicate EmptyFold(s: Sys, step: Step)
    requires s.history != []
  {
    && step.Publish? && step.j in s.jobs && s.jobs[step.j].Opened?
    && s.Current() == s.jobs[step.j].base && s.jobs[step.j].head == s.jobs[step.j].base.cursor
  }

  ghost predicate NoEmptyFolds(r: Run)
    requires RunOk(r)
  {
    forall i :: 0 <= i < |r.steps| ==> !EmptyFold(r.states[i], r.steps[i])
  }

  /** Jobs have listed at least their cursor, and the last publish folded something. */
  ghost predicate Ahead(s: Sys)
    requires s.history != []
  {
    && (s.Current().prevCursor < s.Current().cursor || s.Current().cursor == 0)
    && (forall j :: j in s.jobs && (s.jobs[j].Headed? || s.jobs[j].Opened?) ==> s.jobs[j].head >= s.jobs[j].base.cursor)
  }

  lemma ListingReachesBase(s: Sys, base: Manifest)
    requires Inv(s) && Ahead(s) && Published(s.history, base)
    ensures ListedHead(s.log, s.trimmed) >= base.cursor
  {
    CursorsGrow(s.log, s.history, base.version, |s.history| - 1);
    if s.Current().cursor > 0 {
      UntrimmedEntry(s, s.trimmed);
    }
  }

  lemma StepKeepsAhead(s: Sys, s': Sys, step: Step)
    requires Inv(s) && Ahead(s) && Next(s, s', step) && !EmptyFold(s, step)
    ensures ListingReachesCursor(s, step)
    ensures s'.history != [] && Ahead(s')
  {
    if step.Publish? {
      PublishKeepsAhead(s, s', step);
    } else {
      if step.ListHead? {
        assert JobInv(s.log, s.history, s.jobs[step.j]);
        ListingReachesBase(s, s.jobs[step.j].base);
      }
      JobsStayAhead(s, s', step);
    }
  }

  /** Every step but a publish leaves the history alone, and its jobs ahead if what it lists is. */
  lemma JobsStayAhead(s: Sys, s': Sys, step: Step)
    requires s.history != [] && Ahead(s) && Next(s, s', step) && !step.Publish?
    requires step.ListHead? ==> ListedHead(s.log, s.trimmed) >= s.jobs[step.j].base.cursor
    ensures s'.history == s.history && Ahead(s')
  {
  }

  /** A publish takes the head its job listed, which is past the cursor unless the slice was empty. */
  lemma PublishKeepsAhead(s: Sys, s': Sys, step: Step)
    requires s.history != [] && Ahead(s) && Next(s, s', step) && step.Publish? && !EmptyFold(s, step)
    ensures ListingReachesCursor(s, step)
    ensures s'.history != [] && Ahead(s')
  {
    var job := s.jobs[step.j];
    if s.Current() == job.base {
      BuiltCursors(s.log, job, step.kind, step.newId, step.nodeDocs);
    }
  }

  lemma BuiltCursors(log: seq<Entry>, job: Job, kind: Kind, newId: nat, nodeDocs: Docs)
    requires job.Opened? && Legal(kind, job.base, job.head)
    ensures var m := Built(log, job, kind, newId, nodeDocs); m.cursor == job.head && m.prevCursor == job.base.cursor
  {
  }

  lemma {:induction false} RunStaysAhead(r: Run, t: nat)
    requires RunOk(r) && NoEmptyFolds(r) && t < |r.states|
    ensures r.states[t].history != [] && Inv(r.states[t]) && Ahead(r.states[t])
  {
    if t > 0 {
      RunStaysAhead(r, t - 1);
      assert !EmptyFold(r.states[t - 1], r.steps[t - 1]);
      StepKeepsAhead(r.states[t - 1], r.states[t], r.steps[t - 1]);
      StepKeepsInv(r.states[t - 1], r.states[t], r.steps[t - 1]);
    }
  }

  /** Every run in which no successful publish folds an empty slice is guarded: whatever readers, writers
      and collector do, each fold lists a head at or above the cursor it read. */
  lemma NoEmptyFoldsIsGuarded(r: Run)
    requires RunOk(r) && NoEmptyFolds(r)
    ensures RunGuarded(r)
  {
    forall i | 0 <= i < |r.steps| ensures ListingReachesCursor(r.states[i], r.steps[i]) {
      RunStaysAhead(r, i);
      assert !EmptyFold(r.states[i], r.steps[i]);
      StepKeepsAhead(r.states[i], r.states[i + 1], r.steps[i]);
    }
  }

  function Last(r: Run): Sys
    requires r.states != []
  {
    r.states[|r.states| - 1]
  }

  lemma Extend(r: Run, step: Step, s': Sys) returns (r': Run)
    requires RunOk(r) && Last(r).history != [] && Next(Last(r), s', step)
    ensures RunOk(r') && Last(r') == s'
    ensures r' == Run(r.states + [s'], r.steps + [step])
  {
    r' := Run(r.states + [s'], r.steps + [step]);
    forall i | 0 <= i < |r'.steps|
      ensures r'.states[i].history != [] && Next(r'.states[i], r'.states[i + 1], r'.steps[i])
    {
      if i < |r.steps| {
        assert r'.states[i] == r.states[i] && r'.states[i + 1] == r.states[i + 1] && r'.steps[i] == r.steps[i];
      }
    }
  }

  ghost predicate CursorFell(s: Sys) {
    exists i :: 0 <= i < |s.history| - 1 && s.history[i + 1].cursor < s.history[i].cursor
  }
}

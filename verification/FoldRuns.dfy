/** Runs in which every publish is the one `fold` chooses for the manifest it acts on
    (crates/mlake-index/src/indexer.rs:75-115), and how the cursor can still go back in one. */
module FoldRuns {
  import opened Memories
  import opened Wal
  import opened Lsm
  import opened Protocol
  import opened ColdWrites
  import F = Fanout

  function Counts(segs: seq<Segment>): (r: seq<nat>)
    ensures |r| == |segs| && forall i :: 0 <= i < |segs| ==> r[i] == |segs[i].docs|
  {
    seq(|segs|, i requires 0 <= i < |segs| => |segs[i].docs|)
  }

  function PlanOf(kind: Kind): F.Plan {
    match kind
    case Flush => F.FlushTail
    case Minor(k) => F.Minor(k)
    case Index => F.Rebuild
  }

  lemma CountsConcat(a: seq<Segment>, b: seq<Segment>)
    ensures Counts(a + b) == Counts(a) + Counts(b)
  {
    forall i | 0 <= i < |a + b| ensures Counts(a + b)[i] == (Counts(a) + Counts(b))[i] {
      assert (a + b)[i] == if i < |a| then a[i] else b[i - |a|];
    }
  }

  /** What stands behind the new segment. */
  function Behind(segs: seq<Segment>, kind: Kind): seq<Segment>
    requires kind.Minor? ==> kind.k <= |segs|
  {
    match kind
    case Flush => segs
    case Minor(k) => segs[k..]
    case Index => []
  }

  lemma BuiltInFront(log: seq<Entry>, job: Job, kind: Kind, newId: nat, nodeDocs: Docs)
    requires job.Opened? && Legal(kind, job.base, job.head)
    ensures var next := Built(log, job, kind, newId, nodeDocs).segments;
            next != [] && next == [next[0]] + Behind(job.base.segments, kind)
  {
  }

  lemma CountsBehind(segs: seq<Segment>, front: Segment, kind: Kind)
    requires kind.Minor? ==> 2 <= kind.k <= |segs|
    ensures Counts([front] + Behind(segs, kind)) == F.Apply(Counts(segs), PlanOf(kind), |front.docs|)
  {
    CountsConcat([front], Behind(segs, kind));
    assert Counts([front]) == [|front.docs|];
    match kind
    case Flush =>
    case Minor(k) => CountsDrop(segs, k);
    case Index => assert Counts([]) == [];
  }

  lemma CountsDrop(segs: seq<Segment>, k: nat)
    requires k <= |segs|
    ensures Counts(segs)[k..] == Counts(segs[k..])
  {
    var left, right := Counts(segs)[k..], Counts(segs[k..]);
    forall i | 0 <= i < |left| ensures left[i] == right[i] {
      assert segs[k..][i] == segs[k + i];
    }
  }

  /** What a publish does to the document counts is what the plan says it does. */
  lemma PublishAppliesPlan(log: seq<Entry>, job: Job, kind: Kind, newId: nat, nodeDocs: Docs)
    requires job.Opened? && Legal(kind, job.base, job.head)
    ensures var next := Built(log, job, kind, newId, nodeDocs).segments;
            next != [] && Counts(next) == F.Apply(Counts(job.base.segments), PlanOf(kind), |next[0].docs|)
  {
    BuiltInFront(log, job, kind, newId, nodeDocs);
    CountsBehind(job.base.segments, Built(log, job, kind, newId, nodeDocs).segments[0], kind);
  }

  ghost predicate Chosen(m: Manifest, kind: Kind) {
    F.Chooses(Counts(m.segments), PlanOf(kind))
  }

  /** A publish that succeeds is the fold's choice for the very manifest it replaces. */
  ghost predicate StepChosen(s: Sys, step: Step)
    requires s.history != []
  {
    step.Publish? && step.j in s.jobs && s.jobs[step.j].Opened? && s.Current() == s.jobs[step.j].base ==>
      Chosen(s.jobs[step.j].base, step.kind)
  }

  ghost predicate AllChosen(states: seq<Sys>, steps: seq<Step>) {
    forall i :: 0 <= i < |steps| && i < |states| && states[i].history != [] ==> StepChosen(states[i], steps[i])
  }

  ghost predicate FoldRun(r: Run) {
    RunOk(r) && AllChosen(r.states, r.steps)
  }

  lemma ChosenSnoc(states: seq<Sys>, steps: seq<Step>, s: Sys, s': Sys, step: Step)
    requires AllChosen(states, steps) && |states| == |steps| + 1 && states[|steps|] == s
    requires s.history != [] && StepChosen(s, step)
    ensures AllChosen(states + [s'], steps + [step])
  {
    var ss, ts := states + [s'], steps + [step];
    forall i | 0 <= i < |ts| && i < |ss| && ss[i].history != [] ensures StepChosen(ss[i], ts[i]) {
      assert ss[i] == states[i];
      if i < |steps| { assert ts[i] == steps[i]; }
    }
  }

  lemma ExtendChosen(r: Run, step: Step, s': Sys) returns (r': Run)
    requires FoldRun(r) && Last(r).history != [] && Next(Last(r), s', step) && StepChosen(Last(r), step)
    ensures FoldRun(r') && Last(r') == s'
  {
    r' := Extend(r, step, s');
    ChosenSnoc(r.states, r.steps, Last(r), s', step);
  }

  /** Nobody is in the middle of a fold. */
  ghost predicate Quiet(r: Run, log: seq<Entry>, trimmed: set<nat>, history: seq<Manifest>) {
    history != [] && Reaches(r, Sys(log, trimmed, history, map[]))
  }

  /** The manifest an undisturbed fold builds. */
  function Folded(log: seq<Entry>, trimmed: set<nat>, m: Manifest, kind: Kind, newId: nat): Manifest
    requires Legal(kind, m, ListedHead(log, trimmed))
  {
    Built(log, Opened(m, ListedHead(log, trimmed), m), kind, newId, map[])
  }

  ghost predicate Reaches(r: Run, s: Sys) {
    FoldRun(r) && Last(r) == s
  }

  lemma ReadAlone(r: Run, s: Sys) returns (r': Run)
    requires Reaches(r, s) && s.history != [] && s.jobs == map[]
    ensures Reaches(r', s.(jobs := map[0 := Read(s.Current())]))
  {
    r' := ExtendChosen(r, ReadManifest(0), s.(jobs := map[0 := Read(s.Current())]));
  }

  lemma ListAlone(r: Run, s: Sys, m: Manifest) returns (r': Run)
    requires Reaches(r, s) && s.history != [] && s.jobs == map[0 := Read(m)]
    ensures Reaches(r', s.(jobs := map[0 := Headed(m, ListedHead(s.log, s.trimmed))]))
  {
    r' := ExtendChosen(r, ListHead(0), s.(jobs := map[0 := Headed(m, ListedHead(s.log, s.trimmed))]));
  }

  lemma OpenAlone(r: Run, s: Sys, m: Manifest, head: nat) returns (r': Run)
    requires Reaches(r, s) && s.history != [] && s.jobs == map[0 := Headed(m, head)]
    ensures Reaches(r', s.(jobs := map[0 := Opened(m, head, s.Current())]))
  {
    r' := ExtendChosen(r, OpenNode(0), s.(jobs := map[0 := Opened(m, head, s.Current())]));
  }

  lemma PublishAlone(r: Run, s: Sys, m: Manifest, head: nat, kind: Kind, newId: nat) returns (r': Run)
    requires Reaches(r, s) && s.history != [] && s.jobs == map[0 := Opened(m, head, m)] && s.Current() == m
    requires FreshId(s.history, newId) && Legal(kind, m, head) && Chosen(m, kind)
    ensures Reaches(r', s.(jobs := map[], history := s.history + [Built(s.log, Opened(m, head, m), kind, newId, map[])]))
  {
    assert s.jobs - {0} == map[];
    r' := ExtendChosen(r, Publish(0, kind, newId, map[]),
                       s.(jobs := map[], history := s.history + [Built(s.log, Opened(m, head, m), kind, newId, map[])]));
  }

  /** One undisturbed fold: read, list, open, publish. */
  lemma FoldAlone(r: Run, log: seq<Entry>, trimmed: set<nat>, history: seq<Manifest>, kind: Kind, newId: nat) returns (r': Run)
    requires Quiet(r, log, trimmed, history) && FreshId(history, newId)
    requires Legal(kind, history[|history| - 1], ListedHead(log, trimmed)) && Chosen(history[|history| - 1], kind)
    ensures Quiet(r', log, trimmed, history + [Folded(log, trimmed, history[|history| - 1], kind, newId)])
  {
    var m, head := history[|history| - 1], ListedHead(log, trimmed);
    r' := ReadAlone(r, Sys(log, trimmed, history, map[]));
    r' := ListAlone(r', Sys(log, trimmed, history, map[0 := Read(m)]), m);
    r' := OpenAlone(r', Sys(log, trimmed, history, map[0 := Headed(m, head)]), m, head);
    r' := PublishAlone(r', Sys(log, trimmed, history, map[0 := Opened(m, head, m)]), m, head, kind, newId);
  }

  lemma AppendAlone(r: Run, log: seq<Entry>, history: seq<Manifest>, e: Entry) returns (r': Run)
    requires Quiet(r, log, {}, history) && e.at > LastAt(log) && PatchFreeEntry(e)
    ensures Quiet(r', log + [e], {}, history)
  {
    r' := ExtendChosen(r, Append(e), Sys(log + [e], {}, history, map[]));
  }

  // ---- What single-operation slices fold to ------------------------------------------------------------

  lemma SliceOfLast(log: seq<Entry>, e: Entry)
    requires LogOk(log) && LastAt(log) < e.at
    ensures Slice(log + [e], LastAt(log), e.at) == [e]
  {
    SliceAbove(log, LastAt(log), e.at);
    assert (log + [e])[..|log|] == log;
    assert [] + [e] == [e];
  }

  lemma FlattenOne(e: Entry, op: Op)
    requires e.ops == [op]
    ensures Flatten([e]) == [Event(e.at, op)]
  {
    var last := EntryEvents(e.at, e.ops);
    assert [e][..0] == [];
    assert |last| == 1 && last[0] == Event(e.at, op);
    assert last == [Event(e.at, op)];
    assert Flatten([e]) == Flatten([e][..0]) + last;
    assert [] + last == last;
  }

  lemma FoldOne(ev: Event)
    ensures FoldTail([ev]) == StepTail(EMPTY_SCAN, ev)
  {
    FoldSnoc([], ev);
    assert [] + [ev] == [ev];
  }

  lemma OneEntrySlice(log: seq<Entry>, e: Entry, op: Op)
    requires LogOk(log) && LastAt(log) < e.at && e.ops == [op]
    ensures FoldTail(SliceEvents(log + [e], LastAt(log), e.at)) == StepTail(EMPTY_SCAN, Event(e.at, op))
  {
    SliceOfLast(log, e);
    FlattenOne(e, op);
    FoldOne(Event(e.at, op));
  }

  lemma NothingNew(log: seq<Entry>, lo: nat, hi: nat)
    requires hi <= lo
    ensures FoldTail(SliceEvents(log, lo, hi)) == EMPTY_SCAN
  {
    SliceEmpty(log, lo, hi);
  }

  function Memory(id: nat): StoredMemory {
    StoredMemory(id, 1, [], Timestamps(None, None, None, None, None), 0, {}, [], "", 0, 0)
  }

  function Written(id: nat): Entry {
    Entry(id, [Upsert(Memory(id))])
  }

  lemma FoldedIs(log: seq<Entry>, trimmed: set<nat>, m: Manifest, newId: nat, head: nat, scan: TailScan)
    requires head == ListedHead(log, trimmed) && scan == FoldTail(SliceEvents(log, m.cursor, head))
    ensures m.cursor < head ==> Folded(log, trimmed, m, Flush, newId) == FlushManifest(m, head, scan, Node(m.segments, map[]), newId)
    ensures |m.segments| >= 2 ==> Folded(log, trimmed, m, Minor(2), newId) == MinorManifest(m, 2, head, scan, Node(m.segments, map[]), newId)
    ensures Folded(log, trimmed, m, Index, newId) == IndexManifest(m, head, scan, newId)
  {
  }

  lemma CountsCons(seg: Segment, segs: seq<Segment>)
    ensures Counts([seg] + segs) == [|seg.docs|] + Counts(segs) && ([seg] + segs)[1..] == segs
  {
    var left, right := Counts([seg] + segs), [|seg.docs|] + Counts(segs);
    assert |left| == |right|;
    forall i | 0 <= i < |left| ensures left[i] == right[i] {
      CountsConsAt(seg, segs, i);
    }
  }

  lemma CountsConsAt(seg: Segment, segs: seq<Segment>, i: nat)
    requires i <= |segs|
    ensures Counts([seg] + segs)[i] == ([|seg.docs|] + Counts(segs))[i]
  {
    var all := [seg] + segs;
    assert Counts(all)[i] == |all[i].docs|;
    if i > 0 { assert all[i] == segs[i - 1]; }
  }

  lemma OnesCons(n: nat)
    ensures [1] + F.Ones(n) == F.Ones(n + 1)
  {
  }

  /** A flush of one upsert puts a one-document segment in front. */
  lemma FlushOfWrite(log: seq<Entry>, m: Manifest, id: nat, newId: nat)
    requires LogOk(log) && m.cursor == LastAt(log) < id && ListedHead(log + [Written(id)], {}) == id
    ensures var next := Folded(log + [Written(id)], {}, m, Flush, newId);
            && next.cursor == id && |next.segments| == |m.segments| + 1 && next.segments[1..] == m.segments
            && next.segments[0].docs.Keys == {id} && next.segments[0].seqHi == id && next.segments[0].id == newId
            && Counts(next.segments) == [1] + Counts(m.segments)
  {
    OneEntrySlice(log, Written(id), Upsert(Memory(id)));
    var scan := StepTail(EMPTY_SCAN, Event(id, Upsert(Memory(id))));
    FoldedIs(log + [Written(id)], {}, m, newId, id, scan);
    OneUpsert(id, scan);
    FlushInFront(m, id, scan, newId);
  }

  lemma OneUpsert(id: nat, scan: TailScan)
    requires scan == StepTail(EMPTY_SCAN, Event(id, Upsert(Memory(id))))
    ensures scan.pending == map[] && scan.upserts.Keys == {id} && |scan.upserts| == 1
  {
    assert scan.upserts == map[id := Memory(id).(writeSeq := id)];
    assert |map[id := Memory(id).(writeSeq := id)]| == 1;
  }

  /** Without patches a flush puts the tail's upserts in front, with its tombstones in the overlay. */
  lemma FlushInFront(m: Manifest, at: nat, scan: TailScan, newId: nat)
    requires scan.pending == map[]
    ensures var next := FlushManifest(m, at, scan, Node(m.segments, map[]), newId);
            && next.cursor == at && |next.segments| == |m.segments| + 1 && next.segments[1..] == m.segments
            && next.segments[0].docs == scan.upserts && next.segments[0].seqHi == at && next.segments[0].id == newId
            && scan.tombstones <= next.segments[0].tomb.superseded
            && Counts(next.segments) == [|scan.upserts|] + Counts(m.segments)
  {
    NoPatches(scan, Node(m.segments, map[]), {});
    CountsCons(FlushSegment(newId, m.cursor, at, scan, Node(m.segments, map[])), m.segments);
  }

  /** A flush of one tombstone puts an empty segment in front that supersedes the id. */
  lemma FlushOfDelete(log: seq<Entry>, m: Manifest, at: nat, id: nat, newId: nat)
    requires LogOk(log) && m.cursor == LastAt(log) < at && ListedHead(log + [Entry(at, [Tombstone(id)])], {}) == at
    ensures var next := Folded(log + [Entry(at, [Tombstone(id)])], {}, m, Flush, newId);
            && next.cursor == at && |next.segments| == |m.segments| + 1 && next.segments[1..] == m.segments
            && next.segments[0].docs == map[] && next.segments[0].seqHi == at && id in next.segments[0].tomb.superseded
            && next.segments[0].id == newId
            && Counts(next.segments) == [0] + Counts(m.segments)
  {
    OneEntrySlice(log, Entry(at, [Tombstone(id)]), Tombstone(id));
    var scan := StepTail(EMPTY_SCAN, Event(at, Tombstone(id)));
    FoldedIs(log + [Entry(at, [Tombstone(id)])], {}, m, newId, at, scan);
    FlushInFront(m, at, scan, newId);
    assert scan.upserts == map[] && id in scan.tombstones;
  }

  /** Merging a delete with the only memory it deletes leaves nothing. */
  lemma MergeLeavesNothing(del: Segment, hit: Segment, id: MemoryId)
    requires del.docs == map[] && id in del.tomb.superseded && del.seqHi > hit.seqHi && hit.docs.Keys == {id}
    ensures MergedTail([del, hit], EMPTY_SCAN) == map[]
  {
    var merged := [del, hit];
    assert del in merged && Superseded(merged, id, hit.seqHi);
    assert Live(merged, hit) == map[] && Live(merged, del) == map[];
    MaterializeTwo(merged, del, hit);
    assert Resolve(merged) == map[];
    PatchNothing(map[]);
  }

  lemma MaterializeTwo(all: seq<Segment>, a: Segment, b: Segment)
    ensures Materialize(all, [a, b]) == Live(all, b) + Live(all, a)
  {
    assert [a, b][1..] == [b] && [b][1..] == [];
    assert Materialize(all, []) == map[];
    assert Materialize(all, [b]) == map[] + Live(all, b);
    assert map[] + Live(all, b) == Live(all, b);
  }

  /** Merging the newest two over an empty tail: an empty segment in front. */
  lemma MinorInFront(m: Manifest, id: MemoryId, newId: nat)
    requires |m.segments| >= 2
    requires m.segments[0].docs == map[] && id in m.segments[0].tomb.superseded
    requires m.segments[0].seqHi > m.segments[1].seqHi && m.segments[1].docs.Keys == {id}
    ensures var n := MinorSegment(newId, m.segments[..2], m.cursor, EMPTY_SCAN, Node(m.segments, map[]));
            n.docs == map[] && n.id == newId
  {
    var node := Node(m.segments, map[]);
    assert m.segments[..2] == [m.segments[0], m.segments[1]];
    MergeLeavesNothing(m.segments[0], m.segments[1], id);
    NoPatches(EMPTY_SCAN, node, EMPTY_SCAN.tombstones + EMPTY_SCAN.upserts.Keys + MergedTail(m.segments[..2], EMPTY_SCAN).Keys);
  }

  /** A minor compaction of that pair over an empty tail keeps the cursor, and leaves no earlier one. */
  lemma MinorOfDelete(log: seq<Entry>, m: Manifest, id: MemoryId, newId: nat)
    requires ListedHead(log, {}) == m.cursor && |m.segments| >= 2
    requires m.segments[0].docs == map[] && id in m.segments[0].tomb.superseded
    requires m.segments[0].seqHi > m.segments[1].seqHi && m.segments[1].docs.Keys == {id}
    ensures var next := Folded(log, {}, m, Minor(2), newId);
            && next.cursor == next.prevCursor == m.cursor && |next.segments| == |m.segments| - 1
            && next.segments[1..] == m.segments[2..] && next.segments[0].id == newId
            && Counts(next.segments) == [0] + Counts(m.segments[2..])
  {
    NothingNew(log, m.cursor, m.cursor);
    FoldedIs(log, {}, m, newId, m.cursor, EMPTY_SCAN);
    MinorInFront(m, id, newId);
    CountsCons(MinorSegment(newId, m.segments[..2], m.cursor, EMPTY_SCAN, Node(m.segments, map[])), m.segments[2..]);
  }

  // ---- The run -----------------------------------------------------------------------------------------------

  /** Ids from `bound` on are fresh. */
  ghost predicate IdsBelow(h: seq<Manifest>, bound: nat) {
    forall m, s :: m in h && s in m.segments ==> s.id < bound
  }

  lemma BoundIsFresh(h: seq<Manifest>, bound: nat, next: Manifest, m: Manifest)
    requires IdsBelow(h, bound) && m in h && next.segments != [] && next.segments[0].id == bound
    requires forall s :: s in next.segments[1..] ==> s in m.segments
    ensures FreshId(h, bound) && IdsBelow(h + [next], bound + 1)
  {
    forall n, s | n in h + [next] && s in n.segments ensures s.id < bound + 1 {
      if n !in h {
        assert n == next && (s == next.segments[0] || s in next.segments[1..]);
      }
    }
  }

  /** A run at rest: the log, the manifest published last, and the next fresh id. */
  ghost predicate At(r: Run, log: seq<Entry>, h: seq<Manifest>, m: Manifest, bound: nat) {
    && Quiet(r, log, {}, h) && m == h[|h| - 1] && IdsBelow(h, bound)
    && LogOk(log) && m.cursor == LastAt(log) == ListedHead(log, {})
  }

  lemma FirstIndex() returns (r: Run, h: seq<Manifest>, m: Manifest)
    ensures At(r, [Written(1)], h, m, 1) && |m.segments| == 1 && Counts(m.segments) == F.Ones(1)
  {
    var log, empty := [Written(1)], EMPTY_MANIFEST;
    r := FirstWrite(log);
    EmptyChoosesIndex(empty);
    FirstIndexHolds(Folded(log, {}, empty, Index, 0));
    r, h, m := FoldFirst(r, log, empty, Folded(log, {}, empty, Index, 0));
  }

  lemma EmptyChoosesIndex(m: Manifest)
    requires m.segments == []
    ensures Chosen(m, Index) && IdsBelow([m], 0)
  {
  }

  lemma FoldFirst(r: Run, log: seq<Entry>, empty: Manifest, next: Manifest) returns (r': Run, h': seq<Manifest>, m': Manifest)
    requires Quiet(r, log, {}, [empty]) && LogOk(log) && LastAt(log) == 1 == ListedHead(log, {})
    requires Chosen(empty, Index) && IdsBelow([empty], 0) && next == Folded(log, {}, empty, Index, 0)
    requires next.cursor == 1 && |next.segments| == 1 && Counts(next.segments) == F.Ones(1) && next.segments[0].id == 0
    ensures At(r', log, h', m', 1) && |m'.segments| == 1 && Counts(m'.segments) == F.Ones(1)
  {
    r', h', m' := FoldToRest(r, log, [empty], empty, Index, 0);
  }

  lemma FirstWrite(log: seq<Entry>) returns (r: Run)
    requires log == [Written(1)]
    ensures Quiet(r, log, {}, [EMPTY_MANIFEST]) && LogOk(log) && LastAt(log) == 1 == ListedHead(log, {})
  {
    r := Run([Sys([], {}, [EMPTY_MANIFEST], map[])], []);
    assert [] + [Written(1)] == log;
    r := AppendAlone(r, [], [EMPTY_MANIFEST], Written(1));
    LogGrows([], Written(1));
  }

  lemma FirstIndexHolds(m: Manifest)
    requires m == Folded([Written(1)], {}, EMPTY_MANIFEST, Index, 0)
    ensures m.cursor == 1 && |m.segments| == 1 && Counts(m.segments) == F.Ones(1) && m.segments[0].id == 0
  {
    assert [] + [Written(1)] == [Written(1)];
    OneEntrySlice([], Written(1), Upsert(Memory(1)));
    var scan := StepTail(EMPTY_SCAN, Event(1, Upsert(Memory(1))));
    assert m == IndexManifest(EMPTY_MANIFEST, 1, scan, 0);
    assert Materialize([], []) == map[] && Resolve([]) == map[];
    var w := Memory(1).(writeSeq := 1);
    assert Overlay(map[], scan) == map[1 := w];
    PatchNothing(map[1 := w]);
    assert m.segments[0].docs == map[1 := w];
    assert |map[1 := w]| == 1;
  }

  /** After an undisturbed fold of the whole log the run is at rest again. */
  lemma FoldToRest(r: Run, log: seq<Entry>, h: seq<Manifest>, m: Manifest, kind: Kind, bound: nat)
    returns (r': Run, h': seq<Manifest>, m': Manifest)
    requires Quiet(r, log, {}, h) && m == h[|h| - 1] && IdsBelow(h, bound) && LogOk(log) && LastAt(log) == ListedHead(log, {})
    requires Legal(kind, m, LastAt(log)) && Chosen(m, kind)
    requires var next := Folded(log, {}, m, kind, bound);
             && next.segments != [] && next.segments[0].id == bound && next.cursor == LastAt(log)
             && forall s :: s in next.segments[1..] ==> s in m.segments
    ensures m' == Folded(log, {}, m, kind, bound) && h' == h + [m'] && At(r', log, h', m', bound + 1)
  {
    m' := Folded(log, {}, m, kind, bound);
    BoundIsFresh(h, bound, m', m);
    r' := FoldAlone(r, log, {}, h, kind, bound);
    h' := h + [m'];
  }

  lemma LogGrows(log: seq<Entry>, e: Entry)
    requires LogOk(log) && LastAt(log) < e.at
    ensures LogOk(log + [e]) && LastAt(log + [e]) == e.at && ListedHead(log + [e], {}) == e.at
  {
    forall i | 0 <= i < |log| ensures log[i].at < e.at {
      if i < |log| - 1 { assert log[i].at < log[|log| - 1].at; }
    }
    LogOkSnoc(log, e);
  }

  lemma FlushIsChosen(m: Manifest, n: nat)
    requires 1 <= n < F.COMPACT_FANOUT && Counts(m.segments) == F.Ones(n)
    ensures Chosen(m, Flush)
  {
    F.OnesHold(n);
  }

  lemma WriteAndFlush(r: Run, log: seq<Entry>, h: seq<Manifest>, m: Manifest, bound: nat, n: nat)
    returns (r': Run, h': seq<Manifest>, m': Manifest)
    requires At(r, log, h, m, bound) && 1 <= n < F.COMPACT_FANOUT && Counts(m.segments) == F.Ones(n)
    ensures At(r', log + [Written(LastAt(log) + 1)], h', m', bound + 1)
    ensures Counts(m'.segments) == F.Ones(n + 1) && |m'.segments| == n + 1
    ensures m'.segments[0].docs.Keys == {LastAt(log) + 1} && m'.segments[0].seqHi == LastAt(log) + 1
  {
    var id := LastAt(log) + 1;
    var grown := log + [Written(id)];
    r' := AppendAlone(r, log, h, Written(id));
    LogGrows(log, Written(id));
    FlushOfWrite(log, m, id, bound);
    FlushIsChosen(m, n);
    OnesCons(n);
    r', h', m' := FoldToRest(r', grown, h, m, Flush, bound);
  }

  /** First build of one memory, flushes of two more, and a flush that deletes the last. */
  lemma WritesAndDelete() returns (r: Run, log: seq<Entry>, h: seq<Manifest>, m: Manifest)
    ensures At(r, log, h, m, 4) && m.cursor == 4 && EntriesOf(log) == {1, 2, 3, 4}
    ensures |m.segments| == 4 && Counts(m.segments) == [0, 1, 1, 1]
    ensures m.segments[0].docs == map[] && 3 in m.segments[0].tomb.superseded && m.segments[0].seqHi == 4
    ensures m.segments[1].docs.Keys == {3} && m.segments[1].seqHi == 3
  {
    var base;
    r, h, base := ThreeWrites();
    log := [Written(1), Written(2), Written(3)];
    r, h, m := DeleteAndFlush(r, log, h, base, 3, 3);
    log := log + [Entry(4, [Tombstone(3)])];
    assert m.segments[1] == m.segments[1..][0] == base.segments[0];
    assert [0] + F.Ones(3) == [0, 1, 1, 1];
    FourEntries(log);
  }

  lemma FourEntries(log: seq<Entry>)
    requires |log| == 4 && log[0].at == 1 && log[1].at == 2 && log[2].at == 3 && log[3].at == 4
    ensures EntriesOf(log) == {1, 2, 3, 4}
  {
    forall t ensures t in EntriesOf(log) <==> t in {1, 2, 3, 4} {
      if t in {1, 2, 3, 4} { assert log[t - 1].at == t; }
    }
  }

  /** First build of one memory, then flushes of two more. */
  lemma ThreeWrites() returns (r: Run, h: seq<Manifest>, m: Manifest)
    ensures At(r, [Written(1), Written(2), Written(3)], h, m, 3)
    ensures |m.segments| == 3 && Counts(m.segments) == F.Ones(3)
    ensures m.segments[0].docs.Keys == {3} && m.segments[0].seqHi == 3
  {
    r, h, m := FirstIndex();
    r, h, m := WriteAndFlush(r, [Written(1)], h, m, 1, 1);
    assert [Written(1)] + [Written(2)] == [Written(1), Written(2)];
    r, h, m := WriteAndFlush(r, [Written(1), Written(2)], h, m, 2, 2);
    assert [Written(1), Written(2)] + [Written(3)] == [Written(1), Written(2), Written(3)];
  }

  lemma DeleteAndFlush(r: Run, log: seq<Entry>, h: seq<Manifest>, m: Manifest, bound: nat, n: nat)
    returns (r': Run, h': seq<Manifest>, m': Manifest)
    requires At(r, log, h, m, bound) && 1 <= n < F.COMPACT_FANOUT && Counts(m.segments) == F.Ones(n)
    ensures At(r', log + [Entry(LastAt(log) + 1, [Tombstone(LastAt(log))])], h', m', bound + 1)
    ensures Counts(m'.segments) == [0] + F.Ones(n) && |m'.segments| == n + 1 && m'.segments[1..] == m.segments
    ensures m'.segments[0].docs == map[] && LastAt(log) in m'.segments[0].tomb.superseded && m'.segments[0].seqHi == LastAt(log) + 1
  {
    var e := Entry(LastAt(log) + 1, [Tombstone(LastAt(log))]);
    r' := AppendAlone(r, log, h, e);
    LogGrows(log, e);
    FlushOfDelete(log, m, e.at, LastAt(log), bound);
    FlushIsChosen(m, n);
    r', h', m' := FoldToRest(r', log + [e], h, m, Flush, bound);
  }

  lemma {:induction false} TrimAlone(r: Run, log: seq<Entry>, h: seq<Manifest>, trims: set<nat>) returns (r': Run)
    requires Quiet(r, log, {}, h) && forall t :: t in trims ==> t <= h[|h| - 1].prevCursor
    ensures Quiet(r', log, trims, h)
    decreases trims
  {
    if trims == {} {
      r' := r;
    } else {
      var t :| t in trims;
      r' := TrimAlone(r, log, h, trims - {t});
      assert t <= h[|h| - 1].prevCursor;
      assert trims - {t} + {t} == trims;
      r' := ExtendChosen(r', Trim(t), Sys(log, trims, h, map[]));
    }
  }

  /** The first compaction: due, over an empty tail, so that the previous cursor is the cursor. */
  lemma FirstCompaction() returns (r: Run, log: seq<Entry>, h: seq<Manifest>, m: Manifest)
    ensures Quiet(r, log, {}, h + [m]) && EntriesOf(log) == {1, 2, 3, 4} && IdsBelow(h + [m], 5)
    ensures m.cursor == m.prevCursor == 4 && Counts(m.segments) == [0, 1, 1]
  {
    var base, h1;
    r, log, h, base := WritesAndDelete();
    F.BackToBackCompactions();
    MinorOfDelete(log, base, 3, 4);
    RestOfCounts(base.segments);
    r, h1, m := FoldToRest(r, log, h, base, Minor(2), 4);
  }

  lemma RestOfCounts(segs: seq<Segment>)
    requires |segs| == 4 && Counts(segs) == [0, 1, 1, 1]
    ensures [0] + Counts(segs[2..]) == [0, 1, 1]
  {
    assert segs[2..][0] == segs[2] && segs[2..][1] == segs[3];
    assert Counts(segs)[2] == 1 && Counts(segs)[3] == 1;
  }

  /** A single indexer that only ever does what `fold` chooses, and a collector within its rights: the
      first compaction folds an empty tail, the collector trims the log, and the compaction that is due
      right after it lists an empty log and publishes cursor 0. */
  lemma CursorCanGoBack()
    ensures exists r: Run :: FoldRun(r) && CursorFell(Last(r)) && ClaimsUsed(Last(r))
  {
    var r, log, h, m := FirstCompaction();
    r := TrimAlone(r, log, h + [m], {1, 2, 3, 4});
    SecondCompaction(r, log, h, m);
  }

  /** Over a fully trimmed log the compaction that is due publishes cursor 0. */
  lemma CompactTrimmed(log: seq<Entry>, trims: set<nat>, m: Manifest, newId: nat)
    requires EntriesOf(log) <= trims && Counts(m.segments) == [0, 1, 1]
    ensures ListedHead(log, trims) == 0 && Legal(Minor(2), m, 0) && Chosen(m, Minor(2))
    ensures Folded(log, trims, m, Minor(2), newId).cursor == Folded(log, trims, m, Minor(2), newId).walHead == 0
  {
    NoneListed(log, trims);
    F.BackToBackCompactions();
    MinorListsItsCursor(log, trims, m, newId);
  }

  lemma NoneListed(log: seq<Entry>, trims: set<nat>)
    requires EntriesOf(log) <= trims
    ensures ListedHead(log, trims) == 0
  {
    forall i | 0 <= i < |log| ensures log[i].at in trims { assert log[i].at in EntriesOf(log); }
    AllTrimmed(log, trims);
  }

  /** The new cursor is the listed head. */
  lemma MinorListsItsCursor(log: seq<Entry>, trims: set<nat>, m: Manifest, newId: nat)
    requires |m.segments| >= 2
    ensures Folded(log, trims, m, Minor(2), newId).cursor == Folded(log, trims, m, Minor(2), newId).walHead == ListedHead(log, trims)
  {
  }

  lemma SecondCompaction(r: Run, log: seq<Entry>, h: seq<Manifest>, m1: Manifest)
    requires Quiet(r, log, {1, 2, 3, 4}, h + [m1]) && EntriesOf(log) == {1, 2, 3, 4}
    requires m1.cursor == 4 && Counts(m1.segments) == [0, 1, 1] && IdsBelow(h + [m1], 5)
    ensures exists r: Run :: FoldRun(r) && CursorFell(Last(r)) && ClaimsUsed(Last(r))
  {
    CompactTrimmed(log, {1, 2, 3, 4}, m1, 5);
    assert FreshId(h + [m1], 5);
    var r' := FoldAlone(r, log, {1, 2, 3, 4}, h + [m1], Minor(2), 5);
    FellAtEnd(h, m1, Folded(log, {1, 2, 3, 4}, m1, Minor(2), 5), Last(r'));
    FirstIsClaimed(Last(r'));
  }

  /** The sequence a cold writer would claim has been used. */
  ghost predicate ClaimsUsed(s: Sys) {
    s.history != [] && ColdNext(s) in EntriesOf(s.log)
  }

  lemma FirstIsClaimed(s: Sys)
    requires s.history != [] && s.Current().walHead == 0 && ListedHead(s.log, s.trimmed) == 0 && 1 in EntriesOf(s.log)
    ensures ClaimsUsed(s)
  {
  }

  lemma FellAtEnd(h: seq<Manifest>, m1: Manifest, m2: Manifest, s: Sys)
    requires s.history == h + [m1] + [m2] && m2.cursor < m1.cursor
    ensures CursorFell(s)
  {
    assert s.history[|h|] == m1 && s.history[|h| + 1] == m2;
  }
}

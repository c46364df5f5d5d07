/** Garbage collection by reference with an age floor (crates/mlake-index/src/gc.rs:46-97), running
    beside publishing indexers. A pass reads the manifest, then the clock, then deletes object by
    object; publishes and other passes may fall anywhere in between. */
module Gc {
  import opened Memories
  import opened Wal
  import opened Lsm
  import P = Protocol

  /** One file of one segment. */
  datatype Object = Object(seg: nat, file: nat)

  function SegIds(segs: seq<Segment>): (r: set<nat>)
    ensures forall i :: 0 <= i < |segs| ==> segs[i].id in r
    ensures forall x :: x in r ==> exists i :: 0 <= i < |segs| && segs[i].id == x
  {
    set s | s in segs :: s.id
  }

  /** Segments whose files a pass keeps: the live ones and the previous ones. */
  function Referenced(m: Manifest): set<nat> {
    SegIds(m.segments) + SegIds(m.prevSegments)
  }

  // ---- One pass over a listing --------------------------------------------------------------------

  datatype Outcome = Outcome(segmentFiles: nat, walEntries: nat)

  /** Segment files of neither list of the manifest that are old enough are gone, everything else stays. */
  ghost predicate FilesSwept(m: Manifest, cutoff: int, files: map<Object, int>, files': map<Object, int>) {
    && (forall o :: o in files' <==>
          o in files && (o.seg in SegIds(m.segments) || o.seg in SegIds(m.prevSegments) || files[o] > cutoff))
    && (forall o :: o in files' ==> files'[o] == files[o])
  }

  /** Log entries above the previous cursor stay, and so do young ones; the others are gone. */
  ghost predicate WalSwept(m: Manifest, cutoff: int, wal: map<nat, int>, wal': map<nat, int>) {
    && (forall at :: at in wal' <==> at in wal && (at > m.prevCursor || wal[at] > cutoff))
    && (forall at :: at in wal' ==> wal'[at] == wal[at])
  }

  /** The object store as the collector sees it: write times of segment files and of log entries. */
  class Bucket {
    var files: map<Object, int>
    var wal: map<nat, int>

    constructor (files: map<Object, int>, wal: map<nat, int>)
      ensures this.files == files && this.wal == wal
    {
      this.files, this.wal := files, wal;
    }

    /** Deletes exactly the unreferenced files and the folded entries that are old enough, and counts them. */
    method Collect(m: Manifest, cutoff: int) returns (outcome: Outcome)
      modifies this
      ensures FilesSwept(m, cutoff, old(files), files)
      ensures WalSwept(m, cutoff, old(wal), wal)
      ensures outcome.segmentFiles == |old(files)| - |files|
      ensures outcome.walEntries == |old(wal)| - |wal|
    {
      var deletedFiles := CollectFiles(m, cutoff);
      var deletedWal := CollectWal(m, cutoff);
      outcome := Outcome(deletedFiles, deletedWal);
    }

    method CollectFiles(m: Manifest, cutoff: int) returns (deleted: nat)
      modifies this`files
      ensures FilesSwept(m, cutoff, old(files), files)
      ensures deleted == |old(files)| - |files|
    {
      deleted := 0;
      var listing := files;
      var left := listing.Keys;
      var referenced := Referenced(m);
      while left != {}
        invariant left <= listing.Keys
        invariant forall o :: o in files <==> o in listing && (o in left || o.seg in referenced || listing[o] > cutoff)
        invariant forall o :: o in files ==> files[o] == listing[o]
        invariant deleted == |listing| - |files|
        decreases left
      {
        var o :| o in left;
        if o.seg !in referenced && listing[o] <= cutoff {
          RemoveOne(files, o);
          files := files - {o};
          deleted := deleted + 1;
        }
        left := left - {o};
      }
    }

    method CollectWal(m: Manifest, cutoff: int) returns (deleted: nat)
      modifies this`wal
      ensures WalSwept(m, cutoff, old(wal), wal)
      ensures deleted == |old(wal)| - |wal|
    {
      deleted := 0;
      var listing := wal;
      var left := listing.Keys;
      while left != {}
        invariant left <= listing.Keys
        invariant forall at :: at in wal <==> at in listing && (at in left || at > m.prevCursor || listing[at] > cutoff)
        invariant forall at :: at in wal ==> wal[at] == listing[at]
        invariant deleted == |listing| - |wal|
        decreases left
      {
        var at :| at in left;
        if at <= m.prevCursor && listing[at] <= cutoff {
          RemoveOne(wal, at);
          wal := wal - {at};
          deleted := deleted + 1;
        }
        left := left - {at};
      }
    }
  }

  lemma RemoveOne<K, V>(m: map<K, V>, k: K)
    requires k in m
    ensures |m - {k}| == |m| - 1
  {
    assert (m - {k}).Keys == m.Keys - {k};
  }

  // ---- The transition system ----------------------------------------------------------------------

  /** Longest time from an attempt's first write to its publish, longest time from a pass's manifest
      read to its clock read, and the age floor. */
  datatype Limits = Limits(publishDelay: nat, clockDelay: nat, minAge: nat)

  /** A running pass: which manifest it read, when, and its cutoff once the clock has been read. */
  datatype Pass = Pass(read: nat, readAt: nat, cutoff: Option<int>)

  /** `written` and `entries` keep the write time of every file and log entry ever written; `deleted` and
      `trimmed` remember, with each deletion, which manifest the deleting pass had read. */
  datatype World = World(
    now: nat,
    written: map<Object, nat>,
    entries: map<nat, nat>,
    history: seq<Manifest>,
    passes: map<nat, Pass>,
    deleted: set<(Object, nat)>,
    trimmed: set<(nat, nat)>)

  datatype Step =
    | Tick(dt: nat)
    | Write(o: Object)
    | Append(at: nat)
    | Publish(kind: P.Kind, head: nat, scan: TailScan, node: Node, newId: nat)
    | GcRead(p: nat)
    | GcClock(p: nat)
    | GcDelete(p: nat, o: Object)
    | GcTrim(p: nat, at: nat)

  predicate Unpublished(h: seq<Manifest>, seg: nat) {
    forall i :: 0 <= i < |h| ==> seg !in SegIds(h[i].segments)
  }

  function NextManifest(m: Manifest, kind: P.Kind, head: nat, scan: TailScan, node: Node, newId: nat): Manifest
    requires P.Legal(kind, m, head)
  {
    match kind
    case Flush => FlushManifest(m, head, scan, node, newId)
    case Minor(k) => MinorManifest(m, k, head, scan, node, newId)
    case Index => IndexManifest(m, head, scan, newId)
  }

  /** A rebuild of an empty live set writes no file: no type to index, and no overlay. */
  predicate Fileless(kind: P.Kind, m: Manifest)
    requires m.segments != []
  {
    kind.Index? && m.segments[0].docs == map[]
  }

  ghost predicate Next(lim: Limits, w: World, w': World, step: Step)
    requires w.history != []
  {
    var last := w.history[|w.history| - 1];
    match step
    case Tick(dt) => w' == w.(now := w.now + dt)
    case Write(o) =>
      o !in w.written && Unpublished(w.history, o.seg) && w' == w.(written := w.written[o := w.now])
    case Append(at) => at !in w.entries && w' == w.(entries := w.entries[at := w.now])
    case Publish(kind, head, scan, node, newId) =>
      && P.Legal(kind, last, head) && last.cursor <= head && Unpublished(w.history, newId)
      && (forall o :: o in w.written && o.seg == newId ==> w.now <= w.written[o] + lim.publishDelay)
      && (Fileless(kind, NextManifest(last, kind, head, scan, node, newId)) ==> forall o :: o in w.written ==> o.seg != newId)
      && w' == w.(history := w.history + [NextManifest(last, kind, head, scan, node, newId)])
    case GcRead(p) =>
      p !in w.passes && w' == w.(passes := w.passes[p := Pass(|w.history| - 1, w.now, None)])
    case GcClock(p) =>
      && p in w.passes && w.passes[p].cutoff.None? && w.now <= w.passes[p].readAt + lim.clockDelay
      && w' == w.(passes := w.passes[p := w.passes[p].(cutoff := Some(w.now - lim.minAge))])
    case GcDelete(p, o) =>
      && p in w.passes && w.passes[p].cutoff.Some? && w.passes[p].read < |w.history|
      && o in w.written && o.seg !in Referenced(w.history[w.passes[p].read]) && w.written[o] <= w.passes[p].cutoff.value
      && w' == w.(deleted := w.deleted + {(o, w.passes[p].read)})
    case GcTrim(p, at) =>
      && p in w.passes && w.passes[p].cutoff.Some? && w.passes[p].read < |w.history|
      && at in w.entries && at <= w.history[w.passes[p].read].prevCursor && w.entries[at] <= w.passes[p].cutoff.value
      && w' == w.(trimmed := w.trimmed + {(at, w.passes[p].read)})
  }

  ghost predicate Init(w: World) {
    w == World(0, map[], map[], [EMPTY_MANIFEST], map[], {}, {})
  }

  datatype Run = Run(worlds: seq<World>, steps: seq<Step>)

  ghost predicate RunOk(lim: Limits, r: Run) {
    && |r.worlds| == |r.steps| + 1
    && Init(r.worlds[0])
    && forall i :: 0 <= i < |r.steps| ==> r.worlds[i].history != [] && Next(lim, r.worlds[i], r.worlds[i + 1], r.steps[i])
  }

  /** A reader of manifest `i` loses a file, or a log entry it has to scan, only to a pass that read
      manifest `i + 2` or a later one. */
  ghost predicate ReadersSafe(w: World) {
    && (forall d, i :: d in w.deleted && 0 <= i < |w.history| && d.0.seg in SegIds(w.history[i].segments) ==> d.1 >= i + 2)
    && (forall d, i :: d in w.trimmed && 0 <= i < |w.history| && d.0 > w.history[i].cursor ==> d.1 >= i + 2)
  }

  // ---- Invariant ------------------------------------------------------------------------------------

  /** What every publish keeps for the readers of the manifest it replaces. */
  ghost predicate Follows(a: Manifest, b: Manifest, newId: nat) {
    && SegIds(a.segments) <= Referenced(b)
    && SegIds(b.segments) <= SegIds(a.segments) + {newId}
    && Referenced(b) <= SegIds(a.segments) + {newId}
    && b.prevCursor == a.cursor <= b.cursor
  }

  /** Each fold keeps all of its predecessor's files referenced, also the flush, which clears
      `prevSegments` but drops no segment; and beside its own it keeps none but those. */
  lemma FoldsFollow(a: Manifest, kind: P.Kind, head: nat, scan: TailScan, node: Node, newId: nat)
    requires P.Legal(kind, a, head) && a.cursor <= head
    ensures Follows(a, NextManifest(a, kind, head, scan, node, newId), newId)
  {
    var b := NextManifest(a, kind, head, scan, node, newId);
    assert b.segments[0].id == newId;
    match kind
    case Flush => assert b.segments == [b.segments[0]] + a.segments;
    case Minor(k) =>
      assert b.segments == [b.segments[0]] + a.segments[k..];
      assert forall s :: s in a.segments[k..] ==> s in a.segments;
    case Index => assert b.segments == [b.segments[0]];
  }

  ghost predicate Chain(h: seq<Manifest>) {
    forall i :: 0 <= i < |h| - 1 ==>
      && SegIds(h[i].segments) <= Referenced(h[i + 1])
      && h[i + 1].prevCursor == h[i].cursor <= h[i + 1].cursor
  }

  /** Whatever was published after the pass read its manifest was written late. */
  ghost predicate PassInv(lim: Limits, w: World, p: Pass) {
    && p.read < |w.history| && p.readAt <= w.now
    && (p.cutoff.Some? ==> p.cutoff.value <= p.readAt + lim.clockDelay - lim.minAge)
    && (forall i, o :: p.read <= i < |w.history| && o in w.written && AddedSince(w.history, p.read, i, o.seg) ==>
          p.readAt <= w.written[o] + lim.publishDelay)
  }

  /** Manifest `i` lists a segment that the earlier manifest `k` does not. */
  predicate AddedSince(h: seq<Manifest>, k: nat, i: nat, seg: nat)
    requires k < |h| && i < |h|
  {
    seg in SegIds(h[i].segments) && seg !in SegIds(h[k].segments)
  }

  ghost predicate DeletedInv(lim: Limits, w: World, o: Object, read: nat) {
    && read < |w.history| && o in w.written
    && w.written[o] <= w.now + lim.clockDelay - lim.minAge
    && (forall i :: 0 <= i < |w.history| && o.seg in SegIds(w.history[i].segments) ==> read >= i + 2)
  }

  ghost predicate TrimmedInv(w: World, at: nat, read: nat) {
    read < |w.history| && at <= w.history[read].prevCursor
  }

  ghost predicate Inv(lim: Limits, w: World) {
    && w.history != [] && Chain(w.history)
    && w.history[0].prevCursor <= w.history[0].cursor
    && (forall p :: p in w.passes ==> PassInv(lim, w, w.passes[p]))
    && (forall d :: d in w.deleted ==> DeletedInv(lim, w, d.0, d.1))
    && (forall d :: d in w.trimmed ==> TrimmedInv(w, d.0, d.1))
  }

  lemma TickKeeps(lim: Limits, w: World, w': World, dt: nat)
    requires Inv(lim, w) && w' == w.(now := w.now + dt)
    ensures Inv(lim, w')
  {
    forall p | p in w'.passes ensures PassInv(lim, w', w'.passes[p]) {
      assert PassInv(lim, w, w.passes[p]);
    }
    forall d | d in w'.deleted ensures DeletedInv(lim, w', d.0, d.1) {
      assert DeletedInv(lim, w, d.0, d.1);
    }
    assert forall d :: d in w'.trimmed ==> TrimmedInv(w, d.0, d.1);
  }

  lemma WriteKeeps(lim: Limits, w: World, w': World, o: Object)
    requires Inv(lim, w) && Next(lim, w, w', Write(o))
    ensures Inv(lim, w')
  {
    forall p | p in w'.passes ensures PassInv(lim, w', w'.passes[p]) {
      assert PassInv(lim, w, w.passes[p]);
    }
    forall d | d in w'.deleted ensures DeletedInv(lim, w', d.0, d.1) {
      assert DeletedInv(lim, w, d.0, d.1);
    }
    assert forall d :: d in w'.trimmed ==> TrimmedInv(w, d.0, d.1);
  }

  lemma AppendKeeps(lim: Limits, w: World, w': World, at: nat)
    requires Inv(lim, w) && Next(lim, w, w', Append(at))
    ensures Inv(lim, w')
  {
    forall p | p in w'.passes ensures PassInv(lim, w', w'.passes[p]) {
      assert PassInv(lim, w, w.passes[p]);
    }
    forall d | d in w'.deleted ensures DeletedInv(lim, w', d.0, d.1) {
      assert DeletedInv(lim, w, d.0, d.1);
    }
    assert forall d :: d in w'.trimmed ==> TrimmedInv(w, d.0, d.1);
  }

  lemma PassSurvivesPublish(lim: Limits, w: World, w': World, m: Manifest, newId: nat, p: Pass)
    requires PassInv(lim, w, p) && w.history != []
    requires Follows(w.history[|w.history| - 1], m, newId) && w' == w.(history := w.history + [m])
    requires forall o :: o in w.written && o.seg == newId ==> w.now <= w.written[o] + lim.publishDelay
    ensures PassInv(lim, w', p)
  {
    var n := |w.history|;
    forall i, o | p.read <= i < |w'.history| && o in w'.written && AddedSince(w'.history, p.read, i, o.seg)
      ensures p.readAt <= w'.written[o] + lim.publishDelay
    {
      if i < n {
        assert AddedSince(w.history, p.read, i, o.seg);
      } else if o.seg != newId {
        assert AddedSince(w.history, p.read, n - 1, o.seg);
      }
    }
  }

  lemma DeletedSurvivesPublish(lim: Limits, w: World, w': World, m: Manifest, newId: nat, o: Object, read: nat)
    requires lim.publishDelay + lim.clockDelay < lim.minAge
    requires DeletedInv(lim, w, o, read) && w.history != []
    requires Follows(w.history[|w.history| - 1], m, newId) && w' == w.(history := w.history + [m])
    requires forall o :: o in w.written && o.seg == newId ==> w.now <= w.written[o] + lim.publishDelay
    ensures DeletedInv(lim, w', o, read)
  {
    var n := |w.history|;
    assert o.seg != newId && o.seg !in SegIds(w.history[n - 1].segments);
  }

  lemma InstallKeeps(lim: Limits, w: World, w': World, m: Manifest, newId: nat)
    requires lim.publishDelay + lim.clockDelay < lim.minAge
    requires Inv(lim, w) && Follows(w.history[|w.history| - 1], m, newId) && w' == w.(history := w.history + [m])
    requires forall o :: o in w.written && o.seg == newId ==> w.now <= w.written[o] + lim.publishDelay
    ensures Inv(lim, w')
  {
    ChainGrows(w.history, m, newId);
    forall p | p in w'.passes ensures PassInv(lim, w', w'.passes[p]) {
      PassSurvivesPublish(lim, w, w', m, newId, w.passes[p]);
    }
    forall d | d in w'.deleted ensures DeletedInv(lim, w', d.0, d.1) {
      DeletedSurvivesPublish(lim, w, w', m, newId, d.0, d.1);
    }
    forall d | d in w'.trimmed ensures TrimmedInv(w', d.0, d.1) {
      assert TrimmedInv(w, d.0, d.1);
    }
  }

  lemma ChainGrows(h: seq<Manifest>, m: Manifest, newId: nat)
    requires h != [] && Chain(h) && Follows(h[|h| - 1], m, newId)
    ensures Chain(h + [m])
  {
    var h' := h + [m];
    forall i | 0 <= i < |h'| - 1
      ensures SegIds(h'[i].segments) <= Referenced(h'[i + 1]) && h'[i + 1].prevCursor == h'[i].cursor <= h'[i + 1].cursor
    {
      if i < |h| - 1 { assert h'[i] == h[i] && h'[i + 1] == h[i + 1]; }
    }
  }

  lemma PublishKeeps(lim: Limits, w: World, w': World, step: Step)
    requires lim.publishDelay + lim.clockDelay < lim.minAge
    requires Inv(lim, w) && step.Publish? && Next(lim, w, w', step)
    ensures Inv(lim, w')
  {
    var last := w.history[|w.history| - 1];
    FoldsFollow(last, step.kind, step.head, step.scan, step.node, step.newId);
    InstallKeeps(lim, w, w', NextManifest(last, step.kind, step.head, step.scan, step.node, step.newId), step.newId);
  }

  lemma DeleteIsSafe(lim: Limits, w: World, p: Pass, o: Object)
    requires lim.publishDelay + lim.clockDelay < lim.minAge
    requires w.history != [] && Chain(w.history) && PassInv(lim, w, p) && p.cutoff.Some?
    requires o in w.written && o.seg !in Referenced(w.history[p.read]) && w.written[o] <= p.cutoff.value
    ensures DeletedInv(lim, w, o, p.read)
  {
    if p.read > 0 {
      assert SegIds(w.history[p.read - 1].segments) <= Referenced(w.history[p.read]);
    }
    forall i | p.read <= i < |w.history| ensures o.seg !in SegIds(w.history[i].segments) {
      assert !AddedSince(w.history, p.read, i, o.seg);
    }
  }

  lemma GcKeeps(lim: Limits, w: World, w': World, step: Step)
    requires lim.publishDelay + lim.clockDelay < lim.minAge
    requires Inv(lim, w) && Next(lim, w, w', step)
    requires step.GcRead? || step.GcClock? || step.GcDelete? || step.GcTrim?
    ensures Inv(lim, w')
  {
    if step.GcDelete? {
      DeleteIsSafe(lim, w, w.passes[step.p], step.o);
    }
    forall p | p in w'.passes ensures PassInv(lim, w', w'.passes[p]) {
      assert p in w.passes ==> PassInv(lim, w, w.passes[p]);
    }
    forall d | d in w'.deleted ensures DeletedInv(lim, w', d.0, d.1) {
      assert d in w.deleted ==> DeletedInv(lim, w, d.0, d.1);
    }
    forall d | d in w'.trimmed ensures TrimmedInv(w', d.0, d.1) {
      assert d in w.trimmed ==> TrimmedInv(w, d.0, d.1);
    }
  }

  lemma {:induction false} RunKeepsInv(lim: Limits, r: Run, t: nat)
    requires lim.publishDelay + lim.clockDelay < lim.minAge
    requires RunOk(lim, r) && t < |r.worlds|
    ensures Inv(lim, r.worlds[t])
  {
    if t > 0 {
      var i := t - 1;
      RunKeepsInv(lim, r, i);
      StepKeeps(lim, r.worlds[i], r.worlds[i + 1], r.steps[i]);
    }
  }

  lemma StepKeeps(lim: Limits, w: World, w': World, step: Step)
    requires lim.publishDelay + lim.clockDelay < lim.minAge
    requires Inv(lim, w) && Next(lim, w, w', step)
    ensures Inv(lim, w')
  {
    match step
    case Tick(dt) => TickKeeps(lim, w, w', dt);
    case Write(o) => WriteKeeps(lim, w, w', o);
    case Append(at) => AppendKeeps(lim, w, w', at);
    case Publish(_, _, _, _, _) => PublishKeeps(lim, w, w', step);
    case _ => GcKeeps(lim, w, w', step);
  }

  lemma {:induction false} CursorsRise(h: seq<Manifest>, i: nat, k: nat)
    requires Chain(h) && i <= k < |h|
    ensures h[i].cursor <= h[k].cursor
    decreases k
  {
    if i < k { CursorsRise(h, i, k - 1); }
  }

  lemma InvIsSafe(lim: Limits, w: World)
    requires Inv(lim, w)
    ensures ReadersSafe(w)
  {
    forall d, i | d in w.deleted && 0 <= i < |w.history| && d.0.seg in SegIds(w.history[i].segments) ensures d.1 >= i + 2 {
      assert DeletedInv(lim, w, d.0, d.1);
    }
    forall d, i | d in w.trimmed && 0 <= i < |w.history| && d.0 > w.history[i].cursor ensures d.1 >= i + 2 {
      assert TrimmedInv(w, d.0, d.1);
      if d.1 <= i + 1 {
        if d.1 > 0 {
          assert w.history[d.1].prevCursor == w.history[d.1 - 1].cursor;
          CursorsRise(w.history, d.1 - 1, i);
        } else {
          CursorsRise(w.history, 0, i);
        }
      }
    }
  }

  // ---- When the delays do not fit --------------------------------------------------------------------

  const ORPHAN := Object(1, 0)

  const MEMORY := StoredMemory(7, 1, [], Timestamps(None, None, None, None, None), 0, {}, [], "", 0, 1)

  /** A first build over a log of one upsert. */
  const ONE_WRITE := TailScan(map[7 := MEMORY], {}, map[], [])

  const FIRST_BUILD := IndexManifest(EMPTY_MANIFEST, 1, ONE_WRITE, ORPHAN.seg)

  lemma FirstBuildHoldsTheWrite()
    ensures |FIRST_BUILD.segments| == 1 && FIRST_BUILD.segments[0].id == ORPHAN.seg
    ensures 7 in FIRST_BUILD.segments[0].docs
  {
    assert Materialize([], []) == map[] && AllPreds([]) == [];
    assert Resolve([]) == map[];
    assert 7 in Overlay(map[], ONE_WRITE);
  }

  lemma Extend(lim: Limits, r: Run, step: Step, w: World) returns (r': Run)
    requires RunOk(lim, r) && Latest(r).history != [] && Next(lim, Latest(r), w, step)
    ensures RunOk(lim, r') && Latest(r') == w
  {
    r' := Run(r.worlds + [w], r.steps + [step]);
    forall i | 0 <= i < |r'.steps|
      ensures r'.worlds[i].history != [] && Next(lim, r'.worlds[i], r'.worlds[i + 1], r'.steps[i])
    {
      if i < |r.steps| {
        OldStep(r, step, w, i);
      } else {
        assert r'.worlds[i] == Latest(r) && r'.worlds[i + 1] == w && r'.steps[i] == step;
      }
    }
  }

  lemma OldStep(r: Run, step: Step, w: World, i: nat)
    requires |r.worlds| == |r.steps| + 1 && i < |r.steps|
    ensures (r.worlds + [w])[i] == r.worlds[i] && (r.worlds + [w])[i + 1] == r.worlds[i + 1]
    ensures (r.steps + [step])[i] == r.steps[i]
  {
  }

  function Latest(r: Run): World
    requires r.worlds != []
  {
    r.worlds[|r.worlds| - 1]
  }

  /** An attempt over one upsert writes a file at once and takes all of its time; a pass reads the old
      manifest just before the publish. */
  lemma LatePublishRun(lim: Limits) returns (r: Run)
    ensures RunOk(lim, r)
    ensures Latest(r) == World(lim.publishDelay, map[ORPHAN := 0], map[], [EMPTY_MANIFEST, FIRST_BUILD],
                               map[0 := Pass(0, lim.publishDelay, None)], {}, {})
  {
    FirstBuildHoldsTheWrite();
    var w := World(0, map[], map[], [EMPTY_MANIFEST], map[], {}, {});
    r := Run([w], []);
    w := w.(written := map[ORPHAN := 0]);
    r := Extend(lim, r, Write(ORPHAN), w);
    w := w.(now := lim.publishDelay);
    r := Extend(lim, r, Tick(lim.publishDelay), w);
    w := w.(passes := map[0 := Pass(0, lim.publishDelay, None)]);
    r := Extend(lim, r, GcRead(0), w);
    assert [EMPTY_MANIFEST] + [FIRST_BUILD] == [EMPTY_MANIFEST, FIRST_BUILD];
    w := w.(history := [EMPTY_MANIFEST, FIRST_BUILD]);
    r := Extend(lim, r, Publish(P.Index, 1, ONE_WRITE, Node([], map[]), ORPHAN.seg), w);
  }

  /** The pass then takes all of its time to read the clock. */
  lemma LateClockRun(lim: Limits) returns (r: Run)
    requires lim.publishDelay + lim.clockDelay >= lim.minAge
    ensures RunOk(lim, r) && !ReadersSafe(Latest(r))
  {
    FirstBuildHoldsTheWrite();
    r := LatePublishRun(lim);
    var w := Latest(r);
    var clock := lim.publishDelay + lim.clockDelay;
    w := w.(now := clock);
    r := Extend(lim, r, Tick(lim.clockDelay), w);
    w := w.(passes := map[0 := Pass(0, lim.publishDelay, Some(clock - lim.minAge))]);
    r := Extend(lim, r, GcClock(0), w);
    assert Referenced(EMPTY_MANIFEST) == {};
    w := w.(deleted := {(ORPHAN, 0)});
    r := Extend(lim, r, GcDelete(0, ORPHAN), w);
    assert w.history[1] == FIRST_BUILD;
    assert (ORPHAN, 0) in w.deleted;
  }

  /** Readers of the manifest a pass read, of its predecessor and of every later one never lose a file
      or a log entry, in any interleaving, if and only if publish delay and clock delay together stay
      below the age floor. Bounding the publish delay by the age floor alone is not enough. */
  lemma SafeIffDelaysFit(lim: Limits)
    ensures (forall r, t :: RunOk(lim, r) && 0 <= t < |r.worlds| ==> ReadersSafe(r.worlds[t])) <==>
            lim.publishDelay + lim.clockDelay < lim.minAge
  {
    if lim.publishDelay + lim.clockDelay < lim.minAge {
      forall r, t | RunOk(lim, r) && 0 <= t < |r.worlds| ensures ReadersSafe(r.worlds[t]) {
        RunKeepsInv(lim, r, t);
        InvIsSafe(lim, r.worlds[t]);
      }
    } else {
      var r := LateClockRun(lim);
      assert r.worlds[|r.worlds| - 1] == Latest(r);
    }
  }

  // ---- One sweep is a run of the system ------------------------------------------------------------------

  lemma {:induction false} DeleteAll(lim: Limits, r: Run, p: nat, gone: set<Object>) returns (r': Run)
    requires RunOk(lim, r) && Sweeping(Latest(r), p)
    requires forall o :: o in gone ==> MayDelete(Latest(r), p, o)
    ensures RunOk(lim, r')
    ensures var w := Latest(r);
            Latest(r') == w.(deleted := w.deleted + set o | o in gone :: (o, w.passes[p].read))
    decreases gone
  {
    var w := Latest(r);
    var read := w.passes[p].read;
    if gone == {} {
      r' := r;
      assert w.deleted + (set o | o in gone :: (o, read)) == w.deleted;
    } else {
      var o :| o in gone;
      var w' := w.(deleted := w.deleted + {(o, read)});
      r' := Extend(lim, r, GcDelete(p, o), w');
      r' := DeleteAll(lim, r', p, gone - {o});
      assert w'.deleted + (set x | x in gone - {o} :: (x, read)) == w.deleted + set x | x in gone :: (x, read);
    }
  }

  lemma {:induction false} TrimAll(lim: Limits, r: Run, p: nat, gone: set<nat>) returns (r': Run)
    requires RunOk(lim, r) && Sweeping(Latest(r), p)
    requires forall at :: at in gone ==> MayTrim(Latest(r), p, at)
    ensures RunOk(lim, r')
    ensures var w := Latest(r);
            Latest(r') == w.(trimmed := w.trimmed + set at | at in gone :: (at, w.passes[p].read))
    decreases gone
  {
    var w := Latest(r);
    var read := w.passes[p].read;
    if gone == {} {
      r' := r;
      assert w.trimmed + (set at | at in gone :: (at, read)) == w.trimmed;
    } else {
      var at :| at in gone;
      var w' := w.(trimmed := w.trimmed + {(at, read)});
      r' := Extend(lim, r, GcTrim(p, at), w');
      r' := TrimAll(lim, r', p, gone - {at});
      assert w'.trimmed + (set x | x in gone - {at} :: (x, read)) == w.trimmed + set x | x in gone :: (x, read);
    }
  }

  /** Pass `p` has read its manifest and the clock. */
  ghost predicate Sweeping(w: World, p: nat) {
    w.history != [] && p in w.passes && w.passes[p].cutoff.Some? && w.passes[p].read < |w.history|
  }

  ghost predicate MayDelete(w: World, p: nat, o: Object)
    requires Sweeping(w, p)
  {
    o in w.written && o.seg !in Referenced(w.history[w.passes[p].read]) && w.written[o] <= w.passes[p].cutoff.value
  }

  ghost predicate MayTrim(w: World, p: nat, at: nat)
    requires Sweeping(w, p)
  {
    at in w.entries && at <= w.history[w.passes[p].read].prevCursor && w.entries[at] <= w.passes[p].cutoff.value
  }

  /** What is listed was written when the listing says. */
  ghost predicate Lists(w: World, files: map<Object, int>, wal: map<nat, int>) {
    && (forall o :: o in files ==> o in w.written && files[o] == w.written[o])
    && (forall at :: at in wal ==> at in w.entries && wal[at] == w.entries[at])
  }

  /** What one sweep removes from the listed objects is removed by steps of the system, one object each. */
  lemma SweepIsSteps(lim: Limits, r: Run, p: nat, files: map<Object, int>, wal: map<nat, int>, files': map<Object, int>, wal': map<nat, int>)
    returns (r': Run)
    requires RunOk(lim, r) && Sweeping(Latest(r), p) && Lists(Latest(r), files, wal)
    requires var w := Latest(r);
             var m, cutoff := w.history[w.passes[p].read], w.passes[p].cutoff.value;
             FilesSwept(m, cutoff, files, files') && WalSwept(m, cutoff, wal, wal')
    ensures RunOk(lim, r')
    ensures var w := Latest(r);
            var read := w.passes[p].read;
            Latest(r') == w.(deleted := w.deleted + set o | o in files.Keys - files'.Keys :: (o, read),
                             trimmed := w.trimmed + set at | at in wal.Keys - wal'.Keys :: (at, read))
  {
    r' := DeleteAll(lim, r, p, files.Keys - files'.Keys);
    r' := TrimAll(lim, r', p, wal.Keys - wal'.Keys);
  }

  /** So when the delays fit, a sweep takes no file and no entry that a reader of the manifest it read, of
      the one before or of any later one needs - whatever was published and written in the meantime. */
  lemma SweepSparesReaders(lim: Limits, r: Run, p: nat, files: map<Object, int>, wal: map<nat, int>, files': map<Object, int>,
                           wal': map<nat, int>, i: nat)
    requires lim.publishDelay + lim.clockDelay < lim.minAge
    requires RunOk(lim, r) && Sweeping(Latest(r), p) && Lists(Latest(r), files, wal)
    requires var w := Latest(r);
             var m, cutoff := w.history[w.passes[p].read], w.passes[p].cutoff.value;
             FilesSwept(m, cutoff, files, files') && WalSwept(m, cutoff, wal, wal')
    requires Latest(r).passes[p].read <= i + 1 && i < |Latest(r).history|
    ensures forall o :: o in files && o.seg in SegIds(Latest(r).history[i].segments) ==> o in files'
    ensures forall at :: at in wal && at > Latest(r).history[i].cursor ==> at in wal'
  {
    var r' := SweepIsSteps(lim, r, p, files, wal, files', wal');
    var w, w' := Latest(r), Latest(r');
    var read := w.passes[p].read;
    RunKeepsInv(lim, r', |r'.worlds| - 1);
    InvIsSafe(lim, w');
    forall o | o in files && o.seg in SegIds(w.history[i].segments) ensures o in files' {
      assert o !in files' ==> (o, read) in w'.deleted;
    }
    forall at | at in wal && at > w.history[i].cursor ensures at in wal' {
      assert at !in wal' ==> (at, read) in w'.trimmed;
    }
  }

  /** The entries a sweep trims are ones the protocol lets the collector trim. */
  lemma SweepTrimsLegally(s: P.Sys, i: nat, cutoff: int, wal: map<nat, int>, wal': map<nat, int>, at: nat)
    requires i < |s.history| && WalSwept(s.history[i], cutoff, wal, wal') && at in wal && at !in wal'
    ensures P.Next(s, s.(trimmed := s.trimmed + {at}), P.Trim(at))
  {
    assert at <= s.history[i].prevCursor;
  }
}

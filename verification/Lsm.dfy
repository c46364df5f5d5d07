/** Segments, manifests and the three ways a fold publishes: flush, minor compaction and full
    rebuild (crates/mlake-core/src/manifest.rs, tombstones.rs; crates/mlake-index/src/indexer.rs). */
module Lsm {
  import opened Memories
  import opened Wal

  /** A segment's delete overlay: ids it hides in older segments, and its predicate deletes. */
  datatype SegmentTombstones = SegmentTombstones(superseded: set<MemoryId>, preds: seq<PredicateDelete>)

  /** One immutable segment. `docs` is the union of its per-type indexes, one copy per id. */
  datatype Segment = Segment(id: nat, seqLo: nat, seqHi: nat, docs: Docs, tomb: SegmentTombstones)

  datatype Manifest = Manifest(
    version: nat,
    cursor: nat,
    walHead: nat,
    prevCursor: nat,
    segments: seq<Segment>,
    prevSegments: seq<Segment>)

  const EMPTY_MANIFEST := Manifest(0, 0, 0, 0, [], [])

  /** What a fold takes from the snapshot it opens half-way: the segments it probes for existing
      copies and the memories it can look up for patching. */
  datatype Node = Node(segments: seq<Segment>, docs: Docs)

  // ---- Resolving a segment list -------------------------------------------------------------

  /** `kill[x] > hi`: a segment above `hi` deletes or replaces `x`. */
  predicate Superseded(segs: seq<Segment>, x: MemoryId, hi: nat) {
    exists s :: s in segs && x in s.tomb.superseded && s.seqHi > hi
  }

  function AllPreds(segs: seq<Segment>): seq<PredicateDelete> {
    if segs == [] then [] else segs[0].tomb.preds + AllPreds(segs[1..])
  }

  function AllSuperseded(segs: seq<Segment>): set<MemoryId> {
    set s, x | s in segs && x in s.tomb.superseded :: x
  }

  function IndexedIds(segs: seq<Segment>): set<MemoryId> {
    set s, x | s in segs && x in s.docs :: x
  }

  /** The copies of `seg` that no segment of `all` supersedes. */
  function Live(all: seq<Segment>, seg: Segment): Docs {
    map x | x in seg.docs && !Superseded(all, x, seg.seqHi) :: seg.docs[x]
  }

  /** `by_id` after walking `segs` newest-first: the first live copy of an id stays. */
  function Materialize(all: seq<Segment>, segs: seq<Segment>): Docs {
    if segs == [] then map[] else Materialize(all, segs[1..]) + Live(all, segs[0])
  }

  /** The live set a segment list stands for. */
  function Resolve(segs: seq<Segment>): Docs {
    Without(Materialize(segs, segs), AllPreds(segs))
  }

  /** Textbook LSM lookup: the newest segment that stores or supersedes `x` decides. */
  function Look(segs: seq<Segment>, x: MemoryId): Option<StoredMemory> {
    if segs == [] then None
    else if x in segs[0].docs then Some(segs[0].docs[x])
    else if x in segs[0].tomb.superseded then None
    else Look(segs[1..], x)
  }

  // ---- The shape of a published segment list ------------------------------------------------

  ghost predicate SegmentOk(s: Segment) {
    && Keyed(s.docs)
    && (forall x :: x in s.docs ==> s.docs[x].writeSeq <= s.seqHi)
    && (forall p :: p in s.tomb.preds ==> p.at <= s.seqHi)
  }

  /** `newer` may stand in front of `older`: it covers strictly later sequences, and supersedes every
      id of `older` that it stores itself. */
  ghost predicate Shadows(newer: Segment, older: Segment) {
    && newer.seqHi > older.seqHi
    && (forall x :: x in newer.docs ==> newer.docs[x].writeSeq > older.seqHi)
    && (forall x :: x in newer.docs && x in older.docs ==> x in newer.tomb.superseded)
  }

  ghost predicate SegsOk(segs: seq<Segment>, cursor: nat) {
    && (forall i :: 0 <= i < |segs| ==> SegmentOk(segs[i]) && segs[i].seqHi <= cursor)
    && (forall i, j :: 0 <= i < j < |segs| ==> Shadows(segs[i], segs[j]))
  }

  /** What folding a patch-free slice of `(cursor, head]` yields. */
  ghost predicate ScanOk(s: TailScan, cursor: nat, head: nat) {
    && s.pending == map[]
    && Keyed(s.upserts)
    && s.upserts.Keys !! s.tombstones
    && (forall x :: x in s.upserts ==> cursor < s.upserts[x].writeSeq <= head)
    && (forall x :: x in s.upserts ==> !KilledByAny(s.preds, s.upserts[x]))
    && (forall p :: p in s.preds ==> cursor < p.at <= head)
  }

  // ---- Building the next manifest -----------------------------------------------------------

  function PatchAll(docs: Docs, pending: map<MemoryId, seq<Delta>>): Docs {
    map x | x in docs :: if x in pending then ApplyDeltas(docs[x], pending[x]) else docs[x]
  }

  /** Patched memories that live only in an older segment, taken from the snapshot. */
  function PatchOnly(scan: TailScan, skip: set<MemoryId>, node: Node): Docs {
    PatchAll(map x | x in scan.pending && x !in skip && x in node.docs :: node.docs[x], scan.pending)
  }

  function FlushDocs(scan: TailScan, node: Node): Docs {
    PatchAll(scan.upserts, scan.pending) + PatchOnly(scan, scan.upserts.Keys, node)
  }

  function FlushSegment(newId: nat, cursor: nat, head: nat, scan: TailScan, node: Node): Segment {
    var docs := FlushDocs(scan, node);
    Segment(newId, cursor + 1, head, docs,
            SegmentTombstones(scan.tombstones + docs.Keys * IndexedIds(node.segments), scan.preds))
  }

  function FlushManifest(m: Manifest, head: nat, scan: TailScan, node: Node, newId: nat): Manifest {
    Manifest(m.version + 1, head, head, m.cursor,
             [FlushSegment(newId, m.cursor, head, scan, node)] + m.segments, [])
  }

  function MergedTail(merged: seq<Segment>, scan: TailScan): Docs {
    Without(Resolve(merged) - scan.tombstones + PatchAll(scan.upserts, scan.pending), scan.preds)
  }

  function MinSeqLo(segs: seq<Segment>): nat
    requires segs != []
  {
    if |segs| == 1 || segs[0].seqLo <= MinSeqLo(segs[1..]) then segs[0].seqLo else MinSeqLo(segs[1..])
  }

  function MinorSegment(newId: nat, merged: seq<Segment>, head: nat, scan: TailScan, node: Node): Segment
    requires merged != []
  {
    var base := MergedTail(merged, scan);
    var patched := PatchOnly(scan, scan.tombstones + scan.upserts.Keys + base.Keys, node);
    var touched := scan.tombstones + scan.upserts.Keys + patched.Keys;
    Segment(newId, MinSeqLo(merged), head, base + patched,
            SegmentTombstones(
              AllSuperseded(merged) + scan.tombstones + touched * IndexedIds(node.segments),
              AllPreds(merged) + scan.preds))
  }

  function MinorManifest(m: Manifest, k: nat, head: nat, scan: TailScan, node: Node, newId: nat): Manifest
    requires 2 <= k <= |m.segments|
  {
    Manifest(m.version + 1, head, head, m.cursor,
             [MinorSegment(newId, m.segments[..k], head, scan, node)] + m.segments[k..], m.segments)
  }

  function IndexSegment(newId: nat, segs: seq<Segment>, head: nat, scan: TailScan): Segment {
    Segment(newId, 0, head, PatchAll(Overlay(Resolve(segs), scan), scan.pending), SegmentTombstones({}, []))
  }

  function IndexManifest(m: Manifest, head: nat, scan: TailScan, newId: nat): Manifest {
    Manifest(m.version + 1, head, head, m.cursor, [IndexSegment(newId, m.segments, head, scan)], m.segments)
  }

  // ---- Resolution is LSM lookup -------------------------------------------------------------

  lemma {:induction false} MaterializeIsLook(pre: seq<Segment>, segs: seq<Segment>, cursor: nat, x: MemoryId)
    requires SegsOk(pre + segs, cursor)
    ensures var m := Materialize(pre + segs, segs);
            if x in AllSuperseded(pre) then x !in m
            else match Look(segs, x)
                 case None => x !in m
                 case Some(d) => x in m && m[x] == d
    decreases |segs|
  {
    if segs != [] {
      var all, s := pre + segs, segs[0];
      assert all == (pre + [s]) + segs[1..];
      MaterializeIsLook(pre + [s], segs[1..], cursor, x);
      assert all[|pre|] == s;
      if x in AllSuperseded(pre) {
        var t :| t in pre && x in t.tomb.superseded;
        var i :| 0 <= i < |pre| && pre[i] == t;
        assert all[i] == t && Shadows(all[i], all[|pre|]);
        assert t in pre + [s] && t in all;
      } else {
        assert !Superseded(all, x, s.seqHi);
        assert x in AllSuperseded(pre + [s]) <==> x in s.tomb.superseded by {
          assert forall t :: t in pre + [s] <==> t in pre || t == s;
        }
      }
    }
  }

  /** Under the published shape, kill map, newest-first walk and predicate filter together are the
      textbook lookup followed by the predicate test. */
  lemma ResolveIsLook(segs: seq<Segment>, cursor: nat, x: MemoryId)
    requires SegsOk(segs, cursor)
    ensures x in Resolve(segs) <==>
            Look(segs, x).Some? && !KilledByAny(AllPreds(segs), Look(segs, x).value)
    ensures x in Resolve(segs) ==> Resolve(segs)[x] == Look(segs, x).value
  {
    assert [] + segs == segs;
    MaterializeIsLook([], segs, cursor, x);
  }

  lemma {:induction false} LookConcat(a: seq<Segment>, b: seq<Segment>, x: MemoryId)
    ensures Look(a + b, x) ==
            if Look(a, x).Some? then Look(a, x)
            else if x in AllSuperseded(a) then None
            else Look(b, x)
    decreases |a|
  {
    if a == [] {
      assert a + b == b;
    } else {
      assert (a + b)[1..] == a[1..] + b;
      LookConcat(a[1..], b, x);
      assert forall s :: s in a <==> s == a[0] || s in a[1..];
    }
  }

  lemma {:induction false} LookFinds(segs: seq<Segment>, x: MemoryId)
    ensures Look(segs, x).Some? ==> exists i :: 0 <= i < |segs| && x in segs[i].docs && Look(segs, x).value == segs[i].docs[x]
    ensures Look(segs, x).None? && (exists i :: 0 <= i < |segs| && x in segs[i].docs) ==> x in AllSuperseded(segs)
  {
    if segs != [] {
      LookFinds(segs[1..], x);
      assert forall i :: 0 <= i < |segs[1..]| ==> segs[1..][i] == segs[i + 1];
      assert forall s :: s in segs <==> s == segs[0] || s in segs[1..];
      if Look(segs, x).None? && exists i :: 0 <= i < |segs| && x in segs[i].docs {
        var i :| 0 <= i < |segs| && x in segs[i].docs;
        if i > 0 { assert x in segs[1..][i - 1].docs; }
      }
    }
  }

  lemma {:induction false} AllPredsConcat(a: seq<Segment>, b: seq<Segment>)
    ensures AllPreds(a + b) == AllPreds(a) + AllPreds(b)
  {
    if a == [] {
      assert a + b == b;
    } else {
      assert (a + b)[1..] == a[1..] + b;
      AllPredsConcat(a[1..], b);
    }
  }

  lemma {:induction false} AllPredsBounded(segs: seq<Segment>, cursor: nat)
    requires forall i :: 0 <= i < |segs| ==> SegmentOk(segs[i]) && segs[i].seqHi <= cursor
    ensures forall p :: p in AllPreds(segs) ==> p.at <= cursor
  {
    if segs != [] { AllPredsBounded(segs[1..], cursor); }
  }

  // ---- Each way of publishing resolves to the same overlay ------------------------------------

  lemma PatchNothing(docs: Docs)
    ensures PatchAll(docs, map[]) == docs
  {
    assert forall x :: x in docs ==> PatchAll(docs, map[])[x] == docs[x];
  }

  lemma NoPatches(scan: TailScan, node: Node, skip: set<MemoryId>)
    requires scan.pending == map[]
    ensures PatchAll(scan.upserts, scan.pending) == scan.upserts
    ensures PatchOnly(scan, skip, node) == map[]
    ensures FlushDocs(scan, node) == scan.upserts
  {
    PatchNothing(scan.upserts);
    assert forall x :: x in PatchOnly(scan, skip, node) ==> x in scan.pending;
    assert forall x :: x in PatchOnly(scan, scan.upserts.Keys, node) ==> x in scan.pending;
    assert PatchOnly(scan, skip, node) == map[] && PatchOnly(scan, scan.upserts.Keys, node) == map[];
  }

  ghost predicate AgreeAt(a: Docs, b: Docs, x: MemoryId) {
    (x in a <==> x in b) && (x in a ==> a[x] == b[x])
  }

  lemma AgreeEverywhere(a: Docs, b: Docs)
    requires forall x :: AgreeAt(a, b, x)
    ensures a == b
  {
    assert forall x :: AgreeAt(a, b, x) ==> (x in a <==> x in b) && (x in a ==> a[x] == b[x]);
  }

  /** `x` in a resolved list, read off the lookup. */
  ghost predicate LookedUp(r: Docs, segs: seq<Segment>, x: MemoryId) {
    && (x in r <==> Look(segs, x).Some? && !KilledByAny(AllPreds(segs), Look(segs, x).value))
    && (x in r ==> r[x] == Look(segs, x).value)
  }

  /** When a list and the list a fold publishes agree at `x` up to the scan. */
  lemma OverlayAgrees(segs: seq<Segment>, next: seq<Segment>, scan: TailScan, x: MemoryId)
    requires LookedUp(Resolve(segs), segs, x) && LookedUp(Resolve(next), next, x)
    requires x in scan.upserts ==>
               && Look(next, x) == Some(scan.upserts[x])
               && !KilledByAny(AllPreds(next), scan.upserts[x]) && !KilledByAny(scan.preds, scan.upserts[x])
    requires x in scan.tombstones ==> x !in scan.upserts && Look(next, x).None?
    requires x !in scan.upserts && x !in scan.tombstones && Look(segs, x).None? ==> Look(next, x).None?
    requires x !in scan.upserts && x !in scan.tombstones && Look(segs, x).Some? ==>
               var d := Look(segs, x).value;
               if KilledByAny(AllPreds(segs), d) || KilledByAny(scan.preds, d)
               then Look(next, x).None? || KilledByAny(AllPreds(next), Look(next, x).value)
               else Look(next, x) == Some(d) && !KilledByAny(AllPreds(next), d)
    ensures AgreeAt(Resolve(next), Overlay(Resolve(segs), scan), x)
  {
  }

  /** A newer segment in front. */
  lemma ConsOk(n: Segment, kept: seq<Segment>, cursor: nat, head: nat)
    requires SegmentOk(n) && n.seqHi <= head && SegsOk(kept, cursor) && cursor <= head
    requires forall j :: 0 <= j < |kept| ==> Shadows(n, kept[j])
    ensures SegsOk([n] + kept, head)
  {
    var next := [n] + kept;
    assert forall j :: 0 < j < |next| ==> next[j] == kept[j - 1];
  }

  lemma FlushShape(m: Manifest, head: nat, scan: TailScan, node: Node, newId: nat)
    requires SegsOk(m.segments, m.cursor) && ScanOk(scan, m.cursor, head) && m.cursor < head
    requires node.segments == m.segments
    ensures SegsOk(FlushManifest(m, head, scan, node, newId).segments, head)
  {
    NoPatches(scan, node, {});
    var n := FlushSegment(newId, m.cursor, head, scan, node);
    assert SegmentOk(n);
    forall j | 0 <= j < |m.segments| ensures Shadows(n, m.segments[j]) {
      assert m.segments[j] in m.segments;
    }
    ConsOk(n, m.segments, m.cursor, head);
  }

  lemma FlushAt(m: Manifest, n: Segment, head: nat, scan: TailScan, x: MemoryId)
    requires SegsOk(m.segments, m.cursor) && SegsOk([n] + m.segments, head)
    requires ScanOk(scan, m.cursor, head)
    requires n.docs == scan.upserts && n.tomb.preds == scan.preds
    requires n.tomb.superseded == scan.tombstones + scan.upserts.Keys * IndexedIds(m.segments)
    ensures AgreeAt(Resolve([n] + m.segments), Overlay(Resolve(m.segments), scan), x)
  {
    var next := [n] + m.segments;
    ResolveIsLook(next, head, x);
    ResolveIsLook(m.segments, m.cursor, x);
    assert next[1..] == m.segments;
    if x in scan.upserts {
      AllPredsBounded(m.segments, m.cursor);
      KilledAppend(scan.preds, AllPreds(m.segments), scan.upserts[x]);
    } else if Look(m.segments, x).Some? {
      KilledAppend(scan.preds, AllPreds(m.segments), Look(m.segments, x).value);
    }
    OverlayAgrees(m.segments, next, scan, x);
  }

  lemma FlushResolves(m: Manifest, head: nat, scan: TailScan, node: Node, newId: nat)
    requires SegsOk(m.segments, m.cursor) && ScanOk(scan, m.cursor, head) && m.cursor < head
    requires node.segments == m.segments
    ensures Resolve(FlushManifest(m, head, scan, node, newId).segments) == Overlay(Resolve(m.segments), scan)
  {
    var n := FlushSegment(newId, m.cursor, head, scan, node);
    NoPatches(scan, node, {});
    FlushShape(m, head, scan, node, newId);
    var r, o := Resolve([n] + m.segments), Overlay(Resolve(m.segments), scan);
    forall x ensures AgreeAt(r, o, x) {
      FlushAt(m, n, head, scan, x);
    }
    AgreeEverywhere(r, o);
  }

  lemma OverlayDoc(segs: seq<Segment>, cursor: nat, head: nat, scan: TailScan, x: MemoryId)
    requires SegsOk(segs, cursor) && ScanOk(scan, cursor, head) && cursor <= head
    requires x in Overlay(Resolve(segs), scan)
    ensures Overlay(Resolve(segs), scan)[x].id == x
    ensures Overlay(Resolve(segs), scan)[x].writeSeq <= head
  {
    if x !in scan.upserts {
      ResolveIsLook(segs, cursor, x);
      LookFinds(segs, x);
    }
  }

  lemma ResolveSingle(n: Segment)
    requires n.tomb == SegmentTombstones({}, [])
    ensures Resolve([n]) == n.docs
  {
    assert [n][1..] == [];
    assert AllPreds([n]) == [];
    assert Live([n], n) == n.docs;
    assert Materialize([n], [n]) == n.docs;
  }

  lemma IndexResolves(m: Manifest, head: nat, scan: TailScan, newId: nat)
    requires SegsOk(m.segments, m.cursor) && ScanOk(scan, m.cursor, head) && m.cursor <= head
    ensures Resolve(IndexManifest(m, head, scan, newId).segments) == Overlay(Resolve(m.segments), scan)
    ensures SegsOk(IndexManifest(m, head, scan, newId).segments, head)
  {
    PatchNothing(Overlay(Resolve(m.segments), scan));
    var n := IndexSegment(newId, m.segments, head, scan);
    ResolveSingle(n);
    forall x | x in n.docs ensures n.docs[x].id == x && n.docs[x].writeSeq <= head {
      OverlayDoc(m.segments, m.cursor, head, scan, x);
    }
    assert SegmentOk(n);
  }

  // ---- Minor compaction ----------------------------------------------------------------------

  /** `n` is what a minor compaction of `merged` over `kept` writes for a patch-free tail. */
  ghost predicate MergedInto(n: Segment, merged: seq<Segment>, kept: seq<Segment>, scan: TailScan, head: nat) {
    && n.seqHi == head
    && n.docs == Overlay(Resolve(merged), scan)
    && n.tomb.superseded == AllSuperseded(merged) + scan.tombstones
       + (scan.tombstones + scan.upserts.Keys) * IndexedIds(merged + kept)
    && n.tomb.preds == AllPreds(merged) + scan.preds
  }

  ghost predicate Mergeable(merged: seq<Segment>, kept: seq<Segment>, scan: TailScan, cursor: nat, head: nat) {
    && merged != [] && cursor <= head
    && SegsOk(merged, cursor) && SegsOk(kept, cursor)
    && (forall i, j :: 0 <= i < |merged| && 0 <= j < |kept| ==> Shadows(merged[i], kept[j]))
    && ScanOk(scan, cursor, head)
  }

  lemma MergeableSplit(segs: seq<Segment>, k: nat, scan: TailScan, cursor: nat, head: nat)
    requires SegsOk(segs, cursor) && ScanOk(scan, cursor, head) && cursor <= head
    requires 1 <= k <= |segs|
    ensures segs == segs[..k] + segs[k..]
    ensures Mergeable(segs[..k], segs[k..], scan, cursor, head)
  {
    var merged, kept := segs[..k], segs[k..];
    assert forall j :: 0 <= j < |kept| ==> kept[j] == segs[k + j];
    forall i, j | 0 <= i < |merged| && 0 <= j < |kept| ensures Shadows(merged[i], kept[j]) {
      assert Shadows(segs[i], segs[k + j]);
    }
    forall i, j | 0 <= i < j < |kept| ensures Shadows(kept[i], kept[j]) {
      assert Shadows(segs[k + i], segs[k + j]);
    }
  }

  lemma MinorIsMerge(m: Manifest, k: nat, head: nat, scan: TailScan, node: Node, newId: nat)
    requires scan.pending == map[]
    requires 2 <= k <= |m.segments| && node.segments == m.segments
    ensures MergedInto(MinorSegment(newId, m.segments[..k], head, scan, node), m.segments[..k], m.segments[k..], scan, head)
  {
    var base := MergedTail(m.segments[..k], scan);
    assert m.segments == m.segments[..k] + m.segments[k..];
    NoPatches(scan, node, scan.tombstones + scan.upserts.Keys + base.Keys);
    var n := MinorSegment(newId, m.segments[..k], head, scan, node);
    assert base == Overlay(Resolve(m.segments[..k]), scan);
    assert n.docs == base;
    assert scan.tombstones + scan.upserts.Keys + {} == scan.tombstones + scan.upserts.Keys;
  }

  /** A memory in the merged run is newer than everything kept, so no kept predicate hits it; and a
      kept copy of it is in the overlay that is carried forward. */
  lemma MergedIsNewer(merged: seq<Segment>, kept: seq<Segment>, scan: TailScan, cursor: nat, head: nat, x: MemoryId)
    requires Mergeable(merged, kept, scan, cursor, head)
    requires Look(merged, x).Some?
    ensures var d := Look(merged, x).value;
            && d.id == x && d.writeSeq <= cursor
            && !KilledByAny(AllPreds(kept), d)
            && forall j :: 0 <= j < |kept| ==> d.writeSeq > kept[j].seqHi
    ensures forall j :: 0 <= j < |kept| && x in kept[j].docs ==> x in AllSuperseded(merged)
  {
    var d := Look(merged, x).value;
    LookFinds(merged, x);
    var i :| 0 <= i < |merged| && x in merged[i].docs && d == merged[i].docs[x];
    assert merged[i] in merged;
    forall j | 0 <= j < |kept|
      ensures d.writeSeq > kept[j].seqHi && (x in kept[j].docs ==> x in AllSuperseded(merged))
    {
      assert Shadows(merged[i], kept[j]);
    }
    if kept != [] {
      assert forall j :: 0 < j < |kept| ==> Shadows(kept[0], kept[j]);
      AllPredsBounded(kept, kept[0].seqHi);
    }
  }

  lemma MergedDoc(n: Segment, merged: seq<Segment>, kept: seq<Segment>, scan: TailScan, cursor: nat, head: nat, x: MemoryId)
    requires Mergeable(merged, kept, scan, cursor, head) && MergedInto(n, merged, kept, scan, head)
    requires x in n.docs
    ensures n.docs[x].id == x && n.docs[x].writeSeq <= head
    ensures forall j :: 0 <= j < |kept| ==> n.docs[x].writeSeq > kept[j].seqHi
    ensures forall j :: 0 <= j < |kept| && x in kept[j].docs ==> x in n.tomb.superseded
  {
    if x in scan.upserts {
      forall j | 0 <= j < |kept| && x in kept[j].docs ensures x in n.tomb.superseded {
        assert kept[j] in merged + kept;
      }
    } else {
      ResolveIsLook(merged, cursor, x);
      MergedIsNewer(merged, kept, scan, cursor, head, x);
    }
  }

  lemma MergedSegmentOk(n: Segment, merged: seq<Segment>, kept: seq<Segment>, scan: TailScan, cursor: nat, head: nat)
    requires Mergeable(merged, kept, scan, cursor, head) && MergedInto(n, merged, kept, scan, head)
    ensures SegmentOk(n)
  {
    forall x | x in n.docs ensures n.docs[x].id == x && n.docs[x].writeSeq <= head {
      MergedDoc(n, merged, kept, scan, cursor, head, x);
    }
    AllPredsBounded(merged, cursor);
  }

  lemma MergedShadows(n: Segment, merged: seq<Segment>, kept: seq<Segment>, scan: TailScan, cursor: nat, head: nat, j: nat)
    requires Mergeable(merged, kept, scan, cursor, head) && MergedInto(n, merged, kept, scan, head)
    requires j < |kept|
    ensures Shadows(n, kept[j])
  {
    forall x | x in n.docs
      ensures n.docs[x].writeSeq > kept[j].seqHi && (x in kept[j].docs ==> x in n.tomb.superseded)
    {
      MergedDoc(n, merged, kept, scan, cursor, head, x);
    }
    assert Shadows(merged[0], kept[j]);
  }

  lemma MergeShape(n: Segment, merged: seq<Segment>, kept: seq<Segment>, scan: TailScan, cursor: nat, head: nat)
    requires Mergeable(merged, kept, scan, cursor, head) && MergedInto(n, merged, kept, scan, head)
    ensures SegsOk([n] + kept, head)
  {
    MergedSegmentOk(n, merged, kept, scan, cursor, head);
    forall j | 0 <= j < |kept| ensures Shadows(n, kept[j]) {
      MergedShadows(n, merged, kept, scan, cursor, head, j);
    }
    ConsOk(n, kept, cursor, head);
  }

  /** Predicates of the three sources, and which memories each can reach. */
  lemma MergePreds(n: Segment, merged: seq<Segment>, kept: seq<Segment>, scan: TailScan, head: nat, d: StoredMemory)
    requires MergedInto(n, merged, kept, scan, head)
    ensures KilledByAny(AllPreds([n] + kept), d) <==>
            KilledByAny(AllPreds(merged), d) || KilledByAny(scan.preds, d) || KilledByAny(AllPreds(kept), d)
    ensures KilledByAny(AllPreds(merged + kept), d) <==>
            KilledByAny(AllPreds(merged), d) || KilledByAny(AllPreds(kept), d)
  {
    assert ([n] + kept)[1..] == kept;
    AllPredsConcat(merged, kept);
    KilledAppend(AllPreds(merged), AllPreds(kept), d);
    KilledAppend(n.tomb.preds, AllPreds(kept), d);
    KilledAppend(AllPreds(merged), scan.preds, d);
  }

  lemma {:induction false} LookNone(segs: seq<Segment>, x: MemoryId)
    requires forall j :: 0 <= j < |segs| ==> x !in segs[j].docs
    ensures Look(segs, x).None?
  {
    if segs != [] { LookNone(segs[1..], x); }
  }

  /** A touched or merged id that the new segment neither stores nor supersedes is nowhere below it. */
  lemma NothingBelow(n: Segment, merged: seq<Segment>, kept: seq<Segment>, scan: TailScan, cursor: nat, head: nat, x: MemoryId, j: nat)
    requires Mergeable(merged, kept, scan, cursor, head) && MergedInto(n, merged, kept, scan, head)
    requires Look(merged, x).Some? || x in scan.upserts
    requires x !in n.tomb.superseded && j < |kept|
    ensures x !in kept[j].docs
  {
    assert kept[j] in merged + kept;
    if Look(merged, x).Some? {
      MergedIsNewer(merged, kept, scan, cursor, head, x);
    }
  }

  /** What lookup finds for `x` in the merged list, by where `x` was. */
  lemma MergeLook(n: Segment, merged: seq<Segment>, kept: seq<Segment>, scan: TailScan, cursor: nat, head: nat, x: MemoryId)
    requires Mergeable(merged, kept, scan, cursor, head) && MergedInto(n, merged, kept, scan, head)
    ensures x in n.docs ==> Look([n] + kept, x) == Some(n.docs[x])
    ensures x !in n.docs && (Look(merged, x).Some? || x in AllSuperseded(merged) || x in scan.tombstones || x in scan.upserts) ==>
              Look([n] + kept, x).None?
    ensures x !in n.docs && Look(merged, x).None? && x !in AllSuperseded(merged) && x !in scan.tombstones && x !in scan.upserts ==>
              Look([n] + kept, x) == Look(merged + kept, x) == Look(kept, x)
  {
    assert ([n] + kept)[1..] == kept;
    LookConcat(merged, kept, x);
    if x !in n.tomb.superseded && (Look(merged, x).Some? || x in scan.upserts) {
      forall j | 0 <= j < |kept| ensures x !in kept[j].docs {
        NothingBelow(n, merged, kept, scan, cursor, head, x, j);
      }
      LookNone(kept, x);
    }
  }

  lemma MergeAtTail(n: Segment, merged: seq<Segment>, kept: seq<Segment>, scan: TailScan, cursor: nat, head: nat, x: MemoryId)
    requires Mergeable(merged, kept, scan, cursor, head) && MergedInto(n, merged, kept, scan, head)
    requires SegsOk(merged + kept, cursor) && SegsOk([n] + kept, head)
    requires x in scan.upserts || x in scan.tombstones
    ensures AgreeAt(Resolve([n] + kept), Overlay(Resolve(merged + kept), scan), x)
  {
    ResolveIsLook([n] + kept, head, x);
    ResolveIsLook(merged + kept, cursor, x);
    MergeLook(n, merged, kept, scan, cursor, head, x);
    if x in scan.upserts {
      AllPredsBounded(merged, cursor);
      AllPredsBounded(kept, cursor);
      MergePreds(n, merged, kept, scan, head, scan.upserts[x]);
    }
    OverlayAgrees(merged + kept, [n] + kept, scan, x);
  }

  lemma MergeAtMerged(n: Segment, merged: seq<Segment>, kept: seq<Segment>, scan: TailScan, cursor: nat, head: nat, x: MemoryId)
    requires Mergeable(merged, kept, scan, cursor, head) && MergedInto(n, merged, kept, scan, head)
    requires SegsOk(merged + kept, cursor) && SegsOk([n] + kept, head)
    requires x !in scan.upserts && x !in scan.tombstones && Look(merged, x).Some?
    ensures AgreeAt(Resolve([n] + kept), Overlay(Resolve(merged + kept), scan), x)
  {
    ResolveIsLook([n] + kept, head, x);
    ResolveIsLook(merged + kept, cursor, x);
    ResolveIsLook(merged, cursor, x);
    MergeLook(n, merged, kept, scan, cursor, head, x);
    LookConcat(merged, kept, x);
    MergePreds(n, merged, kept, scan, head, Look(merged, x).value);
    MergedIsNewer(merged, kept, scan, cursor, head, x);
    OverlayAgrees(merged + kept, [n] + kept, scan, x);
  }

  lemma MergeAtKept(n: Segment, merged: seq<Segment>, kept: seq<Segment>, scan: TailScan, cursor: nat, head: nat, x: MemoryId)
    requires Mergeable(merged, kept, scan, cursor, head) && MergedInto(n, merged, kept, scan, head)
    requires SegsOk(merged + kept, cursor) && SegsOk([n] + kept, head)
    requires x !in scan.upserts && x !in scan.tombstones && Look(merged, x).None?
    ensures AgreeAt(Resolve([n] + kept), Overlay(Resolve(merged + kept), scan), x)
  {
    ResolveIsLook([n] + kept, head, x);
    ResolveIsLook(merged + kept, cursor, x);
    ResolveIsLook(merged, cursor, x);
    MergeLook(n, merged, kept, scan, cursor, head, x);
    LookConcat(merged, kept, x);
    if Look(kept, x).Some? {
      MergePreds(n, merged, kept, scan, head, Look(kept, x).value);
    }
    OverlayAgrees(merged + kept, [n] + kept, scan, x);
  }

  lemma MergeResolves(n: Segment, merged: seq<Segment>, kept: seq<Segment>, scan: TailScan, cursor: nat, head: nat)
    requires Mergeable(merged, kept, scan, cursor, head) && MergedInto(n, merged, kept, scan, head)
    requires SegsOk(merged + kept, cursor)
    ensures Resolve([n] + kept) == Overlay(Resolve(merged + kept), scan)
  {
    MergeShape(n, merged, kept, scan, cursor, head);
    var r, o := Resolve([n] + kept), Overlay(Resolve(merged + kept), scan);
    forall x ensures AgreeAt(r, o, x) {
      if x in scan.upserts || x in scan.tombstones {
        MergeAtTail(n, merged, kept, scan, cursor, head, x);
      } else if Look(merged, x).Some? {
        MergeAtMerged(n, merged, kept, scan, cursor, head, x);
      } else {
        MergeAtKept(n, merged, kept, scan, cursor, head, x);
      }
    }
    AgreeEverywhere(r, o);
  }

  lemma MinorResolves(m: Manifest, k: nat, head: nat, scan: TailScan, node: Node, newId: nat)
    requires SegsOk(m.segments, m.cursor) && ScanOk(scan, m.cursor, head) && m.cursor <= head
    requires 2 <= k <= |m.segments| && node.segments == m.segments
    ensures Resolve(MinorManifest(m, k, head, scan, node, newId).segments) == Overlay(Resolve(m.segments), scan)
    ensures SegsOk(MinorManifest(m, k, head, scan, node, newId).segments, head)
  {
    var merged, kept := m.segments[..k], m.segments[k..];
    var n := MinorSegment(newId, merged, head, scan, node);
    MergeableSplit(m.segments, k, scan, m.cursor, head);
    MinorIsMerge(m, k, head, scan, node, newId);
    MergeShape(n, merged, kept, scan, m.cursor, head);
    MergeResolves(n, merged, kept, scan, m.cursor, head);
  }

  /** A minor compaction of any legal prefix and the full rebuild publish the same live set. */
  lemma MinorEqualsFullRebuild(m: Manifest, k: nat, head: nat, scan: TailScan, node: Node, id1: nat, id2: nat)
    requires SegsOk(m.segments, m.cursor) && ScanOk(scan, m.cursor, head) && m.cursor <= head
    requires 2 <= k <= |m.segments| && node.segments == m.segments
    ensures Resolve(MinorManifest(m, k, head, scan, node, id1).segments)
            == Resolve(IndexManifest(m, head, scan, id2).segments)
  {
    MinorResolves(m, k, head, scan, node, id1);
    IndexResolves(m, head, scan, id2);
  }

  lemma MergedOwnUnkilled(n: Segment, merged: seq<Segment>, kept: seq<Segment>, scan: TailScan, cursor: nat, head: nat, x: MemoryId)
    requires Mergeable(merged, kept, scan, cursor, head) && MergedInto(n, merged, kept, scan, head)
    requires x in n.docs
    ensures !KilledByAny(AllPreds([n] + kept), n.docs[x])
  {
    MergePreds(n, merged, kept, scan, head, n.docs[x]);
    AllPredsBounded(merged, cursor);
    AllPredsBounded(kept, cursor);
    if x !in scan.upserts {
      ResolveIsLook(merged, cursor, x);
      MergedIsNewer(merged, kept, scan, cursor, head, x);
    }
  }

  /** The carried overlay and predicates hide none of the merged segment's own memories. */
  lemma MinorHidesNothingOfItsOwn(m: Manifest, k: nat, head: nat, scan: TailScan, node: Node, newId: nat, x: MemoryId)
    requires SegsOk(m.segments, m.cursor) && ScanOk(scan, m.cursor, head) && m.cursor <= head
    requires 2 <= k <= |m.segments| && node.segments == m.segments
    requires x in MinorSegment(newId, m.segments[..k], head, scan, node).docs
    ensures var n := MinorSegment(newId, m.segments[..k], head, scan, node);
            var r := Resolve(MinorManifest(m, k, head, scan, node, newId).segments);
            x in r && r[x] == n.docs[x]
  {
    var merged, kept := m.segments[..k], m.segments[k..];
    var n := MinorSegment(newId, merged, head, scan, node);
    MergeableSplit(m.segments, k, scan, m.cursor, head);
    MinorIsMerge(m, k, head, scan, node, newId);
    MergeShape(n, merged, kept, scan, m.cursor, head);
    MergedOwnUnkilled(n, merged, kept, scan, m.cursor, head, x);
    ResolveIsLook([n] + kept, head, x);
  }
}

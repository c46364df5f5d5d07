/** The three folds as they run: live-set resolution, overlay construction and the field-by-field
    edit of the next manifest (crates/mlake-index/src/indexer.rs:132-238, 319-483, 629-770). */
module Indexer {
  import opened Memories
  import opened Wal
  import opened Lsm
  import opened Overlays
  import opened QueryNode

  // ---- Live-set resolution ----------------------------------------------------------------------

  /** Adds a segment's documents that are neither present yet nor killed from above. */
  method AddSegment(byId0: Docs, kill: map<MemoryId, nat>, seg: Segment, ghost all: seq<Segment>) returns (byId: Docs)
    requires IsKillMap(kill, all)
    ensures byId == Live(all, seg) + byId0
  {
    byId := byId0;
    var ids := seg.docs.Keys;
    while ids != {}
      invariant ids <= seg.docs.Keys
      invariant forall x :: x in byId <==> x in byId0 || (x in seg.docs && x !in ids && !Lsm.Superseded(all, x, seg.seqHi))
      invariant forall x :: x in byId ==> byId[x] == if x in byId0 then byId0[x] else seg.docs[x]
      decreases ids
    {
      var x :| x in ids;
      KillMapSupersedes(kill, all, x, seg.seqHi);
      if x !in byId && !(x in kill && kill[x] > seg.seqHi) {
        byId := byId[x := seg.docs[x]];
      }
      ids := ids - {x};
    }
    AgreeEverywhere(byId, Live(all, seg) + byId0);
  }

  /** Drops every memory a predicate delete hits. */
  method Retain(docs: Docs, preds: seq<PredicateDelete>) returns (r: Docs)
    ensures r == Without(docs, preds)
  {
    r := docs;
    var ids := docs.Keys;
    while ids != {}
      invariant ids <= docs.Keys
      invariant forall x :: x in r <==> x in docs && (x in ids || !KilledByAny(preds, docs[x]))
      invariant forall x :: x in r ==> r[x] == docs[x]
      decreases ids
    {
      var x :| x in ids;
      if KilledByAny(preds, docs[x]) {
        r := r - {x};
      }
      ids := ids - {x};
    }
    AgreeEverywhere(r, Without(docs, preds));
  }

  /** The live set of a segment list: kill map, newest-first walk, predicate filter. */
  method ResolveLive(segs: seq<Segment>) returns (byId: Docs, preds: seq<PredicateDelete>)
    ensures byId == Resolve(segs)
    ensures preds == AllPreds(segs)
  {
    var kill;
    kill, preds := BuildKillMap(segs);
    byId := map[];
    assert segs[0..] == segs;
    for i := 0 to |segs|
      invariant Materialize(segs, segs[i..]) + byId == Materialize(segs, segs)
    {
      ghost var before := byId;
      byId := AddSegment(byId, kill, segs[i], segs);
      assert segs[i..][1..] == segs[i + 1..];
      assert Materialize(segs, segs[i..]) == Materialize(segs, segs[i + 1..]) + Live(segs, segs[i]);
      PlusAssoc(Materialize(segs, segs[i + 1..]), Live(segs, segs[i]), before);
    }
    assert segs[|segs|..] == [];
    assert map[] + byId == byId;
    byId := Retain(byId, preds);
  }

  lemma PlusAssoc(a: Docs, b: Docs, c: Docs)
    ensures (a + b) + c == a + (b + c)
  {
  }

  // ---- Applying the tail ------------------------------------------------------------------------

  /** Applies pending patches where there are any. */
  method ApplyPatches(docs: Docs, pending: map<MemoryId, seq<Delta>>) returns (r: Docs)
    ensures r == PatchAll(docs, pending)
  {
    r := docs;
    var ids := docs.Keys;
    while ids != {}
      invariant ids <= docs.Keys && r.Keys == docs.Keys
      invariant forall x :: x in ids ==> r[x] == docs[x]
      invariant forall x :: x in docs && x !in ids ==> r[x] == PatchAll(docs, pending)[x]
      decreases ids
    {
      var x :| x in ids;
      if x in pending {
        r := r[x := ApplyDeltas(r[x], pending[x])];
      }
      ids := ids - {x};
    }
  }

  /** Re-materializes memories that the tail patches but that only an older segment holds. */
  method PatchFromNode(scan: TailScan, skip: set<MemoryId>, node: Node) returns (r: Docs)
    ensures r == PatchOnly(scan, skip, node)
  {
    r := map[];
    var ids := scan.pending.Keys - skip;
    while ids != {}
      invariant ids <= scan.pending.Keys - skip
      invariant forall x :: x in r <==> x in PatchOnly(scan, skip, node) && x !in ids
      invariant forall x :: x in r ==> r[x] == PatchOnly(scan, skip, node)[x]
      decreases ids
    {
      var x :| x in ids;
      if x in node.docs {
        r := r[x := ApplyDeltas(node.docs[x], scan.pending[x])];
      }
      ids := ids - {x};
    }
    AgreeEverywhere(r, PatchOnly(scan, skip, node));
  }

  /** Which of `ids` an indexed segment holds. */
  method SegmentIds(node: Node, ids: set<MemoryId>) returns (found: set<MemoryId>)
    ensures found == ids * IndexedIds(node.segments)
  {
    found := {};
    for i := 0 to |node.segments|
      invariant found == ids * IndexedIds(node.segments[..i])
    {
      found := found + ids * node.segments[i].docs.Keys;
      assert forall s :: s in node.segments[..i + 1] <==> s in node.segments[..i] || s == node.segments[i];
    }
    assert node.segments[..|node.segments|] == node.segments;
  }

  // ---- The three folds --------------------------------------------------------------------------

  /** Flush: nothing to publish unless the head is past the cursor. */
  method BuildFlush(m: Manifest, head: nat, scan: TailScan, node: Node, newId: nat) returns (next: Option<Manifest>)
    ensures next.None? <==> head <= m.cursor
    ensures next.Some? ==> next.value == FlushManifest(m, head, scan, node, newId)
  {
    if head <= m.cursor {
      return None;
    }
    var items := ApplyPatches(scan.upserts, scan.pending);
    var patched := PatchFromNode(scan, items.Keys, node);
    items := items + patched;
    assert items == FlushDocs(scan, node);
    var reupserts := SegmentIds(node, items.Keys);
    var tomb := SegmentTombstones(scan.tombstones + reupserts, scan.preds);
    var segment := Segment(newId, m.cursor + 1, head, items, tomb);
    var manifest := m;
    manifest := manifest.(version := m.version + 1);
    manifest := manifest.(cursor := head, walHead := head, prevCursor := m.cursor);
    manifest := manifest.(prevSegments := [], segments := [segment] + m.segments);
    next := Some(manifest);
  }

  method SmallestSeqLo(segs: seq<Segment>) returns (lo: nat)
    requires segs != []
    ensures lo == MinSeqLo(segs)
  {
    lo := segs[|segs| - 1].seqLo;
    var i := |segs| - 1;
    while i > 0
      invariant 0 <= i < |segs|
      invariant lo == MinSeqLo(segs[i..])
    {
      i := i - 1;
      assert segs[i..][1..] == segs[i + 1..];
      if segs[i].seqLo <= lo { lo := segs[i].seqLo; }
    }
    assert segs[0..] == segs;
  }

  /** Minor compaction of the newest `k` segments and the tail; a prefix that no longer exists falls
      back to a flush. */
  method BuildMinor(m: Manifest, k: nat, head: nat, scan: TailScan, node: Node, newId: nat) returns (next: Option<Manifest>)
    ensures 2 <= k <= |m.segments| ==> next == Some(MinorManifest(m, k, head, scan, node, newId))
    ensures !(2 <= k <= |m.segments|) && head <= m.cursor ==> next.None?
    ensures !(2 <= k <= |m.segments|) && head > m.cursor ==> next == Some(FlushManifest(m, head, scan, node, newId))
  {
    if k < 2 || k > |m.segments| {
      next := BuildFlush(m, head, scan, node, newId);
      return;
    }
    var merged, kept := m.segments[..k], m.segments[k..];
    var byId, carryPreds := ResolveLive(merged);
    var upserts := ApplyPatches(scan.upserts, scan.pending);
    byId := byId - scan.tombstones + upserts;
    byId := Retain(byId, scan.preds);
    assert byId == MergedTail(merged, scan);
    var touched := scan.tombstones + scan.upserts.Keys;
    var patched := PatchFromNode(scan, touched + byId.Keys, node);
    touched := touched + patched.Keys;
    var reupserts := SegmentIds(node, touched);
    var tomb := SegmentTombstones(AllSuperseded(merged) + scan.tombstones + reupserts, carryPreds + scan.preds);
    var lo := SmallestSeqLo(merged);
    var segment := Segment(newId, lo, head, byId + patched, tomb);
    assert segment == MinorSegment(newId, merged, head, scan, node);
    var manifest := m;
    manifest := manifest.(version := m.version + 1);
    manifest := manifest.(cursor := head, walHead := head, prevCursor := m.cursor);
    manifest := manifest.(prevSegments := m.segments, segments := [segment] + kept);
    next := Some(manifest);
  }

  /** Full rebuild: every live memory into one segment with an empty overlay. */
  method BuildIndex(m: Manifest, head: nat, scan: TailScan, newId: nat) returns (next: Manifest)
    ensures next == IndexManifest(m, head, scan, newId)
  {
    var byId, _ := ResolveLive(m.segments);
    byId := byId - scan.tombstones + scan.upserts;
    byId := Retain(byId, scan.preds);
    byId := ApplyPatches(byId, scan.pending);
    var segment := Segment(newId, 0, head, byId, SegmentTombstones({}, []));
    next := m;
    next := next.(version := m.version + 1);
    next := next.(cursor := head, walHead := head, prevCursor := m.cursor);
    next := next.(prevSegments := m.segments, segments := [segment]);
  }

  // ---- Building one type's index ------------------------------------------------------------------

  /** Clusters and primary key of one type from the centroid each memory was given; the result
      is what a snapshot later loads. */
  method BuildTypeIndex(segId: nat, seqHi: nat, items: seq<StoredMemory>, chosen: seq<nat>, k: nat, ghost seg: Segment, ghost ft: nat)
    returns (st: SegmentState)
    requires |chosen| == |items| && forall i :: 0 <= i < |items| ==> chosen[i] < k
    requires seg.id == segId && seg.seqHi == seqHi
    requires DistinctIds(items)
    requires forall i :: 0 <= i < |items| ==> HasType(seg.docs, items[i].id, ft) && seg.docs[items[i].id] == items[i]
    requires forall x :: HasType(seg.docs, x, ft) ==> seg.docs[x] in items
    requires Keyed(seg.docs)
    ensures Holds(st, seg, ft)
  {
    st := SegmentState(segId, seqHi, seq(k, _ => []), map[], map[]);
    for i := 0 to |items|
      invariant |st.clusters| == k && st.id == segId && st.seqHi == seqHi
      invariant HoldsFirst(st, items, chosen, i)
    {
      PutKeepsAllPlaced(st, items, chosen, i);
      PutKeepsKeys(st, items, i, chosen[i]);
      PutKeepsMembers(st.clusters, items, chosen, i);
      st := Put(st, items[i], chosen[i]);
    }
    PlacedAll(st, items, chosen, seg, ft);
  }

  /** The first `n` memories are in place. */
  ghost predicate HoldsFirst(st: SegmentState, items: seq<StoredMemory>, chosen: seq<nat>, n: nat)
    requires n <= |items| == |chosen|
  {
    && AllPlaced(st, items, chosen, n)
    && KeysAmong(st, items, n)
    && MembersAmong(st.clusters, items, chosen, n)
  }

  ghost predicate AllPlaced(st: SegmentState, items: seq<StoredMemory>, chosen: seq<nat>, n: nat)
    requires n <= |items| == |chosen|
  {
    && st.payload.Keys == st.pk.Keys
    && forall i :: 0 <= i < n ==> items[i].id in st.pk && Placed(st, items[i], chosen[i])
  }

  ghost predicate KeysAmong(st: SegmentState, items: seq<StoredMemory>, n: nat)
    requires n <= |items|
  {
    forall x :: x in st.pk ==> exists i :: 0 <= i < n && items[i].id == x
  }

  ghost predicate MembersAmong(clusters: seq<seq<StoredMemory>>, items: seq<StoredMemory>, chosen: seq<nat>, n: nat)
    requires n <= |items| == |chosen|
  {
    && (forall c :: 0 <= c < |clusters| ==> DistinctIds(clusters[c]))
    && (forall c, m :: 0 <= c < |clusters| && m in clusters[c] ==>
          exists i :: 0 <= i < n && items[i] == m && chosen[i] == c)
  }

  ghost predicate Placed(st: SegmentState, m: StoredMemory, c: nat)
    requires m.id in st.pk && st.payload.Keys == st.pk.Keys
  {
    st.pk[m.id] == c && c < |st.clusters| && m in st.clusters[c] && st.payload[m.id] == Strip(m)
  }

  function Put(st: SegmentState, m: StoredMemory, c: nat): SegmentState
    requires c < |st.clusters|
  {
    st.(clusters := st.clusters[c := st.clusters[c] + [m]], pk := st.pk[m.id := c], payload := st.payload[m.id := Strip(m)])
  }

  lemma PutKeepsPlaced(st: SegmentState, m: StoredMemory, c: nat, earlier: StoredMemory, d: nat)
    requires c < |st.clusters| && st.payload.Keys == st.pk.Keys
    requires earlier.id in st.pk && Placed(st, earlier, d) && earlier.id != m.id
    ensures Placed(Put(st, m, c), earlier, d)
  {
  }

  lemma PutKeepsAllPlaced(st: SegmentState, items: seq<StoredMemory>, chosen: seq<nat>, n: nat)
    requires n < |items| == |chosen| && DistinctIds(items)
    requires AllPlaced(st, items, chosen, n) && chosen[n] < |st.clusters|
    ensures AllPlaced(Put(st, items[n], chosen[n]), items, chosen, n + 1)
  {
    var r := Put(st, items[n], chosen[n]);
    forall i | 0 <= i < n + 1 ensures items[i].id in r.pk && Placed(r, items[i], chosen[i]) {
      if i < n { PutKeepsPlaced(st, items[n], chosen[n], items[i], chosen[i]); }
    }
  }

  lemma PutKeepsKeys(st: SegmentState, items: seq<StoredMemory>, n: nat, c: nat)
    requires n < |items| && c < |st.clusters| && KeysAmong(st, items, n)
    ensures KeysAmong(Put(st, items[n], c), items, n + 1)
  {
    var r := Put(st, items[n], c);
    forall x | x in r.pk ensures exists i :: 0 <= i < n + 1 && items[i].id == x {
      if x in st.pk {
        var i :| 0 <= i < n && items[i].id == x;
      } else {
        assert items[n].id == x;
      }
    }
  }

  lemma PutKeepsMembers(clusters: seq<seq<StoredMemory>>, items: seq<StoredMemory>, chosen: seq<nat>, n: nat)
    requires n < |items| == |chosen| && DistinctIds(items)
    requires MembersAmong(clusters, items, chosen, n) && chosen[n] < |clusters|
    ensures MembersAmong(clusters[chosen[n] := clusters[chosen[n]] + [items[n]]], items, chosen, n + 1)
  {
    var ms := clusters[chosen[n]];
    var r := clusters[chosen[n] := ms + [items[n]]];
    forall i | 0 <= i < |ms| ensures ms[i].id != items[n].id {
      assert ms[i] in ms;
      var k :| 0 <= k < n && items[k] == ms[i] && chosen[k] == chosen[n];
    }
    forall d, x | 0 <= d < |r| && x in r[d] ensures exists i :: 0 <= i < n + 1 && items[i] == x && chosen[i] == d {
      if x in clusters[d] {
        var i :| 0 <= i < n && items[i] == x && chosen[i] == d;
      } else {
        assert items[n] == x && chosen[n] == d;
      }
    }
  }

  lemma PlacedAll(st: SegmentState, items: seq<StoredMemory>, chosen: seq<nat>, seg: Segment, ft: nat)
    requires |chosen| == |items| && HoldsFirst(st, items, chosen, |items|)
    requires st.id == seg.id && st.seqHi == seg.seqHi && Keyed(seg.docs)
    requires forall i :: 0 <= i < |items| ==> HasType(seg.docs, items[i].id, ft) && seg.docs[items[i].id] == items[i]
    requires forall x :: HasType(seg.docs, x, ft) ==> seg.docs[x] in items
    ensures Holds(st, seg, ft)
  {
    forall x ensures x in st.pk <==> HasType(seg.docs, x, ft) {
      if HasType(seg.docs, x, ft) {
        var i :| 0 <= i < |items| && items[i] == seg.docs[x];
        assert items[i].id == x;
      }
    }
    forall x | x in st.pk
      ensures st.pk[x] < |st.clusters| && seg.docs[x] in st.clusters[st.pk[x]] && st.payload[x] == Strip(seg.docs[x])
    {
      var i :| 0 <= i < |items| && items[i].id == x;
      assert Placed(st, items[i], chosen[i]);
    }
    forall c, i | 0 <= c < |st.clusters| && 0 <= i < |st.clusters[c]|
      ensures var m := st.clusters[c][i]; m.id in st.pk && st.pk[m.id] == c && m == seg.docs[m.id]
    {
      var m := st.clusters[c][i];
      assert m in st.clusters[c];
      var k :| 0 <= k < |items| && items[k] == m && chosen[k] == c;
      assert Placed(st, items[k], chosen[k]);
    }
  }
}

/** The sequence ranges that segments carry (crates/mlake-core/src/manifest.rs:144-147,
    crates/mlake-index/src/indexer.rs:214, 453-458, 739). */
module Ranges {
  import opened Memories
  import opened Wal
  import opened Lsm
  import opened Protocol
  import L = Listings

  /** A segment's range holds the sequence of every write it stores. */
  ghost predicate RangeOk(s: Segment) {
    s.seqLo <= s.seqHi && forall x :: x in s.docs ==> s.seqLo <= s.docs[x].writeSeq <= s.seqHi
  }

  /** Newest first, ranges hold their writes and do not meet. */
  ghost predicate RangesOk(segs: seq<Segment>) {
    && (forall i :: 0 <= i < |segs| ==> RangeOk(segs[i]))
    && (forall i, j :: 0 <= i < j < |segs| ==> segs[i].seqLo > segs[j].seqHi)
  }

  lemma FrontRange(n: Segment, kept: seq<Segment>)
    requires RangesOk(kept) && RangeOk(n) && forall j :: 0 <= j < |kept| ==> n.seqLo > kept[j].seqHi
    ensures RangesOk([n] + kept)
  {
    var next := [n] + kept;
    assert forall j :: 0 < j < |next| ==> next[j] == kept[j - 1];
  }

  lemma {:induction false} MinIsLeast(segs: seq<Segment>) returns (k: nat)
    requires segs != []
    ensures k < |segs| && MinSeqLo(segs) == segs[k].seqLo
    ensures forall i :: 0 <= i < |segs| ==> MinSeqLo(segs) <= segs[i].seqLo
  {
    k := 0;
    if |segs| > 1 {
      var l := MinIsLeast(segs[1..]);
      assert forall i :: 0 < i < |segs| ==> segs[i] == segs[1..][i - 1];
      if segs[0].seqLo > MinSeqLo(segs[1..]) { k := l + 1; }
    }
  }

  lemma FlushRanges(m: Manifest, head: nat, scan: TailScan, node: Node, newId: nat)
    requires SegsOk(m.segments, m.cursor) && ScanOk(scan, m.cursor, head) && m.cursor < head && RangesOk(m.segments)
    ensures RangesOk(FlushManifest(m, head, scan, node, newId).segments)
  {
    NoPatches(scan, node, {});
    FrontRange(FlushSegment(newId, m.cursor, head, scan, node), m.segments);
  }

  lemma IndexRanges(m: Manifest, head: nat, scan: TailScan, newId: nat)
    requires SegsOk(m.segments, m.cursor) && ScanOk(scan, m.cursor, head) && m.cursor <= head
    ensures RangesOk(IndexManifest(m, head, scan, newId).segments)
  {
    IndexResolves(m, head, scan, newId);
  }

  /** What a merge keeps of its segments lies in the merged range. */
  lemma MergedInRange(merged: seq<Segment>, cursor: nat, x: MemoryId)
    requires merged != [] && SegsOk(merged, cursor) && RangesOk(merged) && x in Resolve(merged)
    ensures MinSeqLo(merged) <= Resolve(merged)[x].writeSeq
  {
    var k := MinIsLeast(merged);
    ResolveIsLook(merged, cursor, x);
    LookFinds(merged, x);
    var i :| 0 <= i < |merged| && x in merged[i].docs && Look(merged, x).value == merged[i].docs[x];
    assert RangeOk(merged[i]);
  }

  lemma MergedRange(n: Segment, merged: seq<Segment>, kept: seq<Segment>, scan: TailScan, cursor: nat, head: nat)
    requires MergedInto(n, merged, kept, scan, head) && Mergeable(merged, kept, scan, cursor, head)
    requires n.seqLo == MinSeqLo(merged) && RangesOk(merged)
    ensures RangeOk(n)
  {
    var k := MinIsLeast(merged);
    assert RangeOk(merged[k]) && merged[k].seqHi <= cursor;
    forall x | x in n.docs ensures n.seqLo <= n.docs[x].writeSeq <= n.seqHi {
      OverlayDoc(merged, cursor, head, scan, x);
      if x !in scan.upserts { MergedInRange(merged, cursor, x); }
    }
  }

  lemma MinorRanges(m: Manifest, k: nat, head: nat, scan: TailScan, node: Node, newId: nat)
    requires SegsOk(m.segments, m.cursor) && ScanOk(scan, m.cursor, head) && m.cursor <= head && RangesOk(m.segments)
    requires 2 <= k <= |m.segments| && node.segments == m.segments
    ensures RangesOk(MinorManifest(m, k, head, scan, node, newId).segments)
  {
    var merged, kept := m.segments[..k], m.segments[k..];
    var n := MinorSegment(newId, merged, head, scan, node);
    MergeableSplit(m.segments, k, scan, m.cursor, head);
    MinorIsMerge(m, k, head, scan, node, newId);
    RangesSplit(m.segments, k);
    MergedRange(n, merged, kept, scan, m.cursor, head);
    var l := MinIsLeast(merged);
    FrontRange(n, kept);
  }

  lemma RangesSplit(segs: seq<Segment>, k: nat)
    requires RangesOk(segs) && k <= |segs|
    ensures RangesOk(segs[..k]) && RangesOk(segs[k..])
    ensures forall i, j :: 0 <= i < k && 0 <= j < |segs[k..]| ==> segs[..k][i].seqLo > segs[k..][j].seqHi
  {
    assert forall j :: 0 <= j < |segs[k..]| ==> segs[k..][j] == segs[k + j];
  }

  lemma BuiltRanges(s: Sys, j: nat, kind: Kind, newId: nat, nodeDocs: Docs)
    requires Inv(s) && j in s.jobs && s.jobs[j].Opened? && s.Current() == s.jobs[j].base
    requires Legal(kind, s.jobs[j].base, s.jobs[j].head) && s.jobs[j].base.cursor <= s.jobs[j].head
    requires RangesOk(s.jobs[j].base.segments)
    ensures RangesOk(Built(s.log, s.jobs[j], kind, newId, nodeDocs).segments)
  {
    var job := s.jobs[j];
    SwapSawItsOwnManifest(s, j);
    ScanOfSlice(s.log, job.base.cursor, job.head);
    assert ManifestInv(s.log, s.history[|s.history| - 1]);
    var scan := FoldTail(SliceEvents(s.log, job.base.cursor, job.head));
    var node := Node(job.node.segments, nodeDocs);
    match kind
    case Flush => FlushRanges(job.base, job.head, scan, node, newId);
    case Minor(k) => MinorRanges(job.base, k, job.head, scan, node, newId);
    case Index => IndexRanges(job.base, job.head, scan, newId);
  }

  /** In every reachable state, in every published manifest: each segment's range holds its writes, and the
      ranges of newer segments lie entirely above those of older ones. */
  lemma {:induction false} RunKeepsRanges(r: Run, t: nat)
    requires RunOk(r) && RunGuarded(r) && t < |r.states|
    ensures forall i :: 0 <= i < |r.states[t].history| ==> RangesOk(r.states[t].history[i].segments)
  {
    if t > 0 {
      RunKeepsRanges(r, t - 1);
      RunKeepsInv(r, t - 1);
      StepKeepsRanges(r.states[t - 1], r.states[t], r.steps[t - 1]);
    }
  }

  lemma StepKeepsRanges(s: Sys, s': Sys, step: Step)
    requires Inv(s) && Next(s, s', step) && ListingReachesCursor(s, step)
    requires forall i :: 0 <= i < |s.history| ==> RangesOk(s.history[i].segments)
    ensures forall i :: 0 <= i < |s'.history| ==> RangesOk(s'.history[i].segments)
  {
    if L.Swaps(s, step) {
      BuiltRanges(s, step.j, step.kind, step.newId, step.nodeDocs);
    } else {
      L.QuietKeepsHistory(s, s', step);
    }
  }
}

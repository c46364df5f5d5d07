/** Hydration of a query's dense winners, and the dense query as a whole
    (crates/mlake-index/src/query_node.rs:1330-1425, 1505-1515, 1938-1985). */
module Hydration {
  import opened Tags
  import opened Memories
  import opened Wal
  import opened Lsm
  import opened QueryNode
  import opened VectorArm
  import opened DenseQuery
  import Scanning
  import Summary

  // ---- Hydrating the winners ------------------------------------------------------------------------------

  /** A segment's payload row; the checked read skips hidden and superseded ones. */
  function RowOf(n: Snapshot, st: SegmentState, x: MemoryId, checked: bool): Option<StoredMemory> {
    if x in st.payload && (checked ==> Visible(n, st.seqHi, x, st.payload[x])) then Some(st.payload[x]) else None
  }

  /** The row of the newest segment that gives one. */
  function FirstRow(n: Snapshot, states: seq<SegmentState>, x: MemoryId, checked: bool): Option<StoredMemory> {
    if states == [] then None
    else
      var k := |states| - 1;
      Or(FirstRow(n, states[..k], x, checked), RowOf(n, states[k], x, checked))
  }

  function TailItem(items: seq<StoredMemory>, x: MemoryId): Option<StoredMemory> {
    if items == [] then None
    else
      var k := |items| - 1;
      if items[k].id == x then Some(items[k]) else TailItem(items[..k], x)
  }

  /** What a hit on `x` carries: the tail's item, else a checked row, else any row at all. */
  function Carried(n: Snapshot, f: FactType, x: MemoryId): Option<StoredMemory> {
    Or(TailItem(f.tailItems, x),
       Or(if x in n.tombstones then None else FirstRow(n, f.segments, x, true),
          FirstRow(n, f.segments, x, false)))
  }

  datatype Hit = Hit(id: MemoryId, rank: nat, score: int, memory: StoredMemory)

  predicate Kept(n: Snapshot, f: FactType, q: Filter, x: MemoryId) {
    x !in n.tombstones && Carried(n, f, x).Some? && q.GroupsMatch(Carried(n, f, x).value.tags)
  }

  /** The hits in rank order. */
  function HitsOf(n: Snapshot, f: FactType, q: Filter, winners: seq<Scored>): seq<Hit> {
    if winners == [] then []
    else
      var k := |winners| - 1;
      HitsOf(n, f, q, winners[..k]) +
      if Kept(n, f, q, winners[k].id)
      then [Hit(winners[k].id, k, winners[k].score, Carried(n, f, winners[k].id).value)] else []
  }

  /** `found` holds the items whose ids are asked for. */
  ghost predicate Seeded(found: Docs, ids: set<MemoryId>, items: seq<StoredMemory>) {
    && (forall x :: x in found <==> x in ids && TailItem(items, x).Some?)
    && (forall x :: x in found ==> found[x] == TailItem(items, x).value)
  }

  method SeedTail(items: seq<StoredMemory>, ids: set<MemoryId>) returns (found: Docs)
    ensures Seeded(found, ids, items)
  {
    found := map[];
    for i := 0 to |items|
      invariant Seeded(found, ids, items[..i])
    {
      assert items[..i + 1][..i] == items[..i];
      if items[i].id in ids {
        found := found[items[i].id := items[i]];
      }
    }
    assert items[..|items|] == items;
  }

  /** Adds one segment's rows for ids still missing; what came first stays. */
  method AddRows(n: Snapshot, st: SegmentState, missing: set<MemoryId>, found0: Docs, checked: bool) returns (found: Docs)
    ensures forall x :: x in found <==> x in found0 || (x in missing && RowOf(n, st, x, checked).Some?)
    ensures forall x :: x in found ==> found[x] == if x in found0 then found0[x] else RowOf(n, st, x, checked).value
  {
    found := found0;
    var rows := missing * st.payload.Keys;
    while rows != {}
      invariant rows <= missing * st.payload.Keys
      invariant forall x :: x in found <==> x in found0 || (x in missing && x !in rows && RowOf(n, st, x, checked).Some?)
      invariant forall x :: x in found ==> found[x] == if x in found0 then found0[x] else RowOf(n, st, x, checked).value
      decreases rows
    {
      var x :| x in rows;
      if (checked ==> Visible(n, st.seqHi, x, st.payload[x])) && x !in found {
        found := found[x := st.payload[x]];
      }
      rows := rows - {x};
    }
  }

  /** `found` is `found0` with the first row of every id of `ids` it lacked. */
  ghost predicate FilledIn(n: Snapshot, states: seq<SegmentState>, ids: set<MemoryId>, checked: bool, found0: Docs, found: Docs) {
    && (forall x :: x in found <==> x in found0 || (x in ids && FirstRow(n, states, x, checked).Some?))
    && (forall x :: x in found ==> found[x] == if x in found0 then found0[x] else FirstRow(n, states, x, checked).value)
  }

  lemma FillStep(n: Snapshot, states: seq<SegmentState>, k: nat, ids: set<MemoryId>, checked: bool, found0: Docs, before: Docs, found: Docs)
    requires k < |states| && FilledIn(n, states[..k], ids, checked, found0, before)
    requires forall x :: x in found <==> x in before || (x in ids - before.Keys && RowOf(n, states[k], x, checked).Some?)
    requires forall x :: x in found ==> found[x] == if x in before then before[x] else RowOf(n, states[k], x, checked).value
    ensures FilledIn(n, states[..k + 1], ids, checked, found0, found)
  {
    assert states[..k + 1][..k] == states[..k];
    forall x ensures FirstRow(n, states[..k + 1], x, checked) == Or(FirstRow(n, states[..k], x, checked), RowOf(n, states[k], x, checked)) {
    }
  }

  lemma FillDone(n: Snapshot, states: seq<SegmentState>, k: nat, ids: set<MemoryId>, checked: bool, found0: Docs, found: Docs)
    requires k <= |states| && FilledIn(n, states[..k], ids, checked, found0, found) && ids <= found.Keys
    ensures FilledIn(n, states, ids, checked, found0, found)
  {
    forall x | x in ids && x !in found0
      ensures FirstRow(n, states, x, checked) == FirstRow(n, states[..k], x, checked)
    {
      FirstRowStays(n, states, k, x, checked);
    }
  }

  lemma {:induction false} FirstRowStays(n: Snapshot, states: seq<SegmentState>, k: nat, x: MemoryId, checked: bool)
    requires k <= |states| && FirstRow(n, states[..k], x, checked).Some?
    ensures FirstRow(n, states, x, checked) == FirstRow(n, states[..k], x, checked)
    decreases |states|
  {
    if k < |states| {
      var last := |states| - 1;
      assert states[..last][..k] == states[..k];
      FirstRowStays(n, states[..last], k, x, checked);
    } else {
      assert states[..k] == states;
    }
  }

  /** Newest segment first, until nothing is missing. */
  method Fill(n: Snapshot, states: seq<SegmentState>, ids: set<MemoryId>, found0: Docs, checked: bool) returns (found: Docs)
    ensures FilledIn(n, states, ids, checked, found0, found)
  {
    found := found0;
    for k := 0 to |states|
      invariant FilledIn(n, states[..k], ids, checked, found0, found)
    {
      var missing := ids - found.Keys;
      if missing == {} {
        assert forall x :: x in ids ==> x in found || x in missing;
        FillDone(n, states, k, ids, checked, found0, found);
        return;
      }
      var before := found;
      found := AddRows(n, states[k], missing, found, checked);
      FillStep(n, states, k, ids, checked, found0, before, found);
    }
    assert states[..|states|] == states;
  }

  /** The whole hydration: tail items, checked rows, then unchecked rows for whatever is still missing. */
  method Hydrate(n: Snapshot, f: FactType, q: Filter, winners: seq<Scored>) returns (hits: seq<Hit>)
    ensures hits == HitsOf(n, f, q, winners)
  {
    var ids := set w | w in winners :: w.id;
    var seeded := SeedTail(f.tailItems, ids);
    var checked := Fill(n, f.segments, ids - n.tombstones, seeded, true);
    var found := Fill(n, f.segments, ids - n.tombstones - checked.Keys, checked, false);
    FilledIsCarried(n, f, ids, seeded, checked, found);
    hits := [];
    for i := 0 to |winners|
      invariant hits == HitsOf(n, f, q, winners[..i])
    {
      assert winners[..i + 1][..i] == winners[..i];
      var w := winners[i];
      assert w.id in ids;
      if w.id !in n.tombstones && w.id in found && q.GroupsMatch(found[w.id].tags) {
        hits := hits + [Hit(w.id, i, w.score, found[w.id])];
      }
    }
    assert winners[..|winners|] == winners;
  }

  lemma FilledIsCarried(n: Snapshot, f: FactType, ids: set<MemoryId>, seeded: Docs, checked: Docs, found: Docs)
    requires Seeded(seeded, ids, f.tailItems)
    requires FilledIn(n, f.segments, ids - n.tombstones, true, seeded, checked)
    requires FilledIn(n, f.segments, ids - n.tombstones - checked.Keys, false, checked, found)
    ensures forall x :: x in ids && x !in n.tombstones ==>
              (x in found <==> Carried(n, f, x).Some?) && (x in found ==> found[x] == Carried(n, f, x).value)
  {
    forall x | x in ids && x !in n.tombstones
      ensures (x in found <==> Carried(n, f, x).Some?) && (x in found ==> found[x] == Carried(n, f, x).value)
    {
      assert x in seeded <==> TailItem(f.tailItems, x).Some?;
    }
  }

  // ---- What the hits carry ---------------------------------------------------------------------------------

  lemma {:induction false} TailItemFacts(items: seq<StoredMemory>, x: MemoryId)
    ensures TailItem(items, x).Some? ==> TailItem(items, x).value in items && TailItem(items, x).value.id == x
    ensures TailItem(items, x).None? ==> forall m :: m in items ==> m.id != x
  {
    if items != [] {
      var k := |items| - 1;
      TailItemFacts(items[..k], x);
      assert forall m :: m in items <==> m in items[..k] || m == items[k];
    }
  }

  lemma TailItemIsUpsert(f: FactType, scan: TailScan, ft: nat, x: MemoryId)
    requires TailOf(f.tailItems, scan, ft) && Keyed(scan.upserts)
    ensures TailItem(f.tailItems, x) == if HasType(scan.upserts, x, ft) then Some(scan.upserts[x]) else None
  {
    TailItemFacts(f.tailItems, x);
    if TailItem(f.tailItems, x).Some? {
      TailItemIs(f, scan, ft, TailItem(f.tailItems, x).value);
    }
  }

  /** Loaded segment `k` is the first to give a row. */
  lemma {:induction false} OnlyRow(n: Snapshot, states: seq<SegmentState>, x: MemoryId, checked: bool, k: nat)
    requires k < |states|
    requires forall l :: 0 <= l < k ==> RowOf(n, states[l], x, checked).None?
    requires RowOf(n, states[k], x, checked).Some?
    ensures FirstRow(n, states, x, checked) == RowOf(n, states[k], x, checked)
  {
    var last := |states| - 1;
    assert forall l :: 0 <= l < last ==> states[..last][l] == states[l];
    if k < last {
      OnlyRow(n, states[..last], x, checked, k);
    } else {
      NoRow(n, states[..last], x, checked);
    }
  }

  lemma {:induction false} NoRow(n: Snapshot, states: seq<SegmentState>, x: MemoryId, checked: bool)
    requires forall l :: 0 <= l < |states| ==> RowOf(n, states[l], x, checked).None?
    ensures FirstRow(n, states, x, checked).None?
  {
    if states != [] {
      var last := |states| - 1;
      assert forall l :: 0 <= l < last ==> states[..last][l] == states[l];
      NoRow(n, states[..last], x, checked);
    }
  }

  /** Loaded segments stand in the order of the manifest's. */
  lemma SameOrder(f: FactType, segs: seq<Segment>, cursor: nat, ft: nat, k: nat, i: nat, l: nat, j: nat)
    requires SegsOk(segs, cursor) && Falling(f.segments) && k < |f.segments| && l < |f.segments| && k != l && i < |segs| && j < |segs|
    requires Holds(f.segments[k], segs[i], ft) && Holds(f.segments[l], segs[j], ft)
    ensures i != j && (l < k <==> j < i)
  {
    assert f.segments[k].seqHi == segs[i].seqHi && f.segments[l].seqHi == segs[j].seqHi;
    assert i < j ==> Shadows(segs[i], segs[j]);
    assert j < i ==> Shadows(segs[j], segs[i]);
  }

  lemma OlderCopySuperseded(segs: seq<Segment>, cursor: nat, i: nat, j: nat, x: MemoryId)
    requires SegsOk(segs, cursor) && i < j < |segs| && x in segs[i].docs && x in segs[j].docs
    ensures Lsm.Superseded(segs, x, segs[j].seqHi)
  {
    assert Shadows(segs[i], segs[j]);
    assert segs[i] in segs;
  }

  lemma RowIsDoc(st: SegmentState, seg: Segment, ft: nat, x: MemoryId)
    requires Holds(st, seg, ft)
    ensures x in st.payload <==> HasType(seg.docs, x, ft)
    ensures x in st.payload ==> st.payload[x] == Strip(seg.docs[x])
  {
    assert x in st.payload <==> x in st.pk;
  }

  /** Newer loaded segments have no row of a scanned id, older ones only superseded rows. */
  lemma OtherRows(n: Snapshot, f: FactType, segs: seq<Segment>, cursor: nat, ft: nat, k: nat, i: nat, l: nat, j: nat, x: MemoryId)
    requires SegsOk(segs, cursor) && Falling(f.segments) && k < |f.segments| && l < |f.segments| && l != k
    requires i < |segs| && Holds(f.segments[k], segs[i], ft) && CopyFound(segs, i, x)
    requires j < |segs| && Holds(f.segments[l], segs[j], ft)
    requires Lsm.Superseded(segs, x, segs[j].seqHi) ==> n.Superseded(x, segs[j].seqHi)
    ensures l < k ==> RowOf(n, f.segments[l], x, false).None?
    ensures RowOf(n, f.segments[l], x, true).None?
  {
    SameOrder(f, segs, cursor, ft, k, i, l, j);
    RowIsDoc(f.segments[l], segs[j], ft, x);
    if i < j && x in segs[j].docs {
      OlderCopySuperseded(segs, cursor, i, j, x);
    }
  }

  /** A scanned id has one row to show, which only the unchecked read gives when it is deleted. */
  lemma RowsOfScanned(n: Snapshot, f: FactType, segs: seq<Segment>, scan: TailScan, cursor: nat, head: nat, ft: nat, k: nat, i: nat,
                      m: StoredMemory)
    requires SnapshotOk(n, segs, scan, cursor, head) && TypeOk(f, segs, scan, ft) && k < |f.segments|
    requires i < |segs| && Holds(f.segments[k], segs[i], ft) && CopyFound(segs, i, m.id) && segs[i].docs[m.id] == m && m.memoryType == ft
    ensures FirstRow(n, f.segments, m.id, false) == Some(Strip(m))
    ensures FirstRow(n, f.segments, m.id, true) in {None, Some(Strip(m))}
  {
    var x := m.id;
    RowIsDoc(f.segments[k], segs[i], ft, x);
    var states := f.segments;
    forall l | 0 <= l < |states| && l != k
      ensures (l < k ==> RowOf(n, states[l], x, false).None?) && RowOf(n, states[l], x, true).None?
    {
      OthersGiveNone(n, f, segs, scan, cursor, head, ft, k, i, l, x);
    }
    assert RowOf(n, states[k], x, false) == Some(Strip(m));
    OnlyRow(n, states, x, false, k);
    if RowOf(n, states[k], x, true).Some? {
      OnlyRow(n, states, x, true, k);
    } else {
      NoRow(n, states, x, true);
    }
  }

  lemma OthersGiveNone(n: Snapshot, f: FactType, segs: seq<Segment>, scan: TailScan, cursor: nat, head: nat, ft: nat, k: nat, i: nat, l: nat,
                       x: MemoryId)
    requires SnapshotOk(n, segs, scan, cursor, head) && TypeOk(f, segs, scan, ft) && k < |f.segments| && l < |f.segments| && l != k
    requires i < |segs| && Holds(f.segments[k], segs[i], ft) && CopyFound(segs, i, x)
    ensures l < k ==> RowOf(n, f.segments[l], x, false).None?
    ensures RowOf(n, f.segments[l], x, true).None?
  {
    var j := HeldBy(f, segs, scan, ft, l);
    OtherRows(n, f, segs, cursor, ft, k, i, l, j, x);
  }

  /** A scanned winner that the tail does not hold carries its indexed copy, deleted or not: what the
      checked read leaves out, the unchecked one brings back. */
  lemma ScannedCarries(n: Snapshot, f: FactType, segs: seq<Segment>, scan: TailScan, cursor: nat, head: nat, ft: nat,
                       probes: seq<seq<nat>>, q: Filter, k: nat, m: StoredMemory)
    requires SnapshotOk(n, segs, scan, cursor, head) && TypeOk(f, segs, scan, ft) && ProbesOk(f, probes) && k < |f.segments|
    requires Scanned(n, f, probes, q, k, m)
    ensures Carried(n, f, m.id) == Some(if HasType(scan.upserts, m.id, ft) then scan.upserts[m.id] else Strip(m))
  {
    var i := ScannedIsLook(n, f, segs, scan, cursor, head, ft, probes, q, k, m);
    TailItemIsUpsert(f, scan, ft, m.id);
    RowsOfScanned(n, f, segs, scan, cursor, head, ft, k, i, m);
  }

  /** A hit is live when a point read without embeddings answers with what it carries. */
  ghost predicate LiveHit(segs: seq<Segment>, scan: TailScan, h: Hit) {
    Gives(segs, scan, h.id, h.memory)
  }

  ghost predicate Gives(segs: seq<Segment>, scan: TailScan, x: MemoryId, m: StoredMemory) {
    Answer(segs, scan, x).Some? && Strip(Answer(segs, scan, x).value) == Strip(m)
  }

  /** Where a winner can come from: the tail, or a scanned block. */
  ghost predicate Sourced(n: Snapshot, f: FactType, probes: seq<seq<nat>>, q: Filter, x: MemoryId)
    requires ProbesOk(f, probes)
  {
    || (exists m :: m in f.tailItems && m.id == x && q.Passes(m))
    || (exists k, m :: 0 <= k < |f.segments| && Scanned(n, f, probes, q, k, m) && m.id == x)
  }

  lemma FoundIsSourced(n: Snapshot, f: FactType, segs: seq<Segment>, scan: TailScan, ft: nat, probes: seq<seq<nat>>, q: Filter,
                       bounds: Bounds, dense: Scores, k: nat, s: Scored)
    requires TypeOk(f, segs, scan, ft) && ProbesOk(f, probes) && k >= 1 && s in Found(n, f, segs, probes, q, bounds, dense, k)
    ensures Sourced(n, f, probes, q, s.id)
  {
    TailScoresFacts(n, f.tailItems, q, dense);
    var tail, cs := TailScores(n, f.tailItems, q, dense), Cands(n, f, probes, q, bounds);
    if s !in tail {
      KeptAreCandidates(cs, k);
      var c :| c in Outside(KeptCands(cs, k), Ids(tail)) && s == True(c, TruthOf(segs, dense));
      CandidatesAre(n, f, segs, scan, ft, probes, q, bounds, c);
    }
  }

  /** What a sourced id carries, and when that is live. */
  lemma SourcedCarries(n: Snapshot, f: FactType, segs: seq<Segment>, scan: TailScan, cursor: nat, head: nat, ft: nat,
                       probes: seq<seq<nat>>, q: Filter, x: MemoryId)
    requires SnapshotOk(n, segs, scan, cursor, head) && TypeOk(f, segs, scan, ft) && ProbesOk(f, probes)
    requires Sourced(n, f, probes, q, x)
    ensures x !in n.tombstones && Carried(n, f, x).Some?
    ensures !HasType(scan.upserts, x, ft) ==> q.GroupsMatch(Carried(n, f, x).value.tags)
    ensures Gives(segs, scan, x, Carried(n, f, x).value) <==> HasType(scan.upserts, x, ft) || x !in Stale(segs, scan)
  {
    if HasType(scan.upserts, x, ft) {
      TailItemIsUpsert(f, scan, ft, x);
      Scanning.TailIsOwed(n, segs, scan, cursor, head, x);
    } else {
      var k, m := SourcedInSegment(n, f, scan, ft, probes, q, x);
      ScannedCarries(n, f, segs, scan, cursor, head, ft, probes, q, k, m);
      LiveIffNotStale(n, f, segs, scan, cursor, head, ft, probes, q, k, m);
      StaleDiffers(n, f, segs, scan, cursor, head, ft, m);
    }
  }

  lemma SourcedInSegment(n: Snapshot, f: FactType, scan: TailScan, ft: nat, probes: seq<seq<nat>>, q: Filter, x: MemoryId)
    returns (k: nat, m: StoredMemory)
    requires TailOf(f.tailItems, scan, ft) && ProbesOk(f, probes) && Sourced(n, f, probes, q, x) && !HasType(scan.upserts, x, ft)
    ensures k < |f.segments| && Scanned(n, f, probes, q, k, m) && m.id == x
  {
    forall t | t in f.tailItems ensures t.id != x {
      TailItemIs(f, scan, ft, t);
    }
    k, m :| 0 <= k < |f.segments| && Scanned(n, f, probes, q, k, m) && m.id == x;
  }

  /** An indexed copy that is not the answer differs from it in more than the embedding. */
  lemma StaleDiffers(n: Snapshot, f: FactType, segs: seq<Segment>, scan: TailScan, cursor: nat, head: nat, ft: nat, m: StoredMemory)
    requires SnapshotOk(n, segs, scan, cursor, head) && Look(segs, m.id) == Some(m) && m.writeSeq <= cursor
    ensures Answer(segs, scan, m.id) == Some(m) <==> Gives(segs, scan, m.id, m)
  {
    if m.id in scan.upserts {
      Scanning.TailIsOwed(n, segs, scan, cursor, head, m.id);
      assert scan.upserts[m.id].writeSeq > cursor;
    } else {
      ResolveIsLook(segs, cursor, m.id);
    }
  }

  lemma {:induction false} HitHasWinner(n: Snapshot, f: FactType, q: Filter, winners: seq<Scored>, h: Hit) returns (w: Scored)
    requires h in HitsOf(n, f, q, winners)
    ensures w in winners && Kept(n, f, q, w.id) && h.id == w.id && h.memory == Carried(n, f, w.id).value
  {
    var k := |winners| - 1;
    if h in HitsOf(n, f, q, winners[..k]) {
      w := HitHasWinner(n, f, q, winners[..k], h);
    } else {
      w := winners[k];
    }
  }

  lemma {:induction false} WinnerHasHit(n: Snapshot, f: FactType, q: Filter, winners: seq<Scored>, w: Scored) returns (h: Hit)
    requires w in winners && Kept(n, f, q, w.id)
    ensures h in HitsOf(n, f, q, winners) && h.id == w.id && h.memory == Carried(n, f, w.id).value
  {
    var k := |winners| - 1;
    if w in winners[..k] {
      h := WinnerHasHit(n, f, q, winners[..k], w);
    } else {
      assert w == winners[k];
      h := Hit(w.id, k, w.score, Carried(n, f, w.id).value);
    }
  }

  /** Every hit is a winner at its rank, with its score, carries what hydration gave it, and that passes the
      tag trees and is not deleted by id. */
  lemma {:induction false} HitsAreWinners(n: Snapshot, f: FactType, q: Filter, winners: seq<Scored>, h: Hit)
    requires h in HitsOf(n, f, q, winners)
    ensures h.rank < |winners| && winners[h.rank] == Scored(h.id, h.score) && Carried(n, f, h.id) == Some(h.memory)
    ensures h.id !in n.tombstones && forall g :: g in q.groups ==> g.Matches(h.memory.tags)
  {
    var k := |winners| - 1;
    if h in HitsOf(n, f, q, winners[..k]) { HitsAreWinners(n, f, q, winners[..k], h); }
  }

  /** A query returns live memories only if and only if no winner is stale, save those whose new version
      of the same type the tail holds: the hydration drops none of them. */
  lemma HitsAreLiveIffNoStaleWinner(n: Snapshot, f: FactType, segs: seq<Segment>, scan: TailScan, cursor: nat, head: nat, ft: nat,
                                    probes: seq<seq<nat>>, q: Filter, winners: seq<Scored>)
    requires SnapshotOk(n, segs, scan, cursor, head) && TypeOk(f, segs, scan, ft) && ProbesOk(f, probes)
    requires forall w :: w in winners ==> Sourced(n, f, probes, q, w.id)
    ensures (forall h :: h in HitsOf(n, f, q, winners) ==> LiveHit(segs, scan, h)) <==>
            (forall w :: w in winners ==> HasType(scan.upserts, w.id, ft) || w.id !in Stale(segs, scan))
  {
    if forall w :: w in winners ==> HasType(scan.upserts, w.id, ft) || w.id !in Stale(segs, scan) {
      forall h | h in HitsOf(n, f, q, winners) ensures LiveHit(segs, scan, h) {
        var w := HitHasWinner(n, f, q, winners, h);
        SourcedCarries(n, f, segs, scan, cursor, head, ft, probes, q, w.id);
      }
    } else {
      var w :| w in winners && !HasType(scan.upserts, w.id, ft) && w.id in Stale(segs, scan);
      SourcedCarries(n, f, segs, scan, cursor, head, ft, probes, q, w.id);
      var h := WinnerHasHit(n, f, q, winners, w);
      assert !LiveHit(segs, scan, h);
    }
  }

  // ---- The whole dense query -------------------------------------------------------------------------------

  /** Rank by rank, hit for hit, with live contents. */
  ghost predicate Presents(hits: seq<Hit>, out: seq<Scored>, segs: seq<Segment>, scan: TailScan) {
    && |hits| == |out|
    && forall i :: 0 <= i < |out| ==>
         hits[i].id == out[i].id && hits[i].rank == i && hits[i].score == out[i].score && LiveHit(segs, scan, hits[i])
  }

  lemma {:induction false} AllKept(n: Snapshot, f: FactType, q: Filter, winners: seq<Scored>)
    requires forall w :: w in winners ==> Kept(n, f, q, w.id)
    ensures |HitsOf(n, f, q, winners)| == |winners|
    ensures forall i {:trigger winners[i]} :: 0 <= i < |winners| ==>
              && Carried(n, f, winners[i].id).Some?
              && HitsOf(n, f, q, winners)[i] == Hit(winners[i].id, i, winners[i].score, Carried(n, f, winners[i].id).value)
  {
    if winners != [] {
      var k := |winners| - 1;
      assert winners[k] in winners && forall w :: w in winners[..k] ==> w in winners;
      AllKept(n, f, q, winners[..k]);
      assert HitsOf(n, f, q, winners) ==
             HitsOf(n, f, q, winners[..k]) + [Hit(winners[k].id, k, winners[k].score, Carried(n, f, winners[k].id).value)];
    }
  }

  lemma OwedIsKept(n: Snapshot, f: FactType, segs: seq<Segment>, scan: TailScan, cursor: nat, head: nat, ft: nat,
                   probes: seq<seq<nat>>, q: Filter, m: StoredMemory)
    requires SnapshotOk(n, segs, scan, cursor, head) && TypeOk(f, segs, scan, ft) && ProbesOk(f, probes)
    requires Owed(f, segs, scan, ft, probes, q, m)
    ensures Kept(n, f, q, m.id) && Strip(Carried(n, f, m.id).value) == Strip(m)
  {
    TailItemIsUpsert(f, scan, ft, m.id);
    if m in f.tailItems {
      TailItemIs(f, scan, ft, m);
    } else {
      NotInTail(f, segs, scan, ft, m);
      var k :| 0 <= k < |f.segments| && Probed(f, probes, k, m);
      OwedIsScanned(n, f, segs, scan, cursor, head, ft, probes, q, k, m);
      ScannedCarries(n, f, segs, scan, cursor, head, ft, probes, q, k, m);
      SourcedCarries(n, f, segs, scan, cursor, head, ft, probes, q, m.id);
    }
  }

  lemma RankedOwedArePresented(n: Snapshot, f: FactType, segs: seq<Segment>, scan: TailScan, cursor: nat, head: nat, ft: nat,
                               probes: seq<seq<nat>>, q: Filter, dense: Scores, out: seq<Scored>, depth: nat)
    requires SnapshotOk(n, segs, scan, cursor, head) && TypeOk(f, segs, scan, ft) && ProbesOk(f, probes)
    requires RanksOwed(out, f, segs, scan, ft, probes, q, dense, depth)
    ensures Presents(HitsOf(n, f, q, out), out, segs, scan)
  {
    var owed :| AreOwed(owed, f, segs, scan, ft, probes, q, dense) && IsTopK(out, owed, depth);
    forall w | w in out
      ensures Kept(n, f, q, w.id) && Gives(segs, scan, w.id, Carried(n, f, w.id).value)
    {
      var i :| 0 <= i < |out| && out[i] == w;
      assert w in owed;
      var m :| Owed(f, segs, scan, ft, probes, q, m) && w == Scored(m.id, dense(m));
      OwedIsKept(n, f, segs, scan, cursor, head, ft, probes, q, m);
    }
    AllKept(n, f, q, out);
    forall i | 0 <= i < |out| ensures LiveHit(segs, scan, HitsOf(n, f, q, out)[i]) {
      assert out[i] in out;
    }
  }

  /** Search and hydrate: the hits of what the search finds; and when the misplaced are harmless, the
      live memories it covers, ranked, each with its live contents. */
  method QueryDense(n: Snapshot, ft: nat, probes: seq<seq<nat>>, rows: seq<map<MemoryId, int>>, depth: nat, q: Filter, bounds: Bounds,
                    dense: Scores, ghost segs: seq<Segment>, ghost scan: TailScan, ghost cursor: nat, ghost head: nat)
    returns (hits: seq<Hit>)
    requires SnapshotOk(n, segs, scan, cursor, head)
    requires ft in n.perType ==> ProbesOk(n.perType[ft], probes) && |rows| == |probes|
    ensures ft !in n.perType || depth == 0 ==> hits == []
    ensures ft in n.perType && depth >= 1 && Reranks(Cands(n, n.perType[ft], probes, q, bounds), rows, depth, TruthOf(segs, dense)) ==>
              var f := n.perType[ft];
              var out := Top(Found(n, f, segs, probes, q, bounds, dense, depth), depth);
              && hits == HitsOf(n, f, q, out)
              && (Harmless(Cands(n, f, probes, q, bounds), depth, TailPassing(n, f, q), Stale(segs, scan)) ==>
                    RanksOwed(out, f, segs, scan, ft, probes, q, dense, depth) && Presents(hits, out, segs, scan))
  {
    if ft !in n.perType || depth == 0 {
      return [];
    }
    var f := n.perType[ft];
    var out := DenseArm(n, ft, probes, rows, depth, q, bounds, dense, segs, scan, cursor, head);
    TailPassingIs(n, f, q, dense);
    if RanksOwed(out, f, segs, scan, ft, probes, q, dense, depth) {
      RankedOwedArePresented(n, f, segs, scan, cursor, head, ft, probes, q, dense, out, depth);
    }
    hits := Hydrate(n, f, q, out);
  }

  /** Pick the clusters, search them, hydrate: the hits, as above, over the clusters picked. */
  method Query(n: Snapshot, ft: nat, rankings: seq<seq<nat>>, nprobe: nat, summaries: seq<seq<Summary.ClusterSummary>>,
               rows: seq<map<MemoryId, int>>, depth: nat, q: Filter, bounds: Bounds, dense: Scores,
               ghost segs: seq<Segment>, ghost scan: TailScan, ghost cursor: nat, ghost head: nat)
    returns (hits: seq<Hit>, probes: seq<seq<nat>>)
    requires SnapshotOk(n, segs, scan, cursor, head) && ft in n.perType && depth >= 1
    requires RankingsOk(n.perType[ft], rankings, summaries) && |rows| == |rankings|
    ensures ProbesOk(n.perType[ft], probes)
    ensures forall k :: 0 <= k < |probes| ==> probes[k] == Summary.SelectClusters(rankings[k], nprobe, summaries[k], q.tags, q.updated)
    ensures Reranks(Cands(n, n.perType[ft], probes, q, bounds), rows, depth, TruthOf(segs, dense)) ==>
              var f := n.perType[ft];
              var out := Top(Found(n, f, segs, probes, q, bounds, dense, depth), depth);
              && hits == HitsOf(n, f, q, out)
              && (Harmless(Cands(n, f, probes, q, bounds), depth, TailPassing(n, f, q), Stale(segs, scan)) ==>
                    RanksOwed(out, f, segs, scan, ft, probes, q, dense, depth) && Presents(hits, out, segs, scan))
  {
    probes := SelectProbes(n.perType[ft], rankings, nprobe, summaries, q);
    hits := QueryDense(n, ft, probes, rows, depth, q, bounds, dense, segs, scan, cursor, head);
  }

  // ---- A deleted memory that is returned ---------------------------------------------------------------------

  const OLD := StoredMemory(1, 1, ["a"], Timestamps(None, None, None, None, None), 0, {}, [], "", 0, 1)
  const LIVE := StoredMemory(2, 1, ["b"], Timestamps(None, None, None, None, None), 0, {}, [], "", 0, 1)
  const DELETE_A := PredicateDelete(2, Predicate([], [], ["a"], Tags.AnyStrict, None, None))
  const TWO_DOCS := Segment(0, 1, 1, map[1 := OLD, 2 := LIVE], SegmentTombstones({}, []))
  const TWO_LOADED := SegmentState(0, 1, [[OLD, LIVE]], map[1 := 0, 2 := 0], map[1 := OLD, 2 := LIVE])
  const ONE_DELETE := TailScan(map[], {}, map[], [DELETE_A])
  const AFTER_DELETE := Snapshot(map[1 := FactType([TWO_LOADED], [])], {}, map[], [DELETE_A], [], 2, 1)
  const NO_FILTER := Filter(TagFilter([], Tags.Any), [], Summary.UpdatedWindow(None, None))
  const TEN_OR_FIVE: Scores := (m: StoredMemory) => if m.id == 1 then 10 else 5
  const AT_ITS_SCORE: Bounds := (m: StoredMemory) => if m.id == 1 then Interval(10, 10, 10) else Interval(5, 5, 5)

  lemma DeleteIsOk()
    ensures SnapshotOk(AFTER_DELETE, [TWO_DOCS], ONE_DELETE, 1, 2)
    ensures TypeOk(AFTER_DELETE.perType[1], [TWO_DOCS], ONE_DELETE, 1) && ProbesOk(AFTER_DELETE.perType[1], [[0]])
  {
    TwoDocsOk();
    var f := FactType([TWO_LOADED], []);
    TypeIsOk(f);
    DocsAreTyped();
    AfterDeleteIs(f);
    OneTypeOk(AFTER_DELETE, [TWO_DOCS], ONE_DELETE, f, 1, 2);
  }

  lemma DocsAreTyped()
    ensures forall i, x :: 0 <= i < |[TWO_DOCS]| && x in [TWO_DOCS][i].docs ==> [TWO_DOCS][i].docs[x].memoryType == 1
  {
    assert [TWO_DOCS][0] == TWO_DOCS;
  }

  lemma AfterDeleteIs(f: FactType)
    requires f == FactType([TWO_LOADED], [])
    ensures AFTER_DELETE.perType[1] == f
    ensures AFTER_DELETE == Snapshot(map[1 := f], ONE_DELETE.tombstones, map[], ONE_DELETE.preds + AllPreds([TWO_DOCS]), AllPreds([TWO_DOCS]), 2, 1)
  {
    TwoDocsOk();
    assert [DELETE_A] + AllPreds([TWO_DOCS]) == [DELETE_A];
  }

  lemma OneTypeOk(n: Snapshot, segs: seq<Segment>, scan: TailScan, f: FactType, cursor: nat, head: nat)
    requires SegsOk(segs, cursor) && ScanOk(scan, cursor, head) && cursor <= head && TypeOk(f, segs, scan, 1)
    requires n == Snapshot(map[1 := f], scan.tombstones, map[], scan.preds + AllPreds(segs), AllPreds(segs), head, cursor)
    requires forall x, hi: nat :: !Lsm.Superseded(segs, x, hi)
    requires forall i, x :: 0 <= i < |segs| && x in segs[i].docs ==> segs[i].docs[x].memoryType == 1
    requires scan.upserts == map[]
    ensures SnapshotOk(n, segs, scan, cursor, head)
  {
    assert n.perType[1] == f && n.perType.Keys == {1};
    NoneSuperseded(n, segs);
    forall ft | ft in n.perType ensures TypeOk(n.perType[ft], segs, scan, ft) {
      assert ft == 1;
    }
  }

  lemma NoneSuperseded(n: Snapshot, segs: seq<Segment>)
    requires n.segSuperseded == map[] && forall x, hi: nat :: !Lsm.Superseded(segs, x, hi)
    ensures forall x, hi: nat :: (x in n.segSuperseded && n.segSuperseded[x] > hi) <==> Lsm.Superseded(segs, x, hi)
  {
  }

  lemma TwoDocsOk()
    ensures AllPreds([TWO_DOCS]) == [] && forall x, hi: nat :: !Lsm.Superseded([TWO_DOCS], x, hi)
    ensures SegsOk([TWO_DOCS], 1) && ScanOk(ONE_DELETE, 1, 2)
  {
    var segs := [TWO_DOCS];
    var none: seq<PredicateDelete> := [];
    assert segs[0] == TWO_DOCS && segs[1..] == [];
    assert AllPreds(segs[1..]) == none;
    assert none + none == none;
  }

  lemma TypeIsOk(f: FactType)
    requires f == FactType([TWO_LOADED], [])
    ensures TypeOk(f, [TWO_DOCS], ONE_DELETE, 1) && ProbesOk(f, [[0]])
  {
    LoadedHolds();
    var segs := [TWO_DOCS];
    assert segs[0] == TWO_DOCS && f.segments[0] == TWO_LOADED;
    assert Holds(f.segments[0], segs[0], 1);
    var probe: seq<nat> := [0];
    assert ProbeOk(TWO_LOADED, probe);
  }

  lemma LoadedHolds()
    ensures Holds(TWO_LOADED, TWO_DOCS, 1)
  {
    var members := [OLD, LIVE];
    assert members[0] == OLD && members[1] == LIVE;
    assert TWO_LOADED.clusters == [members];
    assert TWO_DOCS.docs[1] in members && TWO_DOCS.docs[2] in members;
  }

  lemma OldIsStale()
    ensures Stale([TWO_DOCS], ONE_DELETE) == {1}
    ensures Look([TWO_DOCS], 1) == Some(OLD) && Look([TWO_DOCS], 2) == Some(LIVE)
  {
    TwoDocsOk();
    var segs := [TWO_DOCS];
    var preds := ONE_DELETE.preds + AllPreds(segs);
    assert preds == [DELETE_A];
    OnlyOldKilled(preds);
    assert segs[0] == TWO_DOCS && segs[1..] == [];
    IdsOfTwo();
    assert Look(segs, 1) == Some(OLD) && Look(segs, 2) == Some(LIVE);
    forall x ensures x in Stale(segs, ONE_DELETE) <==> x == 1 {
    }
  }

  lemma IdsOfTwo()
    ensures IndexedIds([TWO_DOCS]) == {1, 2}
  {
    var segs := [TWO_DOCS];
    assert TWO_DOCS in segs && TWO_DOCS.docs.Keys == {1, 2};
    forall x ensures x in IndexedIds(segs) <==> x in {1, 2} {
      if x in {1, 2} {
        assert TWO_DOCS in segs && x in TWO_DOCS.docs;
      }
    }
  }

  lemma OnlyOldKilled(preds: seq<PredicateDelete>)
    requires preds == [DELETE_A]
    ensures KilledByAny(preds, OLD) && !KilledByAny(preds, LIVE)
  {
    assert "a" in OLD.tags && DELETE_A.Kills(OLD);
    assert LIVE.tags == ["b"] && !DELETE_A.Kills(LIVE);
    assert DELETE_A in preds;
  }

  lemma DeleteCands()
    requires ProbesOk(AFTER_DELETE.perType[1], [[0]])
    ensures Cands(AFTER_DELETE, AFTER_DELETE.perType[1], [[0]], NO_FILTER, AT_ITS_SCORE) == [[STALE, BEST]]
  {
    var block := [OLD, LIVE];
    var blocks := Blocks(TWO_LOADED, [0]);
    assert blocks == [block];
    assert block[..1] == [OLD] && [OLD][..0] == [] && blocks[..0] == [];
    assert BlockCands(AFTER_DELETE, 1, [OLD], NO_FILTER, AT_ITS_SCORE) == [STALE];
    assert BlockCands(AFTER_DELETE, 1, block, NO_FILTER, AT_ITS_SCORE) == [STALE, BEST];
    assert BlocksCands(AFTER_DELETE, 1, blocks, NO_FILTER, AT_ITS_SCORE) == [STALE, BEST];
  }

  /** What the search makes of two candidates of which the better is stale. */
  lemma StaleIsReturned(n: Snapshot, f: FactType, segs: seq<Segment>, scan: TailScan, probes: seq<seq<nat>>, q: Filter, bounds: Bounds,
                        dense: Scores, m: StoredMemory)
    requires SnapshotOk(n, segs, scan, 1, 2) && TypeOk(f, segs, scan, 1) && ProbesOk(f, probes) && f.tailItems == []
    requires Cands(n, f, probes, q, bounds) == [[STALE, BEST]] && Stale(segs, scan) == {1}
    requires TruthOf(segs, dense)(1) == 10 && TruthOf(segs, dense)(2) == 5
    requires Kept(n, f, q, 1) && Carried(n, f, 1) == Some(m)
    ensures HitsOf(n, f, q, Top(Found(n, f, segs, probes, q, bounds, dense, 1), 1)) == [Hit(1, 0, 10, m)]
    ensures RanksOwed([Scored(2, 5)], f, segs, scan, 1, probes, q, dense, 1)
  {
    DeletedCopyTakesThePlace(TruthOf(segs, dense));
    LiveTopRanksOwed(n, f, segs, scan, 1, 2, 1, probes, q, bounds, dense, [Scored(2, 5)], 1);
    var w := [Scored(1, 10)];
    assert w[..0] == [] && HitsOf(n, f, q, w[..0]) == [];
  }

  /** A memory deleted by a predicate in the tail: a point read finds nothing, the query returns it, in the
      place of the live one. */
  lemma DeletedMemoryIsReturned()
    ensures var n, segs, scan, f := AFTER_DELETE, [TWO_DOCS], ONE_DELETE, AFTER_DELETE.perType[1];
            && SnapshotOk(n, segs, scan, 1, 2) && ProbesOk(f, [[0]])
            && Answer(segs, scan, 1).None?
            && HitsOf(n, f, NO_FILTER, Top(Found(n, f, segs, [[0]], NO_FILTER, AT_ITS_SCORE, TEN_OR_FIVE, 1), 1)) == [Hit(1, 0, 10, OLD)]
            && RanksOwed([Scored(2, 5)], f, segs, scan, 1, [[0]], NO_FILTER, TEN_OR_FIVE, 1)
  {
    DeleteIsOk();
    OldIsStale();
    DeleteCands();
    OldIsCarried();
    OldIsGone();
    StaleIsReturned(AFTER_DELETE, AFTER_DELETE.perType[1], [TWO_DOCS], ONE_DELETE, [[0]], NO_FILTER, AT_ITS_SCORE, TEN_OR_FIVE, OLD);
  }

  lemma OldIsGone()
    ensures Answer([TWO_DOCS], ONE_DELETE, 1).None?
  {
    TwoDocsOk();
    OldIsStale();
    OnlyOldKilled(ONE_DELETE.preds);
    ResolveIsLook([TWO_DOCS], 1, 1);
  }

  lemma OldIsCarried()
    ensures Carried(AFTER_DELETE, AFTER_DELETE.perType[1], 1) == Some(OLD) && Kept(AFTER_DELETE, AFTER_DELETE.perType[1], NO_FILTER, 1)
  {
    var states := [TWO_LOADED];
    assert states[..0] == [];
    OnlyOldKilled(AFTER_DELETE.preds);
    assert AFTER_DELETE.Hidden(OLD);
    assert FirstRow(AFTER_DELETE, states, 1, true).None?;
    assert FirstRow(AFTER_DELETE, states, 1, false) == Some(OLD);
  }
}

/** The dense half of a query on a snapshot: score the tail, scan the probed blocks of every segment,
    and search (crates/mlake-index/src/query_node.rs:1456-1500, 1653-1692). */
module DenseQuery {
  import opened Tags
  import opened Memories
  import opened Wal
  import opened Lsm
  import opened QueryNode
  import opened VectorArm
  import Scanning
  import Summary

  /** Flat tag condition, tag trees and write-time window of a query. */
  datatype Filter = Filter(tags: TagFilter, groups: seq<TagPredicate>, updated: Summary.UpdatedWindow) {
    predicate GroupsMatch(memoryTags: seq<string>) {
      forall g <- groups :: g.Matches(memoryTags)
    }

    predicate Passes(m: StoredMemory) {
      tags.Matches(m.tags) && GroupsMatch(m.tags) && updated.Admits(m.timestamps.updatedAt)
    }
  }

  /** What the one-bit code of a stored embedding says about its score. */
  datatype Interval = Interval(est: int, lo: int, hi: int)

  type Bounds = StoredMemory -> Interval
  type Scores = StoredMemory -> int

  function CandOf(m: StoredMemory, bounds: Bounds): Cand {
    Cand(m.id, bounds(m).est, bounds(m).lo, bounds(m).hi)
  }

  // ---- Scoring the tail ------------------------------------------------------------------------

  function TailScores(n: Snapshot, items: seq<StoredMemory>, q: Filter, dense: Scores): seq<Scored> {
    if items == [] then []
    else
      var k := |items| - 1;
      TailScores(n, items[..k], q, dense) +
      if q.Passes(items[k]) && !n.Hidden(items[k]) then [Scored(items[k].id, dense(items[k]))] else []
  }

  method ScoreTail(n: Snapshot, items: seq<StoredMemory>, q: Filter, dense: Scores) returns (out: seq<Scored>)
    ensures out == TailScores(n, items, q, dense)
  {
    out := [];
    for i := 0 to |items|
      invariant out == TailScores(n, items[..i], q, dense)
    {
      assert items[..i + 1][..i] == items[..i];
      if q.Passes(items[i]) && !n.Hidden(items[i]) {
        out := out + [Scored(items[i].id, dense(items[i]))];
      }
    }
    assert items[..|items|] == items;
  }

  ghost predicate TailScored(n: Snapshot, items: seq<StoredMemory>, q: Filter, dense: Scores, s: Scored) {
    exists m :: m in items && q.Passes(m) && !n.Hidden(m) && s == Scored(m.id, dense(m))
  }

  lemma {:induction false} TailScoresFacts(n: Snapshot, items: seq<StoredMemory>, q: Filter, dense: Scores)
    requires DistinctIds(items)
    ensures Distinct(TailScores(n, items, q, dense))
    ensures forall s :: s in TailScores(n, items, q, dense) <==> TailScored(n, items, q, dense, s)
  {
    if items != [] {
      var k := |items| - 1;
      TailScoresFacts(n, items[..k], q, dense);
      var rest := TailScores(n, items[..k], q, dense);
      assert forall m :: m in items <==> m in items[..k] || m == items[k];
      forall i | 0 <= i < |rest| ensures rest[i].id != items[k].id {
        assert rest[i] in rest;
        var m :| m in items[..k] && rest[i].id == m.id;
        var j :| 0 <= j < k && items[..k][j] == m;
        assert items[j].id != items[k].id;
      }
    }
  }

  // ---- Scanning the probed blocks ----------------------------------------------------------------

  /** A member becomes a candidate unless it is superseded or filtered out. Nothing asks whether a
      predicate deletes it, or whether the tail writes its id. */
  predicate Admitted(n: Snapshot, hi: nat, q: Filter, m: StoredMemory) {
    !n.Superseded(m.id, hi) && q.Passes(m)
  }

  function BlockCands(n: Snapshot, hi: nat, block: seq<StoredMemory>, q: Filter, bounds: Bounds): seq<Cand> {
    if block == [] then []
    else
      var k := |block| - 1;
      BlockCands(n, hi, block[..k], q, bounds) + if Admitted(n, hi, q, block[k]) then [CandOf(block[k], bounds)] else []
  }

  function BlocksCands(n: Snapshot, hi: nat, blocks: seq<seq<StoredMemory>>, q: Filter, bounds: Bounds): seq<Cand> {
    if blocks == [] then []
    else
      var k := |blocks| - 1;
      BlocksCands(n, hi, blocks[..k], q, bounds) + BlockCands(n, hi, blocks[k], q, bounds)
  }

  method ScanBlocks(n: Snapshot, hi: nat, blocks: seq<seq<StoredMemory>>, q: Filter, bounds: Bounds) returns (cands: seq<Cand>)
    ensures cands == BlocksCands(n, hi, blocks, q, bounds)
  {
    cands := [];
    for b := 0 to |blocks|
      invariant cands == BlocksCands(n, hi, blocks[..b], q, bounds)
    {
      assert blocks[..b + 1][..b] == blocks[..b];
      var block := blocks[b];
      ghost var before := cands;
      for i := 0 to |block|
        invariant cands == before + BlockCands(n, hi, block[..i], q, bounds)
      {
        assert block[..i + 1][..i] == block[..i];
        if Admitted(n, hi, q, block[i]) {
          cands := cands + [CandOf(block[i], bounds)];
        }
      }
      assert block[..|block|] == block;
    }
    assert blocks[..|blocks|] == blocks;
  }

  lemma {:induction false} BlockFacts(n: Snapshot, hi: nat, block: seq<StoredMemory>, q: Filter, bounds: Bounds)
    requires DistinctIds(block)
    ensures DistinctCands(BlockCands(n, hi, block, q, bounds))
    ensures forall c :: c in BlockCands(n, hi, block, q, bounds) <==>
              exists m :: m in block && Admitted(n, hi, q, m) && c == CandOf(m, bounds)
  {
    if block != [] {
      var k := |block| - 1;
      BlockFacts(n, hi, block[..k], q, bounds);
      var rest := BlockCands(n, hi, block[..k], q, bounds);
      assert forall m :: m in block <==> m in block[..k] || m == block[k];
      forall i | 0 <= i < |rest| ensures rest[i].id != block[k].id {
        assert rest[i] in rest;
        var m :| m in block[..k] && rest[i] == CandOf(m, bounds);
        var j :| 0 <= j < k && block[..k][j] == m;
        assert block[j].id != block[k].id;
      }
    }
  }

  ghost predicate InBlocks(blocks: seq<seq<StoredMemory>>, m: StoredMemory) {
    exists b :: 0 <= b < |blocks| && m in blocks[b]
  }

  /** No id twice, within or across blocks. */
  ghost predicate BlocksApart(blocks: seq<seq<StoredMemory>>) {
    && (forall b :: 0 <= b < |blocks| ==> DistinctIds(blocks[b]))
    && (forall a, b, x, y :: 0 <= a < b < |blocks| && x in blocks[a] && y in blocks[b] ==> x.id != y.id)
  }

  lemma InBlocksSnoc(blocks: seq<seq<StoredMemory>>, m: StoredMemory)
    requires blocks != []
    ensures InBlocks(blocks, m) <==> InBlocks(blocks[..|blocks| - 1], m) || m in blocks[|blocks| - 1]
  {
    var k := |blocks| - 1;
    if InBlocks(blocks[..k], m) {
      var b :| 0 <= b < k && m in blocks[..k][b];
      assert m in blocks[b];
    }
    if InBlocks(blocks, m) {
      var b :| 0 <= b < |blocks| && m in blocks[b];
      if b < k { assert m in blocks[..k][b]; }
    }
  }

  lemma CandsConcat(a: seq<Cand>, b: seq<Cand>)
    requires DistinctCands(a) && DistinctCands(b) && forall c, d :: c in a && d in b ==> c.id != d.id
    ensures DistinctCands(a + b)
  {
    var s := a + b;
    forall i, j | 0 <= i < j < |s| ensures s[i].id != s[j].id {
      if i < |a| <= j { assert a[i] in a && b[j - |a|] in b; }
    }
  }

  lemma {:induction false} BlocksFacts(n: Snapshot, hi: nat, blocks: seq<seq<StoredMemory>>, q: Filter, bounds: Bounds)
    requires BlocksApart(blocks)
    ensures DistinctCands(BlocksCands(n, hi, blocks, q, bounds))
    ensures forall c :: c in BlocksCands(n, hi, blocks, q, bounds) <==>
              exists m :: InBlocks(blocks, m) && Admitted(n, hi, q, m) && c == CandOf(m, bounds)
  {
    if blocks != [] {
      var k := |blocks| - 1;
      var init := blocks[..k];
      BlocksApartInit(blocks);
      BlocksFacts(n, hi, init, q, bounds);
      BlockFacts(n, hi, blocks[k], q, bounds);
      forall m ensures InBlocks(blocks, m) <==> InBlocks(init, m) || m in blocks[k] { InBlocksSnoc(blocks, m); }
      var a, b := BlocksCands(n, hi, init, q, bounds), BlockCands(n, hi, blocks[k], q, bounds);
      forall c, d | c in a && d in b ensures c.id != d.id {
        var x :| InBlocks(init, x) && c == CandOf(x, bounds);
        var y :| y in blocks[k] && d == CandOf(y, bounds);
        InitApart(blocks, x, y);
      }
      CandsConcat(a, b);
    }
  }

  lemma BlocksApartInit(blocks: seq<seq<StoredMemory>>)
    requires blocks != [] && BlocksApart(blocks)
    ensures BlocksApart(blocks[..|blocks| - 1])
  {
    var init := blocks[..|blocks| - 1];
    assert forall b :: 0 <= b < |init| ==> init[b] == blocks[b];
  }

  lemma InitApart(blocks: seq<seq<StoredMemory>>, x: StoredMemory, y: StoredMemory)
    requires blocks != [] && BlocksApart(blocks) && InBlocks(blocks[..|blocks| - 1], x) && y in blocks[|blocks| - 1]
    ensures x.id != y.id
  {
    var k := |blocks| - 1;
    var b :| 0 <= b < k && x in blocks[..k][b];
    assert x in blocks[b];
  }

  // ---- The candidates of a snapshot ----------------------------------------------------------------

  /** One list of distinct cluster numbers for every loaded segment. */
  ghost predicate ProbesOk(f: FactType, probes: seq<seq<nat>>) {
    && |probes| == |f.segments|
    && forall k :: 0 <= k < |probes| ==> ProbeOk(f.segments[k], probes[k])
  }

  ghost predicate ProbeOk(st: SegmentState, probe: seq<nat>) {
    && (forall i :: 0 <= i < |probe| ==> probe[i] < |st.clusters|)
    && (forall i, j :: 0 <= i < j < |probe| ==> probe[i] != probe[j])
  }

  function Blocks(st: SegmentState, probe: seq<nat>): (r: seq<seq<StoredMemory>>)
    requires forall i :: 0 <= i < |probe| ==> probe[i] < |st.clusters|
    ensures |r| == |probe| && forall i :: 0 <= i < |probe| ==> r[i] == st.clusters[probe[i]]
  {
    seq(|probe|, i requires 0 <= i < |probe| => st.clusters[probe[i]])
  }

  ghost function CandsAt(n: Snapshot, f: FactType, probes: seq<seq<nat>>, q: Filter, bounds: Bounds, k: nat): seq<Cand>
    requires ProbesOk(f, probes) && k < |f.segments|
  {
    BlocksCands(n, f.segments[k].seqHi, Blocks(f.segments[k], probes[k]), q, bounds)
  }

  ghost function Cands(n: Snapshot, f: FactType, probes: seq<seq<nat>>, q: Filter, bounds: Bounds): (r: seq<seq<Cand>>)
    requires ProbesOk(f, probes)
    ensures |r| == |f.segments| && forall k :: 0 <= k < |r| ==> r[k] == CandsAt(n, f, probes, q, bounds, k)
  {
    seq(|f.segments|, k requires 0 <= k < |f.segments| => CandsAt(n, f, probes, q, bounds, k))
  }

  /** `m` is in a probed cluster of loaded segment `k`. */
  ghost predicate Probed(f: FactType, probes: seq<seq<nat>>, k: nat, m: StoredMemory)
    requires ProbesOk(f, probes) && k < |f.segments|
  {
    InBlocks(Blocks(f.segments[k], probes[k]), m)
  }

  ghost predicate Scanned(n: Snapshot, f: FactType, probes: seq<seq<nat>>, q: Filter, k: nat, m: StoredMemory)
    requires ProbesOk(f, probes) && k < |f.segments|
  {
    Probed(f, probes, k, m) && Admitted(n, f.segments[k].seqHi, q, m)
  }

  lemma ProbedIsDoc(f: FactType, segs: seq<Segment>, ft: nat, probes: seq<seq<nat>>, k: nat, i: nat, m: StoredMemory)
    requires ProbesOk(f, probes) && k < |f.segments| && i < |segs| && Holds(f.segments[k], segs[i], ft)
    requires Probed(f, probes, k, m)
    ensures HasType(segs[i].docs, m.id, ft) && segs[i].docs[m.id] == m
  {
    var b :| 0 <= b < |probes[k]| && m in Blocks(f.segments[k], probes[k])[b];
    MemberIsDoc(f.segments[k], segs[i], ft, probes[k][b], m);
  }

  lemma ProbedApart(st: SegmentState, seg: Segment, ft: nat, probe: seq<nat>)
    requires Holds(st, seg, ft) && ProbeOk(st, probe)
    ensures BlocksApart(Blocks(st, probe))
  {
    var blocks := Blocks(st, probe);
    forall a, b, x: StoredMemory, y: StoredMemory | 0 <= a < b < |blocks| && x in blocks[a] && y in blocks[b] ensures x.id != y.id {
      var i :| 0 <= i < |blocks[a]| && blocks[a][i] == x;
      var j :| 0 <= j < |blocks[b]| && blocks[b][j] == y;
      assert st.pk[x.id] == probe[a] && st.pk[y.id] == probe[b];
    }
  }

  lemma HeldBy(f: FactType, segs: seq<Segment>, scan: TailScan, ft: nat, k: nat) returns (i: nat)
    requires TypeOk(f, segs, scan, ft) && k < |f.segments|
    ensures i < |segs| && Holds(f.segments[k], segs[i], ft)
  {
    var st := f.segments[k];
    i :| 0 <= i < |segs| && Holds(st, segs[i], ft);
  }

  lemma CandsFacts(n: Snapshot, f: FactType, segs: seq<Segment>, scan: TailScan, ft: nat, probes: seq<seq<nat>>, q: Filter,
                   bounds: Bounds, k: nat)
    requires TypeOk(f, segs, scan, ft) && ProbesOk(f, probes) && k < |f.segments|
    ensures DistinctCands(CandsAt(n, f, probes, q, bounds, k))
    ensures forall c :: c in CandsAt(n, f, probes, q, bounds, k) <==>
              exists m :: Scanned(n, f, probes, q, k, m) && c == CandOf(m, bounds)
  {
    var i := HeldBy(f, segs, scan, ft, k);
    ProbedApart(f.segments[k], segs[i], ft, probes[k]);
    BlocksFacts(n, f.segments[k].seqHi, Blocks(f.segments[k], probes[k]), q, bounds);
  }

  /** A scanned member is the copy that lookup finds, of the queried type, not deleted by id. */
  lemma ScannedIsLook(n: Snapshot, f: FactType, segs: seq<Segment>, scan: TailScan, cursor: nat, head: nat, ft: nat,
                      probes: seq<seq<nat>>, q: Filter, k: nat, m: StoredMemory) returns (i: nat)
    requires SnapshotOk(n, segs, scan, cursor, head) && TypeOk(f, segs, scan, ft) && ProbesOk(f, probes) && k < |f.segments|
    requires Scanned(n, f, probes, q, k, m)
    ensures i < |segs| && Holds(f.segments[k], segs[i], ft) && CopyFound(segs, i, m.id) && segs[i].docs[m.id] == m
    ensures Look(segs, m.id) == Some(m) && m.memoryType == ft && m.id !in scan.tombstones && m.writeSeq <= cursor
  {
    i := HeldBy(f, segs, scan, ft, k);
    ProbedIsDoc(f, segs, ft, probes, k, i, m);
    UnsupersededIsLook(segs, cursor, i, m.id);
    assert SegmentOk(segs[i]);
  }

  /** The supersede test alone leaves one copy of each id. */
  lemma ScannedOnce(n: Snapshot, f: FactType, segs: seq<Segment>, scan: TailScan, cursor: nat, head: nat, ft: nat,
                    probes: seq<seq<nat>>, q: Filter, k: nat, l: nat, a: StoredMemory, b: StoredMemory)
    requires SnapshotOk(n, segs, scan, cursor, head) && TypeOk(f, segs, scan, ft) && ProbesOk(f, probes)
    requires k < |f.segments| && l < |f.segments| && a.id == b.id
    requires Scanned(n, f, probes, q, k, a) && Scanned(n, f, probes, q, l, b)
    ensures k == l && a == b
  {
    var i := ScannedIsLook(n, f, segs, scan, cursor, head, ft, probes, q, k, a);
    var j := ScannedIsLook(n, f, segs, scan, cursor, head, ft, probes, q, l, b);
    Scanning.SameCopy(segs, i, j, a.id);
    Scanning.SameState(f.segments, k, l);
  }

  lemma CandsOneCopy(n: Snapshot, f: FactType, segs: seq<Segment>, scan: TailScan, cursor: nat, head: nat, ft: nat,
                     probes: seq<seq<nat>>, q: Filter, bounds: Bounds)
    requires SnapshotOk(n, segs, scan, cursor, head) && TypeOk(f, segs, scan, ft) && ProbesOk(f, probes)
    ensures OneCopy(Cands(n, f, probes, q, bounds))
    ensures forall k :: 0 <= k < |f.segments| ==> DistinctCands(Cands(n, f, probes, q, bounds)[k])
  {
    var cs := Cands(n, f, probes, q, bounds);
    forall k | 0 <= k < |f.segments| ensures DistinctCands(cs[k]) {
      CandsFacts(n, f, segs, scan, ft, probes, q, bounds, k);
    }
    forall i, j, c: Cand, d: Cand | 0 <= i < |cs| && 0 <= j < |cs| && c in cs[i] && d in cs[j] && c.id == d.id ensures i == j && c == d {
      CandsFacts(n, f, segs, scan, ft, probes, q, bounds, i);
      CandsFacts(n, f, segs, scan, ft, probes, q, bounds, j);
      var a :| Scanned(n, f, probes, q, i, a) && c == CandOf(a, bounds);
      var b :| Scanned(n, f, probes, q, j, b) && d == CandOf(b, bounds);
      ScannedOnce(n, f, segs, scan, cursor, head, ft, probes, q, i, j, a, b);
    }
  }

  // ---- What is stale, and what is owed ---------------------------------------------------------------

  /** The ids the tail writes, and the ids whose indexed copy a predicate of the tail or of a segment
      overlay deletes. */
  function Stale(segs: seq<Segment>, scan: TailScan): set<MemoryId> {
    scan.upserts.Keys +
    set x | x in IndexedIds(segs) && Look(segs, x).Some? && KilledByAny(scan.preds + AllPreds(segs), Look(segs, x).value)
  }

  /** A live memory of the type that passes the filter, in the tail or in a probed cluster. */
  ghost predicate Owed(f: FactType, segs: seq<Segment>, scan: TailScan, ft: nat, probes: seq<seq<nat>>, q: Filter, m: StoredMemory)
    requires ProbesOk(f, probes)
  {
    && m.memoryType == ft && Answer(segs, scan, m.id) == Some(m)
    && q.tags.Matches(m.tags) && q.updated.Admits(m.timestamps.updatedAt) && (forall g :: g in q.groups ==> g.Matches(m.tags))
    && (m in f.tailItems || exists k :: 0 <= k < |f.segments| && Probed(f, probes, k, m))
  }

  /** A scanned member is live exactly when its id is not stale. */
  lemma LiveIffNotStale(n: Snapshot, f: FactType, segs: seq<Segment>, scan: TailScan, cursor: nat, head: nat, ft: nat,
                        probes: seq<seq<nat>>, q: Filter, k: nat, m: StoredMemory)
    requires SnapshotOk(n, segs, scan, cursor, head) && TypeOk(f, segs, scan, ft) && ProbesOk(f, probes) && k < |f.segments|
    requires Scanned(n, f, probes, q, k, m)
    ensures m.id !in Stale(segs, scan) <==> Answer(segs, scan, m.id) == Some(m)
    ensures Look(segs, m.id) == Some(m) && m.memoryType == ft && m.writeSeq <= cursor
  {
    var i := ScannedIsLook(n, f, segs, scan, cursor, head, ft, probes, q, k, m);
    assert segs[i] in segs && m.id in IndexedIds(segs);
    if m.id in scan.upserts {
      Scanning.TailIsOwed(n, segs, scan, cursor, head, m.id);
      assert scan.upserts[m.id].writeSeq > cursor;
    } else {
      Scanning.IndexedIsOwed(n, segs, scan, cursor, m);
    }
  }

  /** A live memory found in a probed cluster and not in the tail has been scanned. */
  lemma OwedIsScanned(n: Snapshot, f: FactType, segs: seq<Segment>, scan: TailScan, cursor: nat, head: nat, ft: nat,
                      probes: seq<seq<nat>>, q: Filter, k: nat, m: StoredMemory)
    requires SnapshotOk(n, segs, scan, cursor, head) && TypeOk(f, segs, scan, ft) && ProbesOk(f, probes) && k < |f.segments|
    requires Owed(f, segs, scan, ft, probes, q, m) && m !in f.tailItems && Probed(f, probes, k, m)
    ensures Scanned(n, f, probes, q, k, m)
  {
    NotInTail(f, segs, scan, ft, m);
    Scanning.IndexedIsOwed(n, segs, scan, cursor, m);
    var i := HeldBy(f, segs, scan, ft, k);
    ProbedIsDoc(f, segs, ft, probes, k, i, m);
    FoundWhereStored(segs, cursor, i, m);
    UnsupersededIsLook(segs, cursor, i, m.id);
  }

  lemma NotInTail(f: FactType, segs: seq<Segment>, scan: TailScan, ft: nat, m: StoredMemory)
    requires TailOf(f.tailItems, scan, ft) && m !in f.tailItems
    requires m.memoryType == ft && Answer(segs, scan, m.id) == Some(m)
    ensures m.id !in scan.upserts
  {
    assert m.id in scan.upserts ==> scan.upserts[m.id] == m;
    assert HasType(scan.upserts, m.id, ft) ==> m.id in scan.upserts;
  }

  /** An older segment cannot store the very memory that lookup finds in a newer one. */
  lemma FoundWhereStored(segs: seq<Segment>, cursor: nat, i: nat, m: StoredMemory)
    requires SegsOk(segs, cursor) && i < |segs| && m.id in segs[i].docs && segs[i].docs[m.id] == m
    requires Look(segs, m.id) == Some(m)
    ensures CopyFound(segs, i, m.id)
  {
    var j := LookFindsCopy(segs, m.id);
    assert SegmentOk(segs[i]);
    if j != i {
      assert false;
    }
  }

  /** The score of the copy lookup finds. */
  function TruthOf(segs: seq<Segment>, dense: Scores): MemoryId -> int {
    (x: MemoryId) => if Look(segs, x).Some? then dense(Look(segs, x).value) else 0
  }

  ghost predicate OwedScore(f: FactType, segs: seq<Segment>, scan: TailScan, ft: nat, probes: seq<seq<nat>>, q: Filter, dense: Scores, s: Scored)
    requires ProbesOk(f, probes)
  {
    exists m :: Owed(f, segs, scan, ft, probes, q, m) && s == Scored(m.id, dense(m))
  }

  lemma CandidatesAre(n: Snapshot, f: FactType, segs: seq<Segment>, scan: TailScan, ft: nat, probes: seq<seq<nat>>, q: Filter,
                      bounds: Bounds, c: Cand)
    requires TypeOk(f, segs, scan, ft) && ProbesOk(f, probes)
    ensures c in Candidates(Cands(n, f, probes, q, bounds)) <==>
            exists k, m :: 0 <= k < |f.segments| && Scanned(n, f, probes, q, k, m) && c == CandOf(m, bounds)
  {
    var cs := Cands(n, f, probes, q, bounds);
    if c in Candidates(cs) {
      var k :| 0 <= k < |cs| && c in cs[k];
      CandsFacts(n, f, segs, scan, ft, probes, q, bounds, k);
    }
    if k, m :| 0 <= k < |f.segments| && Scanned(n, f, probes, q, k, m) && c == CandOf(m, bounds) {
      CandsFacts(n, f, segs, scan, ft, probes, q, bounds, k);
      assert c in cs[k];
    }
  }

  /** The scores the search owes are those of the live memories it covers. */
  lemma LiveSetIsOwed(n: Snapshot, f: FactType, segs: seq<Segment>, scan: TailScan, cursor: nat, head: nat, ft: nat,
                      probes: seq<seq<nat>>, q: Filter, bounds: Bounds, dense: Scores, s: Scored)
    requires SnapshotOk(n, segs, scan, cursor, head) && TypeOk(f, segs, scan, ft) && ProbesOk(f, probes)
    ensures s in LiveSet(TailScores(n, f.tailItems, q, dense), Stale(segs, scan), Cands(n, f, probes, q, bounds), TruthOf(segs, dense)) <==>
            OwedScore(f, segs, scan, ft, probes, q, dense, s)
  {
    var tail, cs := TailScores(n, f.tailItems, q, dense), Cands(n, f, probes, q, bounds);
    var live, truth := Outside(Candidates(cs), Stale(segs, scan)), TruthOf(segs, dense);
    TailScoresFacts(n, f.tailItems, q, dense);
    assert s in LiveSet(tail, Stale(segs, scan), cs, truth) <==> TailScored(n, f.tailItems, q, dense, s) || s in Image(live, truth);
    if TailScored(n, f.tailItems, q, dense, s) {
      TailScoreIsOwed(n, f, segs, scan, cursor, head, ft, probes, q, dense, s);
    } else if s in Image(live, truth) {
      var c :| c in live && s == True(c, truth);
      CandidateIsOwed(n, f, segs, scan, cursor, head, ft, probes, q, bounds, dense, c);
    } else if OwedScore(f, segs, scan, ft, probes, q, dense, s) {
      OwedIsFound(n, f, segs, scan, cursor, head, ft, probes, q, bounds, dense, s);
    }
  }

  lemma OwedIsFound(n: Snapshot, f: FactType, segs: seq<Segment>, scan: TailScan, cursor: nat, head: nat, ft: nat,
                    probes: seq<seq<nat>>, q: Filter, bounds: Bounds, dense: Scores, s: Scored)
    requires SnapshotOk(n, segs, scan, cursor, head) && TypeOk(f, segs, scan, ft) && ProbesOk(f, probes)
    requires OwedScore(f, segs, scan, ft, probes, q, dense, s)
    ensures || TailScored(n, f.tailItems, q, dense, s)
            || s in Image(Outside(Candidates(Cands(n, f, probes, q, bounds)), Stale(segs, scan)), TruthOf(segs, dense))
  {
    var m :| Owed(f, segs, scan, ft, probes, q, m) && s == Scored(m.id, dense(m));
    if m in f.tailItems {
      TailItemIs(f, scan, ft, m);
      Scanning.TailIsOwed(n, segs, scan, cursor, head, m.id);
    } else {
      OwedIsCandidate(n, f, segs, scan, cursor, head, ft, probes, q, bounds, dense, m);
    }
  }

  lemma CandidateIsOwed(n: Snapshot, f: FactType, segs: seq<Segment>, scan: TailScan, cursor: nat, head: nat, ft: nat,
                        probes: seq<seq<nat>>, q: Filter, bounds: Bounds, dense: Scores, c: Cand)
    requires SnapshotOk(n, segs, scan, cursor, head) && TypeOk(f, segs, scan, ft) && ProbesOk(f, probes)
    requires c in Outside(Candidates(Cands(n, f, probes, q, bounds)), Stale(segs, scan))
    ensures OwedScore(f, segs, scan, ft, probes, q, dense, True(c, TruthOf(segs, dense)))
  {
    CandidatesAre(n, f, segs, scan, ft, probes, q, bounds, c);
    var k, m :| 0 <= k < |f.segments| && Scanned(n, f, probes, q, k, m) && c == CandOf(m, bounds);
    LiveIffNotStale(n, f, segs, scan, cursor, head, ft, probes, q, k, m);
    assert Owed(f, segs, scan, ft, probes, q, m);
  }

  lemma TailScoreIsOwed(n: Snapshot, f: FactType, segs: seq<Segment>, scan: TailScan, cursor: nat, head: nat, ft: nat,
                        probes: seq<seq<nat>>, q: Filter, dense: Scores, s: Scored)
    requires SnapshotOk(n, segs, scan, cursor, head) && TypeOk(f, segs, scan, ft) && ProbesOk(f, probes)
    requires TailScored(n, f.tailItems, q, dense, s)
    ensures OwedScore(f, segs, scan, ft, probes, q, dense, s)
  {
    var m :| m in f.tailItems && q.Passes(m) && !n.Hidden(m) && s == Scored(m.id, dense(m));
    TailItemIs(f, scan, ft, m);
    Scanning.TailIsOwed(n, segs, scan, cursor, head, m.id);
    assert Owed(f, segs, scan, ft, probes, q, m);
  }

  lemma TailItemIs(f: FactType, scan: TailScan, ft: nat, m: StoredMemory)
    requires TailOf(f.tailItems, scan, ft) && m in f.tailItems
    ensures HasType(scan.upserts, m.id, ft) && scan.upserts[m.id] == m
  {
    var i :| 0 <= i < |f.tailItems| && f.tailItems[i] == m;
  }

  lemma OwedIsCandidate(n: Snapshot, f: FactType, segs: seq<Segment>, scan: TailScan, cursor: nat, head: nat, ft: nat,
                        probes: seq<seq<nat>>, q: Filter, bounds: Bounds, dense: Scores, m: StoredMemory)
    requires SnapshotOk(n, segs, scan, cursor, head) && TypeOk(f, segs, scan, ft) && ProbesOk(f, probes)
    requires Owed(f, segs, scan, ft, probes, q, m) && m !in f.tailItems
    ensures Scored(m.id, dense(m)) in
            Image(Outside(Candidates(Cands(n, f, probes, q, bounds)), Stale(segs, scan)), TruthOf(segs, dense))
  {
    var k :| 0 <= k < |f.segments| && Probed(f, probes, k, m);
    OwedIsScanned(n, f, segs, scan, cursor, head, ft, probes, q, k, m);
    LiveIffNotStale(n, f, segs, scan, cursor, head, ft, probes, q, k, m);
    var c := CandOf(m, bounds);
    CandidatesAre(n, f, segs, scan, ft, probes, q, bounds, c);
    assert c in Outside(Candidates(Cands(n, f, probes, q, bounds)), Stale(segs, scan));
    assert True(c, TruthOf(segs, dense)) == Scored(m.id, dense(m));
  }

  /** With every cluster probed nothing live is missed. */
  lemma FullProbeCoversAll(f: FactType, segs: seq<Segment>, scan: TailScan, cursor: nat, ft: nat, probes: seq<seq<nat>>,
                           q: Filter, m: StoredMemory)
    requires SegsOk(segs, cursor) && TypeOk(f, segs, scan, ft) && ProbesOk(f, probes)
    requires forall k :: 0 <= k < |f.segments| ==> FullProbe(f.segments[k], probes[k])
    ensures Owed(f, segs, scan, ft, probes, q, m) <==>
            m.memoryType == ft && q.Passes(m) && Answer(segs, scan, m.id) == Some(m)
  {
    if m.memoryType == ft && q.Passes(m) && Answer(segs, scan, m.id) == Some(m) && m !in f.tailItems {
      LiveIsIndexed(f, segs, scan, cursor, ft, m);
      var k, c := InSomeCluster(f, segs, scan, cursor, ft, m);
      ClusterIsProbed(f, probes, k, c, m);
    }
  }

  ghost predicate FullProbe(st: SegmentState, probe: seq<nat>) {
    forall c :: 0 <= c < |st.clusters| ==> c in probe
  }

  lemma ClusterIsProbed(f: FactType, probes: seq<seq<nat>>, k: nat, c: nat, m: StoredMemory)
    requires ProbesOk(f, probes) && k < |f.segments| && FullProbe(f.segments[k], probes[k])
    requires c < |f.segments[k].clusters| && m in f.segments[k].clusters[c]
    ensures Probed(f, probes, k, m)
  {
    var st, probe := f.segments[k], probes[k];
    assert c in probe;
    var b :| 0 <= b < |probe| && probe[b] == c;
    assert m in Blocks(st, probe)[b];
  }

  lemma LiveIsIndexed(f: FactType, segs: seq<Segment>, scan: TailScan, cursor: nat, ft: nat, m: StoredMemory)
    requires SegsOk(segs, cursor) && TailOf(f.tailItems, scan, ft) && m !in f.tailItems
    requires m.memoryType == ft && Answer(segs, scan, m.id) == Some(m)
    ensures Look(segs, m.id) == Some(m)
  {
    NotInTail(f, segs, scan, ft, m);
    ResolveIsLook(segs, cursor, m.id);
  }

  lemma InSomeCluster(f: FactType, segs: seq<Segment>, scan: TailScan, cursor: nat, ft: nat, m: StoredMemory) returns (k: nat, c: nat)
    requires SegsOk(segs, cursor) && TypeOk(f, segs, scan, ft) && m.memoryType == ft && Look(segs, m.id) == Some(m)
    ensures k < |f.segments| && c < |f.segments[k].clusters| && m in f.segments[k].clusters[c]
  {
    var i := LookFindsCopy(segs, m.id);
    k := Scanning.HeldSomewhere(f, segs, scan, ft, i, m.id);
    c := f.segments[k].pk[m.id];
  }

  // ---- Choosing what to probe ---------------------------------------------------------------------------

  /** For every loaded segment its clusters by distance, each once, and what is known of them. */
  ghost predicate RankingsOk(f: FactType, rankings: seq<seq<nat>>, summaries: seq<seq<Summary.ClusterSummary>>) {
    && |rankings| == |f.segments| == |summaries|
    && forall k :: 0 <= k < |f.segments| ==> Summary.DistinctNats(rankings[k]) && InRange(rankings[k], |f.segments[k].clusters|)
  }

  ghost predicate InRange(ranking: seq<nat>, count: nat) {
    forall c :: c in ranking ==> c < count
  }

  /** Picks the clusters of every segment; whatever the filter, the picks are proper probes. */
  method SelectProbes(f: FactType, rankings: seq<seq<nat>>, nprobe: nat, summaries: seq<seq<Summary.ClusterSummary>>, q: Filter)
    returns (probes: seq<seq<nat>>)
    requires RankingsOk(f, rankings, summaries)
    ensures ProbesOk(f, probes)
    ensures forall k :: 0 <= k < |probes| ==> probes[k] == Summary.SelectClusters(rankings[k], nprobe, summaries[k], q.tags, q.updated)
  {
    probes := [];
    for k := 0 to |f.segments|
      invariant |probes| == k
      invariant forall i :: 0 <= i < k ==> probes[i] == Summary.SelectClusters(rankings[i], nprobe, summaries[i], q.tags, q.updated)
    {
      probes := probes + [Summary.SelectClusters(rankings[k], nprobe, summaries[k], q.tags, q.updated)];
    }
    forall k | 0 <= k < |probes| ensures ProbeOk(f.segments[k], probes[k]) {
      Summary.SelectedAreDistinct(rankings[k], nprobe, summaries[k], q.tags, q.updated);
      assert forall i :: 0 <= i < |probes[k]| ==> probes[k][i] in rankings[k];
    }
  }

  /** Every cluster is ranked and summarized, and the cap cuts nothing. */
  ghost predicate FilterDecides(st: SegmentState, ranking: seq<nat>, nprobe: nat, summaries: seq<Summary.ClusterSummary>, q: Filter) {
    && |summaries| == |st.clusters|
    && (forall c :: 0 <= c < |st.clusters| ==> c in ranking && Summary.Summarizes(summaries[c], st.clusters[c]))
    && |Summary.Admissible(ranking, summaries, q.tags, q.updated)| <= Summary.Cap(nprobe)
  }

  /** A filtered query whose cap does not bind misses no live memory that passes. */
  lemma FilteredProbeCoversAll(f: FactType, segs: seq<Segment>, scan: TailScan, cursor: nat, ft: nat, rankings: seq<seq<nat>>,
                               nprobe: nat, summaries: seq<seq<Summary.ClusterSummary>>, probes: seq<seq<nat>>, q: Filter, m: StoredMemory)
    requires SegsOk(segs, cursor) && TypeOk(f, segs, scan, ft) && ProbesOk(f, probes) && RankingsOk(f, rankings, summaries)
    requires !(q.tags.IsNoop() && q.updated.IsNoop())
    requires forall k :: 0 <= k < |f.segments| ==>
               && FilterDecides(f.segments[k], rankings[k], nprobe, summaries[k], q)
               && probes[k] == Summary.SelectClusters(rankings[k], nprobe, summaries[k], q.tags, q.updated)
    ensures Owed(f, segs, scan, ft, probes, q, m) <==>
            m.memoryType == ft && q.Passes(m) && Answer(segs, scan, m.id) == Some(m)
  {
    if m.memoryType == ft && q.Passes(m) && Answer(segs, scan, m.id) == Some(m) && m !in f.tailItems {
      LiveIsIndexed(f, segs, scan, cursor, ft, m);
      var k, c := InSomeCluster(f, segs, scan, cursor, ft, m);
      PassingIsProbed(f, rankings, nprobe, summaries, probes, q, k, c, m);
    }
  }

  lemma PassingIsProbed(f: FactType, rankings: seq<seq<nat>>, nprobe: nat, summaries: seq<seq<Summary.ClusterSummary>>,
                        probes: seq<seq<nat>>, q: Filter, k: nat, c: nat, m: StoredMemory)
    requires ProbesOk(f, probes) && |rankings| == |f.segments| == |summaries| && k < |f.segments|
    requires !(q.tags.IsNoop() && q.updated.IsNoop()) && FilterDecides(f.segments[k], rankings[k], nprobe, summaries[k], q)
    requires probes[k] == Summary.SelectClusters(rankings[k], nprobe, summaries[k], q.tags, q.updated)
    requires c < |f.segments[k].clusters| && m in f.segments[k].clusters[c] && q.Passes(m)
    ensures Probed(f, probes, k, m)
  {
    var st, probe := f.segments[k], probes[k];
    Summary.FilteredProbeMissesNothing(rankings[k], nprobe, summaries[k], st.clusters, q.tags, q.updated, c, m);
    var b :| 0 <= b < |probe| && probe[b] == c;
    assert m in Blocks(st, probe)[b];
  }

  // ---- The dense arm ------------------------------------------------------------------------------------

  lemma TailIdsWritten(n: Snapshot, f: FactType, segs: seq<Segment>, scan: TailScan, ft: nat, q: Filter, dense: Scores)
    requires TailOf(f.tailItems, scan, ft)
    ensures Distinct(TailScores(n, f.tailItems, q, dense))
    ensures Ids(TailScores(n, f.tailItems, q, dense)) <= Stale(segs, scan)
  {
    TailScoresFacts(n, f.tailItems, q, dense);
    forall s | s in TailScores(n, f.tailItems, q, dense) ensures s.id in scan.upserts {
      var m :| m in f.tailItems && s.id == m.id;
      TailItemIs(f, scan, ft, m);
    }
  }

  /** Intervals hold the scores of the indexed copies, contenders have rerank rows, and no cap binds. */
  ghost predicate Reranks(cands: seq<seq<Cand>>, rows: seq<map<MemoryId, int>>, depth: nat, truth: MemoryId -> int)
    requires depth >= 1 && |rows| == |cands|
  {
    forall k :: 0 <= k < |cands| ==> Searchable(cands[k], rows[k], depth, truth)
  }

  /** The scores of everything owed, ranked, cut at the depth. */
  ghost predicate RanksOwed(out: seq<Scored>, f: FactType, segs: seq<Segment>, scan: TailScan, ft: nat, probes: seq<seq<nat>>, q: Filter,
                            dense: Scores, depth: nat)
    requires ProbesOk(f, probes)
  {
    exists owed :: AreOwed(owed, f, segs, scan, ft, probes, q, dense) && IsTopK(out, owed, depth)
  }

  ghost predicate AreOwed(owed: set<Scored>, f: FactType, segs: seq<Segment>, scan: TailScan, ft: nat, probes: seq<seq<nat>>, q: Filter,
                          dense: Scores)
    requires ProbesOk(f, probes)
  {
    forall s :: s in owed <==> OwedScore(f, segs, scan, ft, probes, q, dense, s)
  }

  lemma LiveTopRanksOwed(n: Snapshot, f: FactType, segs: seq<Segment>, scan: TailScan, cursor: nat, head: nat, ft: nat,
                         probes: seq<seq<nat>>, q: Filter, bounds: Bounds, dense: Scores, out: seq<Scored>, depth: nat)
    requires SnapshotOk(n, segs, scan, cursor, head) && TypeOk(f, segs, scan, ft) && ProbesOk(f, probes)
    ensures RanksOwed(out, f, segs, scan, ft, probes, q, dense, depth) <==>
            out == Top(LiveSet(TailScores(n, f.tailItems, q, dense), Stale(segs, scan), Cands(n, f, probes, q, bounds), TruthOf(segs, dense)), depth)
  {
    var live := LiveSet(TailScores(n, f.tailItems, q, dense), Stale(segs, scan), Cands(n, f, probes, q, bounds), TruthOf(segs, dense));
    forall s ensures s in live <==> OwedScore(f, segs, scan, ft, probes, q, dense, s) {
      LiveSetIsOwed(n, f, segs, scan, cursor, head, ft, probes, q, bounds, dense, s);
    }
    TopRanksOwed(out, live, f, segs, scan, ft, probes, q, dense, depth);
  }

  lemma TopRanksOwed(out: seq<Scored>, live: set<Scored>, f: FactType, segs: seq<Segment>, scan: TailScan, ft: nat, probes: seq<seq<nat>>,
                     q: Filter, dense: Scores, depth: nat)
    requires ProbesOk(f, probes) && AreOwed(live, f, segs, scan, ft, probes, q, dense)
    ensures RanksOwed(out, f, segs, scan, ft, probes, q, dense, depth) <==> out == Top(live, depth)
  {
    if RanksOwed(out, f, segs, scan, ft, probes, q, dense, depth) {
      var owed :| AreOwed(owed, f, segs, scan, ft, probes, q, dense) && IsTopK(out, owed, depth);
      assert owed == live;
      TopKUnique(out, Top(live, depth), live, depth);
    }
  }

  /** Score the tail, scan every segment's probed blocks, search. The outcome is the top-k of what that
      finds, and of the live memories themselves when what is misplaced is harmless. */
  method DenseArm(n: Snapshot, ft: nat, probes: seq<seq<nat>>, rows: seq<map<MemoryId, int>>, depth: nat, q: Filter, bounds: Bounds,
                  dense: Scores, ghost segs: seq<Segment>, ghost scan: TailScan, ghost cursor: nat, ghost head: nat)
    returns (out: seq<Scored>)
    requires SnapshotOk(n, segs, scan, cursor, head) && ft in n.perType && depth >= 1
    requires ProbesOk(n.perType[ft], probes) && |rows| == |probes|
    ensures Strict(out) && |out| <= depth
    ensures var f := n.perType[ft];
            var tail, cands := TailScores(n, f.tailItems, q, dense), Cands(n, f, probes, q, bounds);
            Reranks(cands, rows, depth, TruthOf(segs, dense)) ==>
              && out == Top(FoundSet(tail, cands, depth, TruthOf(segs, dense)), depth)
              && (Harmless(cands, depth, Ids(tail), Stale(segs, scan)) ==> RanksOwed(out, f, segs, scan, ft, probes, q, dense, depth))
  {
    var f := n.perType[ft];
    var tail := ScoreTail(n, f.tailItems, q, dense);
    var cands := ScanSegments(n, f, probes, q, bounds);
    TailIdsWritten(n, f, segs, scan, ft, q, dense);
    CandsOneCopy(n, f, segs, scan, cursor, head, ft, probes, q, bounds);
    out := Search(tail, cands, rows, depth, Stale(segs, scan), TruthOf(segs, dense));
    LiveTopRanksOwed(n, f, segs, scan, cursor, head, ft, probes, q, bounds, dense, out, depth);
  }

  method ScanSegments(n: Snapshot, f: FactType, probes: seq<seq<nat>>, q: Filter, bounds: Bounds) returns (cands: seq<seq<Cand>>)
    requires ProbesOk(f, probes)
    ensures cands == Cands(n, f, probes, q, bounds)
  {
    cands := [];
    for k := 0 to |f.segments|
      invariant |cands| == k && forall i :: 0 <= i < k ==> cands[i] == CandsAt(n, f, probes, q, bounds, i)
    {
      assert ProbeOk(f.segments[k], probes[k]);
      var found := ScanBlocks(n, f.segments[k].seqHi, Blocks(f.segments[k], probes[k]), q, bounds);
      cands := cands + [found];
    }
  }

  /** The search, where ids repeat only between tail and segments. */
  method Search(tail: seq<Scored>, cands: seq<seq<Cand>>, rows: seq<map<MemoryId, int>>, depth: nat, ghost stale: set<MemoryId>,
                ghost truth: MemoryId -> int)
    returns (out: seq<Scored>)
    requires depth >= 1 && |rows| == |cands| && Ids(tail) <= stale && Distinct(tail) && OneCopy(cands)
    requires forall k :: 0 <= k < |cands| ==> DistinctCands(cands[k])
    ensures Strict(out) && |out| <= depth
    ensures Reranks(cands, rows, depth, truth) ==>
              && out == Top(FoundSet(tail, cands, depth, truth), depth)
              && (Harmless(cands, depth, Ids(tail), stale) ==> out == Top(LiveSet(tail, stale, cands, truth), depth))
  {
    out := VectorSearch(tail, cands, rows, depth, stale, truth);
    if Reranks(cands, rows, depth, truth) {
      assert VectorArm.Sound(tail, cands, rows, depth, truth);
    }
  }

  /** Scores that stay inside the intervals of everything scanned. */
  ghost predicate Fits(n: Snapshot, f: FactType, probes: seq<seq<nat>>, q: Filter, bounds: Bounds, dense: Scores)
    requires ProbesOk(f, probes)
  {
    forall k, m :: 0 <= k < |f.segments| && Scanned(n, f, probes, q, k, m) ==> bounds(m).lo <= dense(m) <= bounds(m).hi
  }

  lemma FitsIsWithin(n: Snapshot, f: FactType, segs: seq<Segment>, scan: TailScan, cursor: nat, head: nat, ft: nat,
                     probes: seq<seq<nat>>, q: Filter, bounds: Bounds, dense: Scores)
    requires SnapshotOk(n, segs, scan, cursor, head) && TypeOk(f, segs, scan, ft) && ProbesOk(f, probes)
    requires Fits(n, f, probes, q, bounds, dense)
    ensures Within(Cands(n, f, probes, q, bounds), TruthOf(segs, dense))
  {
    forall c | c in Candidates(Cands(n, f, probes, q, bounds)) ensures c.lo <= TruthOf(segs, dense)(c.id) <= c.hi {
      CandidatesAre(n, f, segs, scan, ft, probes, q, bounds, c);
      var k, m :| 0 <= k < |f.segments| && Scanned(n, f, probes, q, k, m) && c == CandOf(m, bounds);
      LiveIffNotStale(n, f, segs, scan, cursor, head, ft, probes, q, k, m);
    }
  }

  /** What the search ranks under given scores. */
  ghost function Found(n: Snapshot, f: FactType, segs: seq<Segment>, probes: seq<seq<nat>>, q: Filter, bounds: Bounds, dense: Scores, k: nat)
    : set<Scored>
    requires ProbesOk(f, probes) && k >= 1
  {
    FoundSet(TailScores(n, f.tailItems, q, dense), Cands(n, f, probes, q, bounds), k, TruthOf(segs, dense))
  }

  /** The tail's ids that pass the filter. */
  ghost function TailPassing(n: Snapshot, f: FactType, q: Filter): set<MemoryId> {
    Ids(TailScores(n, f.tailItems, q, m => 0))
  }

  lemma TailPassingIs(n: Snapshot, f: FactType, q: Filter, dense: Scores)
    requires DistinctIds(f.tailItems)
    ensures Ids(TailScores(n, f.tailItems, q, dense)) == TailPassing(n, f, q)
  {
    var zero: Scores := m => 0;
    TailScoresFacts(n, f.tailItems, q, dense);
    TailScoresFacts(n, f.tailItems, q, zero);
    forall x | x in Ids(TailScores(n, f.tailItems, q, dense)) ensures x in TailPassing(n, f, q) {
      var s :| s in TailScores(n, f.tailItems, q, dense) && s.id == x;
      var m :| m in f.tailItems && q.Passes(m) && !n.Hidden(m) && s == Scored(m.id, dense(m));
      assert TailScored(n, f.tailItems, q, zero, Scored(m.id, 0));
      assert Scored(m.id, 0) in TailScores(n, f.tailItems, q, zero);
    }
    forall x | x in TailPassing(n, f, q) ensures x in Ids(TailScores(n, f.tailItems, q, dense)) {
      var s :| s in TailScores(n, f.tailItems, q, zero) && s.id == x;
      var m :| m in f.tailItems && q.Passes(m) && !n.Hidden(m) && s == Scored(m.id, zero(m));
      assert TailScored(n, f.tailItems, q, dense, Scored(m.id, dense(m)));
      assert Scored(m.id, dense(m)) in TailScores(n, f.tailItems, q, dense);
    }
  }

  // ---- When the arm is exact for all scores ---------------------------------------------------------------

  lemma ImagesAgree(s: set<Cand>, truth: MemoryId -> int, truth': MemoryId -> int)
    requires forall c :: c in s ==> truth(c.id) == truth'(c.id)
    ensures Image(s, truth) == Image(s, truth')
  {
  }

  /** Only the members of the tail and the true scores of candidates matter. */
  lemma SetsAgree(tail: seq<Scored>, tail': seq<Scored>, cands: seq<seq<Cand>>, k: nat, stale: set<MemoryId>, truth: MemoryId -> int,
                  truth': MemoryId -> int)
    requires k >= 1 && Elements(tail) == Elements(tail') && forall c :: c in Candidates(cands) ==> truth(c.id) == truth'(c.id)
    ensures FoundSet(tail, cands, k, truth) == FoundSet(tail', cands, k, truth')
    ensures LiveSet(tail, stale, cands, truth) == LiveSet(tail', stale, cands, truth')
  {
    forall s ensures s in tail <==> s in tail' {
      assert s in Elements(tail) <==> s in Elements(tail');
    }
    assert Ids(tail) == Ids(tail');
    KeptAreCandidates(cands, k);
    ImagesAgree(Outside(KeptCands(cands, k), Ids(tail)), truth, truth');
    ImagesAgree(Outside(Candidates(cands), stale), truth, truth');
  }

  ghost function ScoreIn(tail: seq<Scored>, x: MemoryId): int {
    if exists s :: s in tail && s.id == x then var s :| s in tail && s.id == x; s.score else 0
  }

  lemma ScoreInIs(tail: seq<Scored>, s: Scored)
    requires Distinct(tail) && s in tail
    ensures ScoreIn(tail, s.id) == s.score
  {
    var t :| t in tail && t.id == s.id && ScoreIn(tail, s.id) == t.score;
    var i :| 0 <= i < |tail| && tail[i] == s;
    var j :| 0 <= j < |tail| && tail[j] == t;
  }

  /** Tail versions score as the tail says, everything else by its id. */
  ghost function Mixed(scan: TailScan, tail: seq<Scored>, truth: MemoryId -> int): Scores {
    (m: StoredMemory) => if m.id in scan.upserts && scan.upserts[m.id] == m then ScoreIn(tail, m.id) else truth(m.id)
  }

  lemma MixedTail(n: Snapshot, f: FactType, scan: TailScan, ft: nat, q: Filter, tail: seq<Scored>, truth: MemoryId -> int)
    requires TailOf(f.tailItems, scan, ft) && Distinct(tail) && Ids(tail) == TailPassing(n, f, q)
    ensures Elements(TailScores(n, f.tailItems, q, Mixed(scan, tail, truth))) == Elements(tail)
  {
    var dense := Mixed(scan, tail, truth);
    var own := TailScores(n, f.tailItems, q, dense);
    TailScoresFacts(n, f.tailItems, q, dense);
    TailPassingIs(n, f, q, dense);
    forall s | s in own ensures s in tail {
      assert s.id in Ids(own);
      var t :| t in tail && t.id == s.id;
      MixedScore(n, f, scan, ft, q, tail, truth, s);
      ScoreInIs(tail, t);
    }
    forall t | t in tail ensures t in own {
      assert t.id in Ids(tail);
      var s :| s in own && s.id == t.id;
      MixedScore(n, f, scan, ft, q, tail, truth, s);
      ScoreInIs(tail, t);
    }
  }

  lemma MixedScore(n: Snapshot, f: FactType, scan: TailScan, ft: nat, q: Filter, tail: seq<Scored>, truth: MemoryId -> int, s: Scored)
    requires TailOf(f.tailItems, scan, ft) && TailScored(n, f.tailItems, q, Mixed(scan, tail, truth), s)
    ensures s.score == ScoreIn(tail, s.id)
  {
    var m :| m in f.tailItems && q.Passes(m) && !n.Hidden(m) && s == Scored(m.id, Mixed(scan, tail, truth)(m));
    TailItemIs(f, scan, ft, m);
  }

  lemma MixedFits(n: Snapshot, f: FactType, segs: seq<Segment>, scan: TailScan, cursor: nat, head: nat, ft: nat,
                  probes: seq<seq<nat>>, q: Filter, bounds: Bounds, tail: seq<Scored>, truth: MemoryId -> int)
    requires SnapshotOk(n, segs, scan, cursor, head) && TypeOk(f, segs, scan, ft) && ProbesOk(f, probes)
    requires Within(Cands(n, f, probes, q, bounds), truth)
    ensures Fits(n, f, probes, q, bounds, Mixed(scan, tail, truth))
    ensures forall c :: c in Candidates(Cands(n, f, probes, q, bounds)) ==> TruthOf(segs, Mixed(scan, tail, truth))(c.id) == truth(c.id)
  {
    var dense := Mixed(scan, tail, truth);
    forall k, m | 0 <= k < |f.segments| && Scanned(n, f, probes, q, k, m) ensures bounds(m).lo <= dense(m) <= bounds(m).hi {
      MixedAt(n, f, segs, scan, cursor, head, ft, probes, q, k, m, tail, truth);
      CandidatesAre(n, f, segs, scan, ft, probes, q, bounds, CandOf(m, bounds));
      assert CandOf(m, bounds) in Candidates(Cands(n, f, probes, q, bounds));
    }
    forall c | c in Candidates(Cands(n, f, probes, q, bounds)) ensures TruthOf(segs, dense)(c.id) == truth(c.id) {
      CandidatesAre(n, f, segs, scan, ft, probes, q, bounds, c);
      var k, m :| 0 <= k < |f.segments| && Scanned(n, f, probes, q, k, m) && c == CandOf(m, bounds);
      MixedAt(n, f, segs, scan, cursor, head, ft, probes, q, k, m, tail, truth);
    }
  }

  /** A scanned copy is older than any tail version, so it scores by its id. */
  lemma MixedAt(n: Snapshot, f: FactType, segs: seq<Segment>, scan: TailScan, cursor: nat, head: nat, ft: nat,
                probes: seq<seq<nat>>, q: Filter, k: nat, m: StoredMemory, tail: seq<Scored>, truth: MemoryId -> int)
    requires SnapshotOk(n, segs, scan, cursor, head) && TypeOk(f, segs, scan, ft) && ProbesOk(f, probes) && k < |f.segments|
    requires Scanned(n, f, probes, q, k, m)
    ensures Mixed(scan, tail, truth)(m) == truth(m.id) && TruthOf(segs, Mixed(scan, tail, truth))(m.id) == truth(m.id)
  {
    LiveIffNotStale(n, f, segs, scan, cursor, head, ft, probes, q, k, m);
  }

  ghost predicate ExactFor(n: Snapshot, f: FactType, segs: seq<Segment>, scan: TailScan, ft: nat, probes: seq<seq<nat>>, q: Filter,
                           bounds: Bounds, dense: Scores, k: nat)
    requires ProbesOk(f, probes) && k >= 1
  {
    RanksOwed(Top(Found(n, f, segs, probes, q, bounds, dense, k), k), f, segs, scan, ft, probes, q, dense, k)
  }

  lemma HarmlessIsExactFor(n: Snapshot, f: FactType, segs: seq<Segment>, scan: TailScan, cursor: nat, head: nat, ft: nat,
                           probes: seq<seq<nat>>, q: Filter, bounds: Bounds, dense: Scores, k: nat)
    requires SnapshotOk(n, segs, scan, cursor, head) && TypeOk(f, segs, scan, ft) && ProbesOk(f, probes) && k >= 1
    requires Harmless(Cands(n, f, probes, q, bounds), k, TailPassing(n, f, q), Stale(segs, scan))
    requires Fits(n, f, probes, q, bounds, dense)
    ensures ExactFor(n, f, segs, scan, ft, probes, q, bounds, dense, k)
  {
    var tail, cs := TailScores(n, f.tailItems, q, dense), Cands(n, f, probes, q, bounds);
    CandsOneCopy(n, f, segs, scan, cursor, head, ft, probes, q, bounds);
    FitsIsWithin(n, f, segs, scan, cursor, head, ft, probes, q, bounds, dense);
    TailIdsWritten(n, f, segs, scan, ft, q, dense);
    TailPassingIs(n, f, q, dense);
    HarmlessIsExact(tail, Stale(segs, scan), cs, k, TruthOf(segs, dense));
    LiveTopRanksOwed(n, f, segs, scan, cursor, head, ft, probes, q, bounds, dense, Top(Found(n, f, segs, probes, q, bounds, dense, k), k), k);
  }

  lemma HarmIsInexact(n: Snapshot, f: FactType, segs: seq<Segment>, scan: TailScan, cursor: nat, head: nat, ft: nat,
                      probes: seq<seq<nat>>, q: Filter, bounds: Bounds, k: nat) returns (dense: Scores)
    requires SnapshotOk(n, segs, scan, cursor, head) && TypeOk(f, segs, scan, ft) && ProbesOk(f, probes) && k >= 1
    requires forall m :: bounds(m).lo <= bounds(m).hi
    requires !Harmless(Cands(n, f, probes, q, bounds), k, TailPassing(n, f, q), Stale(segs, scan))
    ensures Fits(n, f, probes, q, bounds, dense) && !ExactFor(n, f, segs, scan, ft, probes, q, bounds, dense, k)
  {
    var cs, scored, stale := Cands(n, f, probes, q, bounds), TailPassing(n, f, q), Stale(segs, scan);
    CandsOneCopy(n, f, segs, scan, cursor, head, ft, probes, q, bounds);
    TailIdsWritten(n, f, segs, scan, ft, q, m => 0);
    forall d | d in Candidates(cs) ensures d.lo <= d.hi { CandidatesAre(n, f, segs, scan, ft, probes, q, bounds, d); }
    var c :| Misplaced(cs, k, scored, stale, c) && |Rivals(cs, stale, c)| < k;
    var tail, truth := MisplacedHurts(cs, k, scored, stale, c);
    dense := Mixed(scan, tail, truth);
    MixedFits(n, f, segs, scan, cursor, head, ft, probes, q, bounds, tail, truth);
    MixedTail(n, f, scan, ft, q, tail, truth);
    SetsAgree(TailScores(n, f.tailItems, q, dense), tail, cs, k, stale, TruthOf(segs, dense), truth);
    LiveTopRanksOwed(n, f, segs, scan, cursor, head, ft, probes, q, bounds, dense, Top(Found(n, f, segs, probes, q, bounds, dense, k), k), k);
  }

  /** For a given snapshot, filter, probe and quantization: the dense arm ranks the live memories it covers
      for all scores inside the intervals if and only if every scanned memory that is stale and kept, or
      live and pruned, is surely beaten by k live ones. */
  lemma DenseIsExactIffHarmless(n: Snapshot, f: FactType, segs: seq<Segment>, scan: TailScan, cursor: nat, head: nat, ft: nat,
                                probes: seq<seq<nat>>, q: Filter, bounds: Bounds, k: nat)
    requires SnapshotOk(n, segs, scan, cursor, head) && TypeOk(f, segs, scan, ft) && ProbesOk(f, probes) && k >= 1
    requires forall m :: bounds(m).lo <= bounds(m).hi
    ensures (forall dense :: Fits(n, f, probes, q, bounds, dense) ==> ExactFor(n, f, segs, scan, ft, probes, q, bounds, dense, k)) <==>
            Harmless(Cands(n, f, probes, q, bounds), k, TailPassing(n, f, q), Stale(segs, scan))
  {
    if Harmless(Cands(n, f, probes, q, bounds), k, TailPassing(n, f, q), Stale(segs, scan)) {
      forall dense | Fits(n, f, probes, q, bounds, dense) ensures ExactFor(n, f, segs, scan, ft, probes, q, bounds, dense, k) {
        HarmlessIsExactFor(n, f, segs, scan, cursor, head, ft, probes, q, bounds, dense, k);
      }
    } else {
      var dense := HarmIsInexact(n, f, segs, scan, cursor, head, ft, probes, q, bounds, k);
    }
  }

  /** Where the tail rewrites nothing that is scanned and no predicate deletes any of it, the arm is exact. */
  lemma NothingStaleIsHarmless(n: Snapshot, f: FactType, segs: seq<Segment>, scan: TailScan, cursor: nat, head: nat, ft: nat,
                               probes: seq<seq<nat>>, q: Filter, bounds: Bounds, k: nat)
    requires SnapshotOk(n, segs, scan, cursor, head) && TypeOk(f, segs, scan, ft) && ProbesOk(f, probes) && k >= 1
    requires forall i, m :: 0 <= i < |f.segments| && Scanned(n, f, probes, q, i, m) ==> m.id !in scan.upserts && !n.Hidden(m)
    ensures Harmless(Cands(n, f, probes, q, bounds), k, TailPassing(n, f, q), Stale(segs, scan))
  {
    var cs := Cands(n, f, probes, q, bounds);
    CandsOneCopy(n, f, segs, scan, cursor, head, ft, probes, q, bounds);
    forall c | c in Candidates(cs) ensures c.id !in Stale(segs, scan) {
      CandidatesAre(n, f, segs, scan, ft, probes, q, bounds, c);
      var i, m :| 0 <= i < |f.segments| && Scanned(n, f, probes, q, i, m) && c == CandOf(m, bounds);
      LiveIffNotStale(n, f, segs, scan, cursor, head, ft, probes, q, i, m);
    }
    DisjointIsHarmless(cs, k, TailPassing(n, f, q), Stale(segs, scan));
  }
}

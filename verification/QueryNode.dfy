/** Snapshot reads: opening and reopening a query node, point reads and paged scans
    (crates/mlake-index/src/query_node.rs). */
module QueryNode {
  import opened Tags
  import opened Memories
  import opened Sorting
  import opened Wal
  import opened Lsm

  /** One fact type of one segment as loaded: its clusters, the primary key (id to cluster) and the
      payload rows, which carry everything but the embedding. */
  datatype SegmentState = SegmentState(
    id: nat,
    seqHi: nat,
    clusters: seq<seq<StoredMemory>>,
    pk: map<MemoryId, nat>,
    payload: Docs)

  datatype FactType = FactType(segments: seq<SegmentState>, tailItems: seq<StoredMemory>)

  datatype Snapshot = Snapshot(
    perType: map<nat, FactType>,
    tombstones: set<MemoryId>,
    segSuperseded: map<MemoryId, nat>,
    preds: seq<PredicateDelete>,
    segPreds: seq<PredicateDelete>,
    throughSeq: nat,
    cursor: nat)
  {
    /** Deleted by id in the tail, or by a predicate issued after its last write. */
    predicate Hidden(m: StoredMemory) {
      m.id in tombstones || KilledByAny(preds, m)
    }

    /** Deleted in the tail, or deleted or replaced by a segment above `hi`. */
    predicate Superseded(x: MemoryId, hi: nat) {
      x in tombstones || (x in segSuperseded && segSuperseded[x] > hi)
    }
  }

  /** A payload row: the memory without its embedding. */
  function Strip(m: StoredMemory): StoredMemory {
    m.(body := 0)
  }

  /** A payload row has everything but the embedding. */
  lemma StripKeepsTheRest(m: StoredMemory, k: StoredMemory)
    ensures Strip(m).(body := m.body) == m
    ensures Strip(m) == Strip(k) <==> m.(body := k.body) == k
  {
  }

  // ---- What a snapshot stands for -----------------------------------------------------------

  predicate HasType(docs: Docs, x: MemoryId, ft: nat) {
    x in docs && docs[x].memoryType == ft
  }

  predicate Indexes(seg: Segment, x: MemoryId, ft: nat) {
    HasType(seg.docs, x, ft)
  }

  /** `st` holds exactly the memories of type `ft` of `seg`, each in one cluster, once. */
  ghost predicate Holds(st: SegmentState, seg: Segment, ft: nat) {
    && st.id == seg.id && st.seqHi == seg.seqHi
    && (forall x :: x in st.pk <==> HasType(seg.docs, x, ft))
    && (forall x :: x in st.pk ==> st.pk[x] < |st.clusters| && seg.docs[x] in st.clusters[st.pk[x]])
    && (forall c, i :: 0 <= c < |st.clusters| && 0 <= i < |st.clusters[c]| ==>
          var m := st.clusters[c][i];
          m.id in st.pk && st.pk[m.id] == c && m == seg.docs[m.id])
    && (forall c :: 0 <= c < |st.clusters| ==> DistinctIds(st.clusters[c]))
    && st.payload.Keys == st.pk.Keys
    && (forall x :: x in st.payload ==> st.payload[x] == Strip(seg.docs[x]))
  }

  /** The tail items of a type: the scan's upserts of that type, each once. */
  ghost predicate TailOf(items: seq<StoredMemory>, scan: TailScan, ft: nat) {
    && (forall i :: 0 <= i < |items| ==> HasType(scan.upserts, items[i].id, ft) && scan.upserts[items[i].id] == items[i])
    && (forall x :: HasType(scan.upserts, x, ft) ==> scan.upserts[x] in items)
    && DistinctIds(items)
  }

  ghost predicate DistinctIds(ms: seq<StoredMemory>) {
    forall i, j :: 0 <= i < j < |ms| ==> ms[i].id != ms[j].id
  }

  /** Newest first. */
  ghost predicate Falling(states: seq<SegmentState>) {
    forall k, l :: 0 <= k < l < |states| ==> states[k].seqHi > states[l].seqHi
  }

  ghost predicate TypeOk(f: FactType, segs: seq<Segment>, scan: TailScan, ft: nat) {
    && TailOf(f.tailItems, scan, ft)
    && (forall k :: 0 <= k < |f.segments| ==> exists i :: 0 <= i < |segs| && Holds(f.segments[k], segs[i], ft))
    && (forall i, x :: 0 <= i < |segs| && Indexes(segs[i], x, ft) ==>
          exists k :: 0 <= k < |f.segments| && Holds(f.segments[k], segs[i], ft))
    && Falling(f.segments)
  }

  ghost predicate SnapshotOk(n: Snapshot, segs: seq<Segment>, scan: TailScan, cursor: nat, head: nat) {
    && SegsOk(segs, cursor) && ScanOk(scan, cursor, head) && cursor <= head
    && n.cursor == cursor && n.throughSeq == head
    && n.tombstones == scan.tombstones
    && (forall x, hi: nat :: (x in n.segSuperseded && n.segSuperseded[x] > hi) <==> Lsm.Superseded(segs, x, hi))
    && n.preds == scan.preds + AllPreds(segs) && n.segPreds == AllPreds(segs)
    && (forall ft :: ft in n.perType ==> TypeOk(n.perType[ft], segs, scan, ft))
    && (forall i, x :: 0 <= i < |segs| && x in segs[i].docs ==> segs[i].docs[x].memoryType in n.perType)
    && (forall x :: x in scan.upserts ==> scan.upserts[x].memoryType in n.perType)
  }

  /** The answer a point read owes for `x`. */
  function Answer(segs: seq<Segment>, scan: TailScan, x: MemoryId): Option<StoredMemory> {
    var live := Overlay(Resolve(segs), scan);
    if x in live then Some(live[x]) else None
  }

  /** An unsuperseded copy is the one lookup finds, and lookup finds only such copies. */
  lemma UnsupersededIsLook(segs: seq<Segment>, cursor: nat, i: nat, x: MemoryId)
    requires SegsOk(segs, cursor) && i < |segs| && x in segs[i].docs
    ensures !Lsm.Superseded(segs, x, segs[i].seqHi) <==> CopyFound(segs, i, x)
    ensures !Lsm.Superseded(segs, x, segs[i].seqHi) ==> Look(segs, x) == Some(segs[i].docs[x])
  {
    if !Lsm.Superseded(segs, x, segs[i].seqHi) {
      forall j | 0 <= j < i ensures x !in segs[j].docs && x !in segs[j].tomb.superseded {
        assert Shadows(segs[j], segs[i]) && segs[j] in segs;
      }
      LookAt(segs, i, x);
    }
  }

  /** No newer segment stores or supersedes `x`. */
  ghost predicate CopyFound(segs: seq<Segment>, i: nat, x: MemoryId)
    requires i < |segs|
  {
    x in segs[i].docs && forall j :: 0 <= j < i ==> x !in segs[j].docs && x !in segs[j].tomb.superseded
  }

  lemma {:induction false} LookAt(segs: seq<Segment>, i: nat, x: MemoryId)
    requires i < |segs| && CopyFound(segs, i, x)
    ensures Look(segs, x) == Some(segs[i].docs[x])
  {
    if i > 0 {
      assert x !in segs[0].docs && x !in segs[0].tomb.superseded;
      assert forall j :: 0 <= j < i - 1 ==> segs[1..][j] == segs[j + 1];
      LookAt(segs[1..], i - 1, x);
    }
  }

  lemma {:induction false} LookFindsCopy(segs: seq<Segment>, x: MemoryId) returns (i: nat)
    requires Look(segs, x).Some?
    ensures i < |segs| && CopyFound(segs, i, x) && Look(segs, x) == Some(segs[i].docs[x])
  {
    if x in segs[0].docs {
      i := 0;
    } else {
      i := LookFindsCopy(segs[1..], x);
      assert forall j :: 0 <= j < i ==> segs[1..][j] == segs[j + 1];
      i := i + 1;
      forall j | 0 <= j < i ensures x !in segs[j].docs && x !in segs[j].tomb.superseded {
        if j > 0 { assert segs[j] == segs[1..][j - 1]; }
      }
    }
  }

  // ---- Point reads ----------------------------------------------------------------------------

  /** What a read may collect for `x` before the final predicate test. `exact` reads carry the
      embedding, payload reads do not. */
  ghost predicate Candidate(segs: seq<Segment>, scan: TailScan, x: MemoryId, m: StoredMemory, exact: bool) {
    if x in scan.upserts then m == scan.upserts[x]
    else
      && Look(segs, x).Some?
      && m == if exact then Look(segs, x).value else Strip(Look(segs, x).value)
  }

  ghost predicate Sound(found: Docs, segs: seq<Segment>, scan: TailScan, wanted: set<MemoryId>, exact: bool) {
    forall x :: x in found ==> x in wanted && Candidate(segs, scan, x, found[x], exact)
  }

  /** Whether a stored copy of `x` would surface in a read. */
  predicate Visible(n: Snapshot, hi: nat, x: MemoryId, m: StoredMemory) {
    !n.Hidden(m) && !n.Superseded(x, hi)
  }

  /** Every wanted, visible memory of type `ft` in `seg` has been collected. */
  ghost predicate Collected(n: Snapshot, seg: Segment, ft: nat, found: Docs, wanted: set<MemoryId>) {
    forall x :: x in wanted && HasType(seg.docs, x, ft) && Visible(n, seg.seqHi, x, seg.docs[x]) ==> x in found
  }

  /** `found` extends `found0` by unsuperseded copies out of `seg`. */
  ghost predicate Extends(n: Snapshot, seg: Segment, ft: nat, found0: Docs, found: Docs, wanted: set<MemoryId>, exact: bool) {
    && (forall x :: x in found0 ==> x in found && found[x] == found0[x])
    && (forall x :: x in found && x !in found0 ==>
          && x in wanted && HasType(seg.docs, x, ft) && !n.Superseded(x, seg.seqHi)
          && found[x] == if exact then seg.docs[x] else Strip(seg.docs[x]))
  }

  lemma StripKeepsKills(preds: seq<PredicateDelete>, m: StoredMemory)
    ensures KilledByAny(preds, Strip(m)) == KilledByAny(preds, m)
  {
    forall p | p in preds ensures p.Kills(Strip(m)) == p.Kills(m) {
    }
  }

  /** Adds the wanted items of one type's tail. */
  method GatherItems(found0: Docs, items: seq<StoredMemory>, wanted: set<MemoryId>, ghost scan: TailScan, ghost ft: nat)
    returns (found: Docs)
    requires Keyed(scan.upserts) && TailOf(items, scan, ft)
    requires forall x :: x in found0 ==> x in wanted && x in scan.upserts && found0[x] == scan.upserts[x]
    ensures forall x :: x in found ==> x in wanted && x in scan.upserts && found[x] == scan.upserts[x]
    ensures forall x :: x in found <==> x in found0 || (x in wanted && HasType(scan.upserts, x, ft))
  {
    found := found0;
    for i := 0 to |items|
      invariant forall x :: x in found ==> x in wanted && x in scan.upserts && found[x] == scan.upserts[x]
      invariant forall x :: x in found0 ==> x in found
      invariant forall x :: x in found ==> x in found0 || HasType(scan.upserts, x, ft)
      invariant forall k :: 0 <= k < i && items[k].id in wanted ==> items[k].id in found
    {
      if items[i].id in wanted {
        found := found[items[i].id := items[i]];
      }
    }
  }

  method GatherTail(n: Snapshot, wanted: set<MemoryId>, ghost segs: seq<Segment>, ghost scan: TailScan)
    returns (found: Docs)
    requires Keyed(scan.upserts)
    requires forall ft :: ft in n.perType ==> TypeOk(n.perType[ft], segs, scan, ft)
    requires forall x :: x in scan.upserts ==> scan.upserts[x].memoryType in n.perType
    ensures forall x :: x in found <==> x in wanted && x in scan.upserts
    ensures forall x :: x in found ==> found[x] == scan.upserts[x]
  {
    found := map[];
    var types := n.perType.Keys;
    while types != {}
      invariant types <= n.perType.Keys
      invariant forall x :: x in found ==> x in wanted && x in scan.upserts && found[x] == scan.upserts[x]
      invariant forall x :: x in found <==> x in wanted && x in scan.upserts && scan.upserts[x].memoryType !in types
      decreases types
    {
      var ft :| ft in types;
      assert TypeOk(n.perType[ft], segs, scan, ft);
      found := GatherItems(found, n.perType[ft].tailItems, wanted, scan, ft);
      types := types - {ft};
    }
  }

  /** Adds one loaded segment's payload rows for ids still missing. */
  method GatherPayload(n: Snapshot, st: SegmentState, found0: Docs, wanted: set<MemoryId>, ghost seg: Segment, ghost ft: nat)
    returns (found: Docs)
    requires Holds(st, seg, ft)
    ensures Extends(n, seg, ft, found0, found, wanted, false)
    ensures Collected(n, seg, ft, found, wanted)
  {
    found := found0;
    var rows := wanted * st.payload.Keys - found0.Keys;
    while rows != {}
      invariant rows <= wanted * st.payload.Keys - found0.Keys
      invariant Extends(n, seg, ft, found0, found, wanted, false)
      invariant forall x :: x in wanted && HasType(seg.docs, x, ft) && !n.Superseded(x, seg.seqHi) && x !in rows ==> x in found
      decreases rows
    {
      var x :| x in rows;
      if !n.Superseded(x, st.seqHi) && x !in found {
        found := found[x := st.payload[x]];
      }
      rows := rows - {x};
    }
  }

  /** Adds the visible wanted members of one cluster. */
  method GatherCluster(n: Snapshot, hi: nat, members: seq<StoredMemory>, found0: Docs, wanted: set<MemoryId>)
    returns (found: Docs)
    ensures forall x :: x in found0 ==> x in found && found[x] == found0[x]
    ensures forall x :: x in found && x !in found0 ==>
              x in wanted && found[x] in members && found[x].id == x && Visible(n, hi, x, found[x])
    ensures forall i :: 0 <= i < |members| && members[i].id in wanted && Visible(n, hi, members[i].id, members[i]) ==>
              members[i].id in found
  {
    found := found0;
    for i := 0 to |members|
      invariant forall x :: x in found0 ==> x in found && found[x] == found0[x]
      invariant forall x :: x in found && x !in found0 ==>
                  x in wanted && found[x] in members && found[x].id == x && Visible(n, hi, x, found[x])
      invariant forall k :: 0 <= k < i && members[k].id in wanted && Visible(n, hi, members[k].id, members[k]) ==>
                  members[k].id in found
    {
      var m := members[i];
      if Visible(n, hi, m.id, m) && m.id in wanted && m.id !in found {
        found := found[m.id := m];
      }
    }
  }

  lemma MemberIsDoc(st: SegmentState, seg: Segment, ft: nat, c: nat, m: StoredMemory)
    requires Holds(st, seg, ft) && c < |st.clusters| && m in st.clusters[c]
    ensures HasType(seg.docs, m.id, ft) && seg.docs[m.id] == m
  {
    var i :| 0 <= i < |st.clusters[c]| && st.clusters[c][i] == m;
  }

  /** One cluster read, seen as an extension by documents of the segment. */
  method GatherOne(n: Snapshot, st: SegmentState, c: nat, found0: Docs, wanted: set<MemoryId>, ghost seg: Segment, ghost ft: nat)
    returns (found: Docs)
    requires Holds(st, seg, ft) && Keyed(seg.docs) && c < |st.clusters|
    ensures Extends(n, seg, ft, found0, found, wanted, true)
    ensures forall x :: x in wanted && x in st.pk && st.pk[x] == c && Visible(n, seg.seqHi, x, seg.docs[x]) ==> x in found
  {
    found := GatherCluster(n, st.seqHi, st.clusters[c], found0, wanted);
    forall x | x in found && x !in found0 ensures HasType(seg.docs, x, ft) && found[x] == seg.docs[x] {
      MemberIsDoc(st, seg, ft, c, found[x]);
    }
    forall x | x in wanted && x in st.pk && st.pk[x] == c && Visible(n, seg.seqHi, x, seg.docs[x]) ensures x in found {
      assert HasType(seg.docs, x, ft);
      var i :| 0 <= i < |st.clusters[c]| && st.clusters[c][i] == seg.docs[x];
      assert st.clusters[c][i].id == x;
    }
  }

  lemma ExtendsTrans(n: Snapshot, seg: Segment, ft: nat, a: Docs, b: Docs, c: Docs, wanted: set<MemoryId>, exact: bool)
    requires Extends(n, seg, ft, a, b, wanted, exact) && Extends(n, seg, ft, b, c, wanted, exact)
    ensures Extends(n, seg, ft, a, c, wanted, exact)
  {
  }

  /** Reads the clusters that the primary key names for ids still missing. */
  method GatherClusters(n: Snapshot, st: SegmentState, found0: Docs, wanted: set<MemoryId>, ghost seg: Segment, ghost ft: nat)
    returns (found: Docs)
    requires Holds(st, seg, ft) && Keyed(seg.docs)
    ensures Extends(n, seg, ft, found0, found, wanted, true)
    ensures Collected(n, seg, ft, found, wanted)
  {
    found := found0;
    var missing := wanted * st.pk.Keys - found0.Keys;
    var clusters := set x | x in missing :: st.pk[x];
    var done := {};
    while clusters - done != {}
      invariant done <= clusters
      invariant Extends(n, seg, ft, found0, found, wanted, true)
      invariant forall x :: x in missing && st.pk[x] in done && Visible(n, seg.seqHi, x, seg.docs[x]) ==> x in found
      decreases clusters - done
    {
      var c :| c in clusters - done;
      var more := GatherOne(n, st, c, found, wanted, seg, ft);
      ExtendsTrans(n, seg, ft, found0, found, more, wanted, true);
      assert forall x :: x in found ==> x in more;
      found := more;
      done := done + {c};
    }
    ClustersCover(n, st, seg, ft, found0, found, wanted, missing);
  }

  lemma ClustersCover(n: Snapshot, st: SegmentState, seg: Segment, ft: nat, found0: Docs, found: Docs, wanted: set<MemoryId>,
                      missing: set<MemoryId>)
    requires forall x :: x in st.pk <==> HasType(seg.docs, x, ft)
    requires missing == wanted * st.pk.Keys - found0.Keys
    requires forall x :: x in found0 ==> x in found
    requires forall x :: x in missing && HasType(seg.docs, x, ft) && Visible(n, seg.seqHi, x, seg.docs[x]) ==> x in found
    ensures Collected(n, seg, ft, found, wanted)
  {
    forall x | x in wanted && HasType(seg.docs, x, ft) && Visible(n, seg.seqHi, x, seg.docs[x]) ensures x in found {
      assert x in st.pk;
    }
  }

  lemma ExtendKeepsSound(n: Snapshot, segs: seq<Segment>, scan: TailScan, cursor: nat, head: nat, i: nat, ft: nat,
                         found0: Docs, found: Docs, wanted: set<MemoryId>, exact: bool)
    requires SnapshotOk(n, segs, scan, cursor, head) && i < |segs|
    requires Sound(found0, segs, scan, wanted, exact) && Extends(n, segs[i], ft, found0, found, wanted, exact)
    requires forall x :: x in wanted && x in scan.upserts ==> x in found0
    ensures Sound(found, segs, scan, wanted, exact)
  {
    forall x | x in found ensures x in wanted && Candidate(segs, scan, x, found[x], exact) {
      if x !in found0 {
        UnsupersededIsLook(segs, cursor, i, x);
      }
    }
  }

  lemma DistinctHi(segs: seq<Segment>, cursor: nat, i: nat, j: nat)
    requires SegsOk(segs, cursor) && i < |segs| && j < |segs|
    ensures i < j ==> segs[i].seqHi > segs[j].seqHi
  {
    if i < j { assert Shadows(segs[i], segs[j]); }
  }

  lemma CollectedStep(n: Snapshot, segs: seq<Segment>, cursor: nat, states: seq<SegmentState>, k: nat, i: nat, ft: nat,
                      before: Docs, found: Docs, wanted: set<MemoryId>)
    requires SegsOk(segs, cursor) && i < |segs| && k < |states| && Holds(states[k], segs[i], ft)
    requires before.Keys <= found.Keys && Collected(n, segs[i], ft, found, wanted)
    requires forall i', l :: 0 <= i' < |segs| && 0 <= l < k && Holds(states[l], segs[i'], ft) ==> Collected(n, segs[i'], ft, before, wanted)
    ensures forall i', l :: 0 <= i' < |segs| && 0 <= l < k + 1 && Holds(states[l], segs[i'], ft) ==> Collected(n, segs[i'], ft, found, wanted)
  {
    forall i', l | 0 <= i' < |segs| && 0 <= l < k + 1 && Holds(states[l], segs[i'], ft)
      ensures Collected(n, segs[i'], ft, found, wanted)
    {
      if l < k {
        assert Collected(n, segs[i'], ft, before, wanted);
      } else {
        DistinctHi(segs, cursor, i, i');
        DistinctHi(segs, cursor, i', i);
      }
    }
  }

  lemma AllCollected(n: Snapshot, segs: seq<Segment>, states: seq<SegmentState>, ft: nat, found: Docs, wanted: set<MemoryId>, i: nat)
    requires i < |segs|
    requires forall x :: Indexes(segs[i], x, ft) ==> exists k :: 0 <= k < |states| && Holds(states[k], segs[i], ft)
    requires forall l :: 0 <= l < |states| && Holds(states[l], segs[i], ft) ==> Collected(n, segs[i], ft, found, wanted)
    ensures Collected(n, segs[i], ft, found, wanted)
  {
    forall x | x in wanted && HasType(segs[i].docs, x, ft) && Visible(n, segs[i].seqHi, x, segs[i].docs[x])
      ensures x in found
    {
      assert Indexes(segs[i], x, ft);
      var l :| 0 <= l < |states| && Holds(states[l], segs[i], ft);
    }
  }

  /** Newest-first over one type's segments, stopping once nothing is missing. */
  method GatherType(n: Snapshot, ft: nat, found0: Docs, wanted: set<MemoryId>, includeVector: bool,
                    ghost segs: seq<Segment>, ghost scan: TailScan, ghost cursor: nat, ghost head: nat)
    returns (found: Docs)
    requires SnapshotOk(n, segs, scan, cursor, head) && ft in n.perType
    requires Sound(found0, segs, scan, wanted, includeVector)
    requires forall x :: x in wanted && x in scan.upserts ==> x in found0
    ensures Sound(found, segs, scan, wanted, includeVector)
    ensures forall x :: x in found0 ==> x in found
    ensures TypeCollected(n, segs, ft, found, wanted)
  {
    found := found0;
    var states := n.perType[ft].segments;
    assert TypeOk(n.perType[ft], segs, scan, ft);
    var k := 0;
    while k < |states| && !(wanted <= found.Keys)
      invariant 0 <= k <= |states|
      invariant Sound(found, segs, scan, wanted, includeVector)
      invariant forall x :: x in found0 ==> x in found
      invariant forall i, l :: 0 <= i < |segs| && 0 <= l < k && Holds(states[l], segs[i], ft) ==> Collected(n, segs[i], ft, found, wanted)
    {
      ghost var before := found;
      ghost var i :| 0 <= i < |segs| && Holds(states[k], segs[i], ft);
      assert SegmentOk(segs[i]);
      if includeVector {
        found := GatherClusters(n, states[k], found, wanted, segs[i], ft);
      } else {
        found := GatherPayload(n, states[k], found, wanted, segs[i], ft);
      }
      ExtendKeepsSound(n, segs, scan, cursor, head, i, ft, before, found, wanted, includeVector);
      CollectedStep(n, segs, cursor, states, k, i, ft, before, found, wanted);
      k := k + 1;
    }
    forall i | 0 <= i < |segs| ensures Collected(n, segs[i], ft, found, wanted) {
      if !(wanted <= found.Keys) {
        AllCollected(n, segs, states, ft, found, wanted, i);
      }
    }
  }

  /** The documents a collected candidate set answers with: the unhidden ones. */
  function Unhidden(n: Snapshot, ms: seq<StoredMemory>): seq<StoredMemory> {
    if ms == [] then []
    else (if n.Hidden(ms[0]) then [] else [ms[0]]) + Unhidden(n, ms[1..])
  }

  /** Ids of `ids` that resolved, in the requested order. */
  function Picked(found: Docs, ids: seq<MemoryId>): seq<StoredMemory> {
    if ids == [] then []
    else (if ids[0] in found then [found[ids[0]]] else []) + Picked(found, ids[1..])
  }

  /** The owed answers, in the requested order, embeddings kept or stripped. */
  function Answers(segs: seq<Segment>, scan: TailScan, ids: seq<MemoryId>, exact: bool): seq<StoredMemory> {
    if ids == [] then []
    else
      var a := Answer(segs, scan, ids[0]);
      (if a.None? then [] else [if exact || ids[0] in scan.upserts then a.value else Strip(a.value)])
      + Answers(segs, scan, ids[1..], exact)
  }

  lemma HiddenIsKilled(n: Snapshot, segs: seq<Segment>, scan: TailScan, m: StoredMemory)
    requires n.tombstones == scan.tombstones && n.preds == scan.preds + AllPreds(segs)
    ensures n.Hidden(m) <==> m.id in scan.tombstones || KilledByAny(scan.preds, m) || KilledByAny(AllPreds(segs), m)
  {
    KilledAppend(scan.preds, AllPreds(segs), m);
  }

  /** What the gathered set says about one id. */
  ghost predicate Settled(n: Snapshot, segs: seq<Segment>, scan: TailScan, found: Docs, x: MemoryId, exact: bool) {
    match Answer(segs, scan, x)
    case None => x !in found || n.Hidden(found[x])
    case Some(a) =>
      x in found && !n.Hidden(found[x]) && found[x] == if exact || x in scan.upserts then a else Strip(a)
  }

  lemma SettledUpsert(n: Snapshot, segs: seq<Segment>, scan: TailScan, cursor: nat, head: nat, found: Docs, x: MemoryId, exact: bool)
    requires SnapshotOk(n, segs, scan, cursor, head)
    requires x in scan.upserts && x in found && found[x] == scan.upserts[x]
    ensures Settled(n, segs, scan, found, x, exact)
  {
    HiddenIsKilled(n, segs, scan, scan.upserts[x]);
    AllPredsBounded(segs, cursor);
  }

  /** What the gathered set holds of an id that only segments can answer for. */
  ghost predicate Covered(n: Snapshot, segs: seq<Segment>, found: Docs, x: MemoryId, exact: bool) {
    match Look(segs, x)
    case None => x !in found
    case Some(d) =>
      (x in found ==> found[x] == if exact then d else Strip(d)) && (!n.Hidden(d) ==> x in found)
  }

  lemma CoveredSegment(n: Snapshot, segs: seq<Segment>, cursor: nat, found: Docs, wanted: set<MemoryId>, x: MemoryId, i: nat)
    requires SegsOk(segs, cursor) && i < |segs| && CopyFound(segs, i, x)
    requires x in wanted && x !in n.tombstones
    requires Collected(n, segs[i], segs[i].docs[x].memoryType, found, wanted)
    requires !n.Hidden(segs[i].docs[x])
    requires (x in n.segSuperseded && n.segSuperseded[x] > segs[i].seqHi) <==> Lsm.Superseded(segs, x, segs[i].seqHi)
    ensures x in found
  {
    UnsupersededIsLook(segs, cursor, i, x);
    assert HasType(segs[i].docs, x, segs[i].docs[x].memoryType);
  }

  lemma SettledSegment(n: Snapshot, segs: seq<Segment>, scan: TailScan, cursor: nat, found: Docs, x: MemoryId, exact: bool)
    requires SegsOk(segs, cursor) && n.tombstones == scan.tombstones && n.preds == scan.preds + AllPreds(segs)
    requires x !in scan.tombstones && x !in scan.upserts
    requires Covered(n, segs, found, x, exact)
    ensures Settled(n, segs, scan, found, x, exact)
  {
    ResolveIsLook(segs, cursor, x);
    if Look(segs, x).Some? {
      var d := Look(segs, x).value;
      var i := LookFindsCopy(segs, x);
      assert SegmentOk(segs[i]);
      HiddenIsKilled(n, segs, scan, d);
      StripKeepsKills(n.preds, d);
    }
  }

  lemma {:induction false} PickedAreAnswers(n: Snapshot, segs: seq<Segment>, scan: TailScan, found: Docs, ids: seq<MemoryId>, exact: bool)
    requires forall x :: x in ids ==> Settled(n, segs, scan, found, x, exact)
    ensures Unhidden(n, Picked(found, ids)) == Answers(segs, scan, ids, exact)
  {
    if ids != [] {
      PickedAreAnswers(n, segs, scan, found, ids[1..], exact);
      assert Settled(n, segs, scan, found, ids[0], exact);
      if ids[0] in found {
        assert Picked(found, ids)[1..] == Picked(found, ids[1..]);
      } else {
        assert Picked(found, ids) == Picked(found, ids[1..]);
      }
    }
  }

  /** Gathers what every type's segments hold for the ids the tail left open. */
  method GatherSegments(n: Snapshot, found0: Docs, wanted: set<MemoryId>, includeVector: bool,
                        ghost segs: seq<Segment>, ghost scan: TailScan, ghost cursor: nat, ghost head: nat)
    returns (found: Docs)
    requires SnapshotOk(n, segs, scan, cursor, head)
    requires Sound(found0, segs, scan, wanted, includeVector)
    requires forall x :: x in wanted && x in scan.upserts ==> x in found0
    ensures Sound(found, segs, scan, wanted, includeVector)
    ensures forall x :: x in wanted && x in scan.upserts ==> x in found
    ensures forall ft :: ft in n.perType ==> TypeCollected(n, segs, ft, found, wanted)
  {
    found := found0;
    var types := n.perType.Keys;
    while types != {}
      invariant types <= n.perType.Keys
      invariant Sound(found, segs, scan, wanted, includeVector)
      invariant forall x :: x in wanted && x in scan.upserts ==> x in found
      invariant forall ft :: ft in n.perType && ft !in types ==> TypeCollected(n, segs, ft, found, wanted)
      decreases types
    {
      var ft :| ft in types;
      var more := GatherType(n, ft, found, wanted, includeVector, segs, scan, cursor, head);
      TypeCollectedStep(n, segs, types, ft, found, more, wanted);
      found := more;
      types := types - {ft};
    }
  }

  ghost predicate TypeCollected(n: Snapshot, segs: seq<Segment>, ft: nat, found: Docs, wanted: set<MemoryId>) {
    forall i :: 0 <= i < |segs| ==> Collected(n, segs[i], ft, found, wanted)
  }

  lemma TypeCollectedGrows(n: Snapshot, segs: seq<Segment>, ft: nat, a: Docs, b: Docs, wanted: set<MemoryId>)
    requires TypeCollected(n, segs, ft, a, wanted) && a.Keys <= b.Keys
    ensures TypeCollected(n, segs, ft, b, wanted)
  {
    forall i | 0 <= i < |segs| ensures Collected(n, segs[i], ft, b, wanted) {
      assert Collected(n, segs[i], ft, a, wanted);
    }
  }

  lemma TypeCollectedStep(n: Snapshot, segs: seq<Segment>, types: set<nat>, ft: nat, a: Docs, b: Docs, wanted: set<MemoryId>)
    requires forall g :: g in n.perType && g !in types ==> TypeCollected(n, segs, g, a, wanted)
    requires TypeCollected(n, segs, ft, b, wanted) && a.Keys <= b.Keys
    ensures forall g :: g in n.perType && g !in types - {ft} ==> TypeCollected(n, segs, g, b, wanted)
  {
    forall g | g in n.perType && g !in types - {ft} ensures TypeCollected(n, segs, g, b, wanted) {
      if g != ft { TypeCollectedGrows(n, segs, g, a, b, wanted); }
    }
  }

  lemma GatheredIsCovered(n: Snapshot, segs: seq<Segment>, scan: TailScan, cursor: nat, found: Docs, wanted: set<MemoryId>,
                          x: MemoryId, exact: bool)
    requires SegsOk(segs, cursor) && x in wanted && x !in n.tombstones && x !in scan.upserts
    requires forall hi: nat :: (x in n.segSuperseded && n.segSuperseded[x] > hi) <==> Lsm.Superseded(segs, x, hi)
    requires forall i :: 0 <= i < |segs| && x in segs[i].docs ==> TypeCollected(n, segs, segs[i].docs[x].memoryType, found, wanted)
    requires x in found ==> Candidate(segs, scan, x, found[x], exact)
    ensures Covered(n, segs, found, x, exact)
  {
    if Look(segs, x).Some? {
      var i := LookFindsCopy(segs, x);
      if !n.Hidden(segs[i].docs[x]) {
        CoveredSegment(n, segs, cursor, found, wanted, x, i);
      }
    }
  }

  lemma AllSettled(n: Snapshot, segs: seq<Segment>, scan: TailScan, cursor: nat, head: nat, found: Docs, wanted: set<MemoryId>,
                   x: MemoryId, exact: bool)
    requires SnapshotOk(n, segs, scan, cursor, head)
    requires x in wanted <==> x !in scan.tombstones
    requires Sound(found, segs, scan, wanted, exact)
    requires x in wanted && x in scan.upserts ==> x in found
    requires forall ft :: ft in n.perType ==> TypeCollected(n, segs, ft, found, wanted)
    ensures Settled(n, segs, scan, found, x, exact)
  {
    if x in scan.tombstones {
      assert x !in found;
    } else if x in scan.upserts {
      SettledUpsert(n, segs, scan, cursor, head, found, x, exact);
    } else {
      GatheredIsCovered(n, segs, scan, cursor, found, wanted, x, exact);
      SettledSegment(n, segs, scan, cursor, found, x, exact);
    }
  }

  /** Point reads answer, in request order, with exactly what the snapshot owes for each id: the tail
      first, then the newest unsuperseded copy of whatever type, minus predicate deletes. */
  method GetMany(n: Snapshot, ids: seq<MemoryId>, includeVector: bool,
                 ghost segs: seq<Segment>, ghost scan: TailScan, ghost cursor: nat, ghost head: nat)
    returns (out: seq<StoredMemory>)
    requires SnapshotOk(n, segs, scan, cursor, head)
    ensures out == Answers(segs, scan, ids, includeVector)
  {
    var wanted := set x | x in ids && x !in n.tombstones;
    var found := GatherTail(n, wanted, segs, scan);
    found := GatherSegments(n, found, wanted, includeVector, segs, scan, cursor, head);
    forall x | x in ids ensures Settled(n, segs, scan, found, x, includeVector) {
      AllSettled(n, segs, scan, cursor, head, found, wanted, x, includeVector);
    }
    PickedAreAnswers(n, segs, scan, found, ids, includeVector);
    out := FilterHidden(n, Picked(found, ids));
  }

  lemma UnhiddenStep(n: Snapshot, ms: seq<StoredMemory>)
    requires ms != []
    ensures Unhidden(n, ms) == if n.Hidden(ms[0]) then Unhidden(n, ms[1..]) else [ms[0]] + Unhidden(n, ms[1..])
  {
  }

  method FilterHidden(n: Snapshot, ms: seq<StoredMemory>) returns (out: seq<StoredMemory>)
    ensures out == Unhidden(n, ms)
  {
    out := [];
    for i := 0 to |ms|
      invariant Unhidden(n, ms) == out + Unhidden(n, ms[i..])
    {
      UnhiddenStep(n, ms[i..]);
      assert ms[i..][1..] == ms[i + 1..];
      if !n.Hidden(ms[i]) {
        Assoc(out, [ms[i]], Unhidden(n, ms[i + 1..]));
        out := out + [ms[i]];
      }
    }
    assert ms[|ms|..] == [];
  }
}

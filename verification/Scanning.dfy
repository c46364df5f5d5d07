/** Paged scans of one memory type (crates/mlake-index/src/query_node.rs:1062-1120). */
module Scanning {
  import opened Tags
  import opened Memories
  import opened Wal
  import opened Lsm
  import opened QueryNode
  import opened Opening

  /** A position between two matches: a flat cluster number and an offset into its matches. */
  datatype ScanCursor = ScanCursor(cluster: nat, offset: nat)

  const START := ScanCursor(0, 0)

  datatype Query = Query(filter: Predicate, groups: seq<TagPredicate>) {
    predicate Admits(m: StoredMemory) {
      filter.Matches(m) && forall g <- groups :: g.Matches(m.tags)
    }
  }

  function Filter(ms: seq<StoredMemory>, keep: StoredMemory -> bool): seq<StoredMemory> {
    if ms == [] then []
    else
      var n := |ms| - 1;
      Filter(ms[..n], keep) + if keep(ms[n]) then [ms[n]] else []
  }

  /** Every segment's clusters, newest segment first. */
  function Flat(states: seq<SegmentState>): (r: seq<(nat, nat)>)
    ensures forall i :: 0 <= i < |r| ==> r[i].0 < |states| && r[i].1 < |states[r[i].0].clusters|
  {
    if states == [] then []
    else
      var n := |states| - 1;
      Flat(states[..n]) + seq(|states[n].clusters|, c requires 0 <= c < |states[n].clusters| => (n, c))
  }

  /** Ids whose copies in the clusters the tail replaces. */
  function TailIds(f: FactType): set<MemoryId> {
    set m | m in f.tailItems :: m.id
  }

  predicate TailKeeps(n: Snapshot, q: Query, m: StoredMemory) {
    !n.Hidden(m) && q.Admits(m)
  }

  predicate ClusterKeeps(n: Snapshot, f: FactType, q: Query, hi: nat, m: StoredMemory) {
    !n.Hidden(m) && !n.Superseded(m.id, hi) && m.id !in TailIds(f) && q.Admits(m)
  }

  /** The matches of flat cluster `c`; the tail stands just past the last cluster. */
  function Page(n: Snapshot, f: FactType, q: Query, c: nat): seq<StoredMemory>
    requires c <= |Flat(f.segments)|
  {
    if c == |Flat(f.segments)| then
      Filter(f.tailItems, m => TailKeeps(n, q, m))
    else
      var (si, lc) := Flat(f.segments)[c];
      Filter(f.segments[si].clusters[lc], m => ClusterKeeps(n, f, q, f.segments[si].seqHi, m))
  }

  /** The matches of every flat cluster and of the tail. */
  function Pages(n: Snapshot, f: FactType, q: Query): (r: seq<seq<StoredMemory>>)
    ensures |r| == |Flat(f.segments)| + 1
    ensures forall c :: 0 <= c < |r| ==> r[c] == Page(n, f, q, c)
  {
    seq(|Flat(f.segments)| + 1, c requires 0 <= c <= |Flat(f.segments)| => Page(n, f, q, c))
  }

  function Drop(s: seq<StoredMemory>, k: nat): seq<StoredMemory> {
    if k >= |s| then [] else s[k..]
  }

  /** What is still to be listed from a position on. */
  function Rest(pages: seq<seq<StoredMemory>>, at: ScanCursor): seq<StoredMemory>
    decreases |pages| - at.cluster
  {
    if at.cluster >= |pages| then []
    else Drop(pages[at.cluster], at.offset) + Rest(pages, ScanCursor(at.cluster + 1, 0))
  }

  function RestOf(pages: seq<seq<StoredMemory>>, next: Option<ScanCursor>): seq<StoredMemory> {
    if next.None? then [] else Rest(pages, next.value)
  }

  /** A whole scan of `ft`. */
  function Listing(n: Snapshot, ft: nat, q: Query): seq<StoredMemory> {
    Rest(Pages(n, TypeState(n, ft), q), START)
  }

  // ---- Paging -----------------------------------------------------------------------------------

  /** Takes up to `room` matches of the current cluster, and moves on when it is used up. */
  method TakeFrom(matching: seq<StoredMemory>, cluster: nat, offset: nat, room: nat, ghost pages: seq<seq<StoredMemory>>)
    returns (taken: seq<StoredMemory>, at: ScanCursor)
    requires cluster < |pages| && pages[cluster] == matching
    ensures Rest(pages, ScanCursor(cluster, offset)) == taken + Rest(pages, at)
    ensures |taken| <= room
    ensures at.cluster == cluster + 1 || (at.cluster == cluster && |taken| == room)
  {
    var left := if |matching| < offset then 0 else |matching| - offset;
    var take := if room < left then room else left;
    if offset + take >= |matching| {
      taken := Drop(matching, offset);
      at := ScanCursor(cluster + 1, 0);
    } else {
      taken := matching[offset..offset + take];
      at := ScanCursor(cluster, offset + take);
      ghost var rest := Rest(pages, ScanCursor(cluster + 1, 0));
      DropSplit(matching, offset, take);
      Regroup(taken, Drop(matching, offset + take), rest);
      assert Rest(pages, at) == Drop(matching, offset + take) + rest;
    }
  }

  lemma DropSplit(s: seq<StoredMemory>, offset: nat, take: nat)
    requires offset + take < |s|
    ensures Drop(s, offset) == s[offset..offset + take] + Drop(s, offset + take)
  {
  }

  lemma Regroup(a: seq<StoredMemory>, b: seq<StoredMemory>, c: seq<StoredMemory>)
    ensures a + (b + c) == (a + b) + c
  {
  }

  /** One page: a prefix of what was left, full unless the walk is over. */
  method Scan(n: Snapshot, ft: nat, cursor: ScanCursor, limit: nat, q: Query)
    returns (out: seq<StoredMemory>, next: Option<ScanCursor>)
    ensures out + RestOf(Pages(n, TypeState(n, ft), q), next) == Rest(Pages(n, TypeState(n, ft), q), cursor)
    ensures |out| <= limit
    ensures next.Some? ==> |out| == limit
  {
    if ft !in n.perType {
      EmptyType(n, q, cursor);
      return [], None;
    }
    out := [];
    var f := n.perType[ft];
    ghost var pages := Pages(n, f, q);
    var tailCluster := |Flat(f.segments)|;
    var at := cursor;
    while |out| < limit && at.cluster <= tailCluster
      invariant out + Rest(pages, at) == Rest(pages, cursor)
      invariant |out| <= limit
      decreases tailCluster + 1 - at.cluster, limit - |out|
    {
      var taken, after := TakeFrom(Page(n, f, q, at.cluster), at.cluster, at.offset, limit - |out|, pages);
      Regroup(out, taken, Rest(pages, after));
      out, at := out + taken, after;
    }
    next := if at.cluster <= tailCluster then Some(at) else None;
  }

  lemma EmptyType(n: Snapshot, q: Query, at: ScanCursor)
    ensures Rest(Pages(n, FactType([], []), q), at) == []
  {
    var pages := Pages(n, FactType([], []), q);
    assert pages[0] == Page(n, FactType([], []), q, 0) == [];
    assert Rest(pages, ScanCursor(1, 0)) == [];
  }

  function Concat(pages: seq<seq<StoredMemory>>): seq<StoredMemory> {
    if pages == [] then [] else Concat(pages[..|pages| - 1]) + pages[|pages| - 1]
  }

  lemma ConcatSnoc(pages: seq<seq<StoredMemory>>, page: seq<StoredMemory>)
    ensures Concat(pages + [page]) == Concat(pages) + page
  {
    assert (pages + [page])[..|pages|] == pages;
  }

  /** The pages so far and what is left make up the whole list. */
  ghost predicate Spelled(pages: seq<seq<StoredMemory>>, left: seq<StoredMemory>, goal: seq<StoredMemory>) {
    Concat(pages) + left == goal
  }

  lemma PageStep(pages: seq<seq<StoredMemory>>, page: seq<StoredMemory>, before: seq<StoredMemory>, after: seq<StoredMemory>,
                 goal: seq<StoredMemory>)
    requires Spelled(pages, before, goal) && page + after == before
    ensures Spelled(pages + [page], after, goal)
    ensures |before| == |page| + |after|
  {
    ConcatSnoc(pages, page);
    Regroup(Concat(pages), page, after);
  }

  /** Every page but the last is full. */
  ghost predicate FullPages(pages: seq<seq<StoredMemory>>, limits: nat -> nat, n: int) {
    forall k :: 0 <= k < n && k < |pages| ==> |pages[k]| == limits(k)
  }

  lemma FullStep(pages: seq<seq<StoredMemory>>, page: seq<StoredMemory>, limits: nat -> nat, over: bool)
    requires FullPages(pages, limits, |pages|) && (over || |page| == limits(|pages|))
    ensures FullPages(pages + [page], limits, if over then |pages| else |pages| + 1)
  {
  }

  /** Following the cursors ends, whatever the page limits, and always spells out the same list. */
  method WalkPages(n: Snapshot, ft: nat, q: Query, limits: nat -> nat) returns (pages: seq<seq<StoredMemory>>)
    requires forall k :: limits(k) >= 1
    ensures Concat(pages) == Listing(n, ft, q)
    ensures FullPages(pages, limits, |pages| - 1)
  {
    pages := [];
    var next := Some(START);
    ghost var all := Pages(n, TypeState(n, ft), q);
    ghost var goal := Rest(all, START);
    ghost var left := goal;
    while next.Some?
      invariant left == RestOf(all, next)
      invariant Spelled(pages, left, goal)
      invariant FullPages(pages, limits, if next.Some? then |pages| else |pages| - 1)
      decreases next.Some?, |left|
    {
      var limit := limits(|pages|);
      var page, after := Scan(n, ft, next.value, limit, q);
      PageStep(pages, page, left, RestOf(all, after), goal);
      FullStep(pages, page, limits, after.None?);
      pages := pages + [page];
      next := after;
      left := RestOf(all, after);
    }
    assert Concat(pages) + [] == Concat(pages);
  }

  // ---- What a listing holds -----------------------------------------------------------------------

  lemma {:induction false} FilterMembers(ms: seq<StoredMemory>, keep: StoredMemory -> bool, m: StoredMemory)
    ensures m in Filter(ms, keep) <==> m in ms && keep(m)
  {
    if ms != [] {
      var n := |ms| - 1;
      FilterMembers(ms[..n], keep, m);
      assert m in ms <==> m in ms[..n] || m == ms[n];
    }
  }

  lemma {:induction false} FilterDistinct(ms: seq<StoredMemory>, keep: StoredMemory -> bool)
    requires DistinctIds(ms)
    ensures DistinctIds(Filter(ms, keep))
  {
    if ms != [] {
      var n := |ms| - 1;
      FilterDistinct(ms[..n], keep);
      var r := Filter(ms[..n], keep);
      if keep(ms[n]) {
        forall i | 0 <= i < |r| ensures r[i].id != ms[n].id {
          FilterMembers(ms[..n], keep, r[i]);
          var k :| 0 <= k < n && ms[..n][k] == r[i];
          assert ms[k].id != ms[n].id;
        }
        assert Filter(ms, keep) == r + [ms[n]];
      } else {
        assert Filter(ms, keep) == r;
      }
    }
  }

  lemma {:induction false} FlatCovers(states: seq<SegmentState>, si: nat, lc: nat) returns (i: nat)
    requires si < |states| && lc < |states[si].clusters|
    ensures i < |Flat(states)| && Flat(states)[i] == (si, lc)
  {
    var n := |states| - 1;
    if si < n {
      i := FlatCovers(states[..n], si, lc);
    } else {
      i := |Flat(states[..n])| + lc;
    }
  }

  lemma {:induction false} FlatInjective(states: seq<SegmentState>, i: nat, j: nat)
    requires i < |Flat(states)| && j < |Flat(states)| && Flat(states)[i] == Flat(states)[j]
    ensures i == j
  {
    var n := |states| - 1;
    var init := Flat(states[..n]);
    if i < |init| && j < |init| {
      FlatInjective(states[..n], i, j);
    }
  }

  lemma {:induction false} RestMembers(pages: seq<seq<StoredMemory>>, c: nat, m: StoredMemory)
    ensures m in Rest(pages, ScanCursor(c, 0)) <==> exists k :: c <= k < |pages| && m in pages[k]
    decreases |pages| - c
  {
    if c < |pages| {
      RestMembers(pages, c + 1, m);
      assert Drop(pages[c], 0) == pages[c];
      assert m in Rest(pages, ScanCursor(c, 0)) <==> m in pages[c] || m in Rest(pages, ScanCursor(c + 1, 0));
    }
  }

  lemma {:induction false} RestDistinct(pages: seq<seq<StoredMemory>>, c: nat)
    requires forall k :: 0 <= k < |pages| ==> DistinctIds(pages[k])
    requires forall k, l :: 0 <= k < l < |pages| ==> Apart(pages[k], pages[l])
    ensures DistinctIds(Rest(pages, ScanCursor(c, 0)))
    decreases |pages| - c
  {
    if c < |pages| {
      var p, r := pages[c], Rest(pages, ScanCursor(c + 1, 0));
      RestDistinct(pages, c + 1);
      forall a, b | a in p && b in r ensures a.id != b.id {
        RestMembers(pages, c + 1, b);
        var d :| c + 1 <= d < |pages| && b in pages[d];
        assert Apart(pages[c], pages[d]);
      }
      DistinctConcat(p, r);
      assert Drop(p, 0) == p;
    }
  }

  ghost predicate Apart(a: seq<StoredMemory>, b: seq<StoredMemory>) {
    forall m, k :: m in a && k in b ==> m.id != k.id
  }

  lemma DistinctConcat(a: seq<StoredMemory>, b: seq<StoredMemory>)
    requires DistinctIds(a) && DistinctIds(b) && Apart(a, b)
    ensures DistinctIds(a + b)
  {
    var s := a + b;
    forall i, j | 0 <= i < j < |s| ensures s[i].id != s[j].id {
      if i < |a| <= j {
        assert s[i] in a && s[j] in b;
      }
    }
  }

  /** A memory of the listed type that its segment shows and no tail item of that type replaces. */
  ghost predicate Shown(n: Snapshot, segs: seq<Segment>, scan: TailScan, ft: nat, q: Query, m: StoredMemory) {
    && m.memoryType == ft && q.Admits(m) && !n.Hidden(m)
    && (|| (m.id in scan.upserts && scan.upserts[m.id] == m)
        || (!HasType(scan.upserts, m.id, ft) && Look(segs, m.id) == Some(m)))
  }

  lemma TailIdsAre(f: FactType, scan: TailScan, ft: nat, x: MemoryId)
    requires TailOf(f.tailItems, scan, ft) && Keyed(scan.upserts)
    ensures x in TailIds(f) <==> HasType(scan.upserts, x, ft)
  {
    if HasType(scan.upserts, x, ft) {
      assert scan.upserts[x] in f.tailItems;
    }
  }

  /** A kept member of a cluster is the copy lookup finds. */
  lemma KeptIsLooked(n: Snapshot, segs: seq<Segment>, cursor: nat, st: SegmentState, i: nat, ft: nat, lc: nat, m: StoredMemory)
    requires SegsOk(segs, cursor) && i < |segs| && Holds(st, segs[i], ft)
    requires (m.id in n.segSuperseded && n.segSuperseded[m.id] > segs[i].seqHi) <==> Lsm.Superseded(segs, m.id, segs[i].seqHi)
    requires lc < |st.clusters| && m in st.clusters[lc] && !n.Superseded(m.id, st.seqHi)
    ensures m.memoryType == ft && Look(segs, m.id) == Some(m) && CopyFound(segs, i, m.id) && st.pk[m.id] == lc
  {
    MemberIsDoc(st, segs[i], ft, lc, m);
    UnsupersededIsLook(segs, cursor, i, m.id);
  }

  lemma PageMember(n: Snapshot, f: FactType, q: Query, c: nat, m: StoredMemory)
    requires c < |Flat(f.segments)| && m in Page(n, f, q, c)
    ensures var (si, lc) := Flat(f.segments)[c];
            m in f.segments[si].clusters[lc] && ClusterKeeps(n, f, q, f.segments[si].seqHi, m)
  {
    var (si, lc) := Flat(f.segments)[c];
    FilterMembers(f.segments[si].clusters[lc], m => ClusterKeeps(n, f, q, f.segments[si].seqHi, m), m);
  }

  /** Where a page's memory sits. */
  lemma PageSource(n: Snapshot, f: FactType, q: Query, segs: seq<Segment>, scan: TailScan, cursor: nat, ft: nat,
                   c: nat, m: StoredMemory) returns (i: nat)
    requires SegsOk(segs, cursor) && TypeOk(f, segs, scan, ft)
    requires forall hi: nat :: (m.id in n.segSuperseded && n.segSuperseded[m.id] > hi) <==> Lsm.Superseded(segs, m.id, hi)
    requires c < |Flat(f.segments)| && m in Page(n, f, q, c)
    ensures var (si, lc) := Flat(f.segments)[c];
            && i < |segs| && Holds(f.segments[si], segs[i], ft) && CopyFound(segs, i, m.id)
            && m.id in f.segments[si].pk && f.segments[si].pk[m.id] == lc
            && ClusterKeeps(n, f, q, f.segments[si].seqHi, m)
            && m.memoryType == ft && Look(segs, m.id) == Some(m)
  {
    var (si, lc) := Flat(f.segments)[c];
    var st := f.segments[si];
    PageMember(n, f, q, c, m);
    i :| 0 <= i < |segs| && Holds(st, segs[i], ft);
    KeptIsLooked(n, segs, cursor, st, i, ft, lc, m);
  }

  lemma PageIsShown(n: Snapshot, f: FactType, q: Query, segs: seq<Segment>, scan: TailScan, cursor: nat, ft: nat,
                    c: nat, m: StoredMemory)
    requires SegsOk(segs, cursor) && TypeOk(f, segs, scan, ft) && Keyed(scan.upserts)
    requires forall hi: nat :: (m.id in n.segSuperseded && n.segSuperseded[m.id] > hi) <==> Lsm.Superseded(segs, m.id, hi)
    requires c <= |Flat(f.segments)| && m in Page(n, f, q, c)
    ensures Shown(n, segs, scan, ft, q, m)
  {
    if c == |Flat(f.segments)| {
      FilterMembers(f.tailItems, m => TailKeeps(n, q, m), m);
    } else {
      var i := PageSource(n, f, q, segs, scan, cursor, ft, c, m);
      TailIdsAre(f, scan, ft, m.id);
    }
  }

  /** A held, kept document is on its cluster's page. */
  lemma KeptIsOnPage(n: Snapshot, f: FactType, q: Query, seg: Segment, k: nat, ft: nat, m: StoredMemory) returns (c: nat)
    requires k < |f.segments| && Holds(f.segments[k], seg, ft)
    requires HasType(seg.docs, m.id, ft) && seg.docs[m.id] == m
    requires ClusterKeeps(n, f, q, f.segments[k].seqHi, m)
    ensures c <= |Flat(f.segments)| && m in Page(n, f, q, c)
  {
    var st := f.segments[k];
    var lc := st.pk[m.id];
    c := FlatCovers(f.segments, k, lc);
    FilterMembers(st.clusters[lc], m => ClusterKeeps(n, f, q, st.seqHi, m), m);
  }

  lemma HeldSomewhere(f: FactType, segs: seq<Segment>, scan: TailScan, ft: nat, i: nat, x: MemoryId) returns (k: nat)
    requires TypeOk(f, segs, scan, ft) && i < |segs| && HasType(segs[i].docs, x, ft)
    ensures k < |f.segments| && Holds(f.segments[k], segs[i], ft) && f.segments[k].seqHi == segs[i].seqHi
  {
    assert Indexes(segs[i], x, ft);
    k :| 0 <= k < |f.segments| && Holds(f.segments[k], segs[i], ft);
  }

  /** The cluster that holds the copy lookup finds. */
  lemma ShownInSegment(n: Snapshot, f: FactType, q: Query, segs: seq<Segment>, scan: TailScan, cursor: nat, ft: nat, m: StoredMemory)
    returns (c: nat)
    requires SegsOk(segs, cursor) && TypeOk(f, segs, scan, ft) && m.id !in TailIds(f)
    requires forall hi: nat :: (m.id in n.segSuperseded && n.segSuperseded[m.id] > hi) <==> Lsm.Superseded(segs, m.id, hi)
    requires m.memoryType == ft && q.Admits(m) && !n.Hidden(m) && Look(segs, m.id) == Some(m)
    ensures c <= |Flat(f.segments)| && m in Page(n, f, q, c)
  {
    var i := LookFindsCopy(segs, m.id);
    UnsupersededIsLook(segs, cursor, i, m.id);
    var k := HeldSomewhere(f, segs, scan, ft, i, m.id);
    c := KeptIsOnPage(n, f, q, segs[i], k, ft, m);
  }

  lemma ShownHasPage(n: Snapshot, f: FactType, q: Query, segs: seq<Segment>, scan: TailScan, cursor: nat, head: nat, ft: nat,
                     m: StoredMemory) returns (c: nat)
    requires SnapshotOk(n, segs, scan, cursor, head) && TypeOk(f, segs, scan, ft)
    requires Shown(n, segs, scan, ft, q, m)
    ensures c <= |Flat(f.segments)| && m in Page(n, f, q, c)
  {
    if HasType(scan.upserts, m.id, ft) && scan.upserts[m.id] == m {
      c := |Flat(f.segments)|;
      FilterMembers(f.tailItems, m => TailKeeps(n, q, m), m);
    } else {
      TailIdsAre(f, scan, ft, m.id);
      c := ShownInSegment(n, f, q, segs, scan, cursor, ft, m);
    }
  }

  /** Two pages never show the same id. */
  lemma PagesApart(n: Snapshot, f: FactType, q: Query, segs: seq<Segment>, scan: TailScan, cursor: nat, ft: nat,
                   c: nat, d: nat, a: StoredMemory, b: StoredMemory)
    requires SegsOk(segs, cursor) && TypeOk(f, segs, scan, ft)
    requires forall x, hi: nat :: (x in n.segSuperseded && n.segSuperseded[x] > hi) <==> Lsm.Superseded(segs, x, hi)
    requires c < d <= |Flat(f.segments)| && a in Page(n, f, q, c) && b in Page(n, f, q, d)
    ensures a.id != b.id
  {
    var i := PageSource(n, f, q, segs, scan, cursor, ft, c, a);
    if d == |Flat(f.segments)| {
      FilterMembers(f.tailItems, m => TailKeeps(n, q, m), b);
    } else {
      var j := PageSource(n, f, q, segs, scan, cursor, ft, d, b);
      SameSpot(f, segs, ft, c, d, i, j, a.id, b.id);
    }
  }

  lemma SameSpot(f: FactType, segs: seq<Segment>, ft: nat, c: nat, d: nat, i: nat, j: nat, x: MemoryId, y: MemoryId)
    requires Falling(f.segments) && c < |Flat(f.segments)| && d < |Flat(f.segments)| && i < |segs| && j < |segs|
    requires Holds(f.segments[Flat(f.segments)[c].0], segs[i], ft) && Holds(f.segments[Flat(f.segments)[d].0], segs[j], ft)
    requires CopyFound(segs, i, x) && CopyFound(segs, j, y)
    requires x in f.segments[Flat(f.segments)[c].0].pk && f.segments[Flat(f.segments)[c].0].pk[x] == Flat(f.segments)[c].1
    requires y in f.segments[Flat(f.segments)[d].0].pk && f.segments[Flat(f.segments)[d].0].pk[y] == Flat(f.segments)[d].1
    ensures x == y ==> c == d
  {
    if x == y {
      SameCopy(segs, i, j, x);
      SameState(f.segments, Flat(f.segments)[c].0, Flat(f.segments)[d].0);
      FlatInjective(f.segments, c, d);
    }
  }

  lemma SameCopy(segs: seq<Segment>, i: nat, j: nat, x: MemoryId)
    requires i < |segs| && j < |segs| && CopyFound(segs, i, x) && CopyFound(segs, j, x)
    ensures i == j
  {
  }

  lemma SameState(states: seq<SegmentState>, k: nat, l: nat)
    requires Falling(states) && k < |states| && l < |states| && states[k].seqHi == states[l].seqHi
    ensures k == l
  {
  }

  lemma PageDistinct(n: Snapshot, f: FactType, q: Query, segs: seq<Segment>, scan: TailScan, ft: nat, c: nat)
    requires TypeOk(f, segs, scan, ft) && c <= |Flat(f.segments)|
    ensures DistinctIds(Page(n, f, q, c))
  {
    if c == |Flat(f.segments)| {
      FilterDistinct(f.tailItems, m => TailKeeps(n, q, m));
    } else {
      var (si, lc) := Flat(f.segments)[c];
      var i :| 0 <= i < |segs| && Holds(f.segments[si], segs[i], ft);
      FilterDistinct(f.segments[si].clusters[lc], m => ClusterKeeps(n, f, q, f.segments[si].seqHi, m));
    }
  }

  lemma ListingDistinct(n: Snapshot, segs: seq<Segment>, scan: TailScan, cursor: nat, head: nat, ft: nat, q: Query)
    requires SnapshotOk(n, segs, scan, cursor, head)
    ensures DistinctIds(Listing(n, ft, q))
  {
    if ft !in n.perType {
      EmptyType(n, q, START);
      return;
    }
    var f := n.perType[ft];
    var pages := Pages(n, f, q);
    forall k | 0 <= k < |pages| ensures DistinctIds(pages[k]) {
      PageDistinct(n, f, q, segs, scan, ft, k);
    }
    forall k, l | 0 <= k < l < |pages| ensures Apart(pages[k], pages[l]) {
      forall a: StoredMemory, b: StoredMemory | a in pages[k] && b in pages[l] ensures a.id != b.id {
        PagesApart(n, f, q, segs, scan, cursor, ft, k, l, a, b);
      }
    }
    RestDistinct(pages, 0);
  }

  // ---- Scans of reopened snapshots -----------------------------------------------------------------

  lemma {:induction false} FilterSame(ms: seq<StoredMemory>, f: StoredMemory -> bool, g: StoredMemory -> bool)
    requires forall m :: f(m) == g(m)
    ensures Filter(ms, f) == Filter(ms, g)
  {
    if ms != [] { FilterSame(ms[..|ms| - 1], f, g); }
  }

  /** Snapshots that differ only in their list of types keep the same memories. */
  lemma SameKeeps(a: Snapshot, b: Snapshot, f: FactType, q: Query, hi: nat, m: StoredMemory)
    requires a.(perType := map[]) == b.(perType := map[])
    ensures TailKeeps(a, q, m) == TailKeeps(b, q, m)
    ensures ClusterKeeps(a, f, q, hi, m) == ClusterKeeps(b, f, q, hi, m)
  {
    assert a.tombstones == b.tombstones && a.segSuperseded == b.segSuperseded && a.preds == b.preds;
  }

  lemma SamePage(a: Snapshot, b: Snapshot, f: FactType, q: Query, c: nat)
    requires a.(perType := map[]) == b.(perType := map[]) && c <= |Flat(f.segments)|
    ensures Page(a, f, q, c) == Page(b, f, q, c)
  {
    if c == |Flat(f.segments)| {
      forall m ensures TailKeeps(a, q, m) == TailKeeps(b, q, m) { SameKeeps(a, b, f, q, 0, m); }
      FilterSame(f.tailItems, m => TailKeeps(a, q, m), m => TailKeeps(b, q, m));
    } else {
      var (si, lc) := Flat(f.segments)[c];
      var hi := f.segments[si].seqHi;
      forall m ensures ClusterKeeps(a, f, q, hi, m) == ClusterKeeps(b, f, q, hi, m) { SameKeeps(a, b, f, q, hi, m); }
      FilterSame(f.segments[si].clusters[lc], m => ClusterKeeps(a, f, q, hi, m), m => ClusterKeeps(b, f, q, hi, m));
    }
  }

  /** However one manifest was opened at one head, a scan sees the same pages: every cursor leaves the
      same rest, so every page limit yields the same page. */
  lemma ReopenedScansAlike(a: Snapshot, b: Snapshot, store: Store, segs: seq<Segment>, cursor: nat, scan: TailScan,
                           order: seq<StoredMemory>, head: nat, extraA: set<nat>, extraB: set<nat>, ft: nat, q: Query)
    requires StoreOk(store, segs)
    requires Opens(a, store, segs, cursor, scan, order, head, extraA)
    requires Opens(b, store, segs, cursor, scan, order, head, extraB)
    ensures Pages(a, TypeState(a, ft), q) == Pages(b, TypeState(b, ft), q)
    ensures Listing(a, ft, q) == Listing(b, ft, q)
  {
    ReopenedReadsAlike(a, b, store, segs, cursor, scan, order, head, extraA, extraB);
    var f := TypeState(a, ft);
    assert f == TypeState(b, ft);
    forall c | 0 <= c <= |Flat(f.segments)| ensures Pages(a, f, q)[c] == Pages(b, f, q)[c] {
      SamePage(a, b, f, q, c);
    }
  }

  // ---- Exactness ----------------------------------------------------------------------------------

  /** What a listing of `ft` owes: the live memories of that type that pass the query. */
  predicate Owed(segs: seq<Segment>, scan: TailScan, ft: nat, q: Query, m: StoredMemory) {
    && m.memoryType == ft && Answer(segs, scan, m.id) == Some(m)
    && q.filter.Matches(m) && forall g :: g in q.groups ==> g.Matches(m.tags)
  }

  /** A tail write gave `x` another type, and the indexed copy of type `ft` still passes everything:
      only tail items of the listed type replace cluster members. */
  ghost predicate Retyped(segs: seq<Segment>, scan: TailScan, ft: nat, q: Query, x: MemoryId) {
    && x in scan.upserts && scan.upserts[x].memoryType != ft
    && Look(segs, x).Some? && Look(segs, x).value.memoryType == ft && q.Admits(Look(segs, x).value)
    && !KilledByAny(scan.preds, Look(segs, x).value) && !KilledByAny(AllPreds(segs), Look(segs, x).value)
  }

  ghost predicate RetypedCopy(segs: seq<Segment>, scan: TailScan, ft: nat, q: Query, m: StoredMemory) {
    Retyped(segs, scan, ft, q, m.id) && Look(segs, m.id) == Some(m)
  }

  /** The tail's own version of an id is live and unhidden. */
  lemma TailIsOwed(n: Snapshot, segs: seq<Segment>, scan: TailScan, cursor: nat, head: nat, x: MemoryId)
    requires SegsOk(segs, cursor) && ScanOk(scan, cursor, head) && x in scan.upserts
    requires n.tombstones == scan.tombstones && n.preds == scan.preds + AllPreds(segs)
    ensures Answer(segs, scan, x) == Some(scan.upserts[x]) && !n.Hidden(scan.upserts[x])
  {
    HiddenIsKilled(n, segs, scan, scan.upserts[x]);
    AllPredsBounded(segs, cursor);
  }

  /** An id the tail does not write is live as lookup finds it, unless deleted. */
  lemma IndexedIsOwed(n: Snapshot, segs: seq<Segment>, scan: TailScan, cursor: nat, m: StoredMemory)
    requires SegsOk(segs, cursor) && m.id !in scan.upserts
    requires n.tombstones == scan.tombstones && n.preds == scan.preds + AllPreds(segs)
    ensures Answer(segs, scan, m.id) == Some(m) <==> Look(segs, m.id) == Some(m) && !n.Hidden(m)
  {
    HiddenIsKilled(n, segs, scan, m);
    ResolveIsLook(segs, cursor, m.id);
  }

  lemma ShownIsOwedOrRetyped(n: Snapshot, segs: seq<Segment>, scan: TailScan, cursor: nat, head: nat, ft: nat, q: Query, m: StoredMemory)
    requires SegsOk(segs, cursor) && ScanOk(scan, cursor, head)
    requires n.tombstones == scan.tombstones && n.preds == scan.preds + AllPreds(segs)
    ensures Shown(n, segs, scan, ft, q, m) <==> Owed(segs, scan, ft, q, m) || RetypedCopy(segs, scan, ft, q, m)
    ensures Owed(segs, scan, ft, q, m) ==> !RetypedCopy(segs, scan, ft, q, m)
  {
    if m.id in scan.upserts {
      TailIsOwed(n, segs, scan, cursor, head, m.id);
      HiddenIsKilled(n, segs, scan, m);
    } else {
      IndexedIsOwed(n, segs, scan, cursor, m);
    }
  }

  lemma ListedIsShown(n: Snapshot, segs: seq<Segment>, scan: TailScan, cursor: nat, head: nat, ft: nat, q: Query, m: StoredMemory)
    requires SnapshotOk(n, segs, scan, cursor, head) && ft in n.perType
    ensures m in Listing(n, ft, q) <==> Shown(n, segs, scan, ft, q, m)
  {
    var f := n.perType[ft];
    var pages := Pages(n, f, q);
    RestMembers(pages, 0, m);
    if m in Listing(n, ft, q) {
      var c :| 0 <= c < |pages| && m in pages[c];
      PageIsShown(n, f, q, segs, scan, cursor, ft, c, m);
    }
    if Shown(n, segs, scan, ft, q, m) {
      var c := ShownHasPage(n, f, q, segs, scan, cursor, head, ft, m);
      assert m in pages[c];
    }
  }

  /** A snapshot lists every type that its segments or its tail hold. */
  lemma AbsentTypeShowsNothing(n: Snapshot, segs: seq<Segment>, scan: TailScan, ft: nat, q: Query, m: StoredMemory)
    requires ft !in n.perType && (m.id in scan.upserts ==> scan.upserts[m.id].memoryType in n.perType)
    requires forall i :: 0 <= i < |segs| && m.id in segs[i].docs ==> segs[i].docs[m.id].memoryType in n.perType
    ensures !Shown(n, segs, scan, ft, q, m)
  {
    if Look(segs, m.id).Some? {
      var i := LookFindsCopy(segs, m.id);
    }
  }

  lemma ListedIsOwedOrRetyped(n: Snapshot, segs: seq<Segment>, scan: TailScan, cursor: nat, head: nat, ft: nat, q: Query, m: StoredMemory)
    requires SnapshotOk(n, segs, scan, cursor, head)
    ensures m in Listing(n, ft, q) <==> Owed(segs, scan, ft, q, m) || RetypedCopy(segs, scan, ft, q, m)
    ensures Owed(segs, scan, ft, q, m) ==> !RetypedCopy(segs, scan, ft, q, m)
  {
    ShownIsOwedOrRetyped(n, segs, scan, cursor, head, ft, q, m);
    if ft in n.perType {
      ListedIsShown(n, segs, scan, cursor, head, ft, q, m);
    } else {
      AbsentTypeShowsNothing(n, segs, scan, ft, q, m);
      EmptyType(n, q, START);
    }
  }

  lemma RetypedHasCopy(segs: seq<Segment>, scan: TailScan, cursor: nat, ft: nat, q: Query, x: MemoryId) returns (m: StoredMemory)
    requires SegsOk(segs, cursor) && Retyped(segs, scan, ft, q, x)
    ensures RetypedCopy(segs, scan, ft, q, m)
  {
    var i := LookFindsCopy(segs, x);
    assert SegmentOk(segs[i]);
    m := Look(segs, x).value;
  }

  /** A listing holds no id twice, and holds exactly the live matching memories of the type plus the
      retyped copies; so it is exact if and only if no tail write retyped a matching memory. */
  lemma ListingIsExactIffTypesKept(n: Snapshot, segs: seq<Segment>, scan: TailScan, cursor: nat, head: nat, ft: nat, q: Query)
    requires SnapshotOk(n, segs, scan, cursor, head)
    ensures DistinctIds(Listing(n, ft, q))
    ensures forall m :: m in Listing(n, ft, q) <==> Owed(segs, scan, ft, q, m) || RetypedCopy(segs, scan, ft, q, m)
    ensures (forall m :: m in Listing(n, ft, q) <==> Owed(segs, scan, ft, q, m)) <==>
            (forall x :: !Retyped(segs, scan, ft, q, x))
  {
    forall m
      ensures m in Listing(n, ft, q) <==> Owed(segs, scan, ft, q, m) || RetypedCopy(segs, scan, ft, q, m)
      ensures Owed(segs, scan, ft, q, m) ==> !RetypedCopy(segs, scan, ft, q, m)
    {
      ListedIsOwedOrRetyped(n, segs, scan, cursor, head, ft, q, m);
    }
    ListingDistinct(n, segs, scan, cursor, head, ft, q);
    ExactIffNoneRetyped(Listing(n, ft, q), segs, scan, cursor, ft, q);
  }

  lemma ExactIffNoneRetyped(listing: seq<StoredMemory>, segs: seq<Segment>, scan: TailScan, cursor: nat, ft: nat, q: Query)
    requires SegsOk(segs, cursor)
    requires forall m :: m in listing <==> Owed(segs, scan, ft, q, m) || RetypedCopy(segs, scan, ft, q, m)
    requires forall m :: Owed(segs, scan, ft, q, m) ==> !RetypedCopy(segs, scan, ft, q, m)
    ensures (forall m :: m in listing <==> Owed(segs, scan, ft, q, m)) <==> (forall x :: !Retyped(segs, scan, ft, q, x))
  {
    forall x | Retyped(segs, scan, ft, q, x) ensures exists m :: RetypedCopy(segs, scan, ft, q, m) {
      var m := RetypedHasCopy(segs, scan, cursor, ft, q, x);
    }
  }

  /** The failing family is not empty. */
  lemma RetypedCopyIsListed()
    ensures exists segs: seq<Segment>, scan: TailScan, ft: nat, q: Query, m: StoredMemory ::
              && SegsOk(segs, 1) && ScanOk(scan, 1, 2)
              && RetypedCopy(segs, scan, ft, q, m) && !Owed(segs, scan, ft, q, m)
  {
    var segs, scan, q, m := OneRetyped();
    ShownIsOwedOrRetyped(Snapshot(map[], scan.tombstones, map[], scan.preds + AllPreds(segs), [], 2, 1), segs, scan, 1, 2, 1, q, m);
  }

  /** One indexed memory of type 1 that the tail writes again as type 2. */
  lemma OneRetyped() returns (segs: seq<Segment>, scan: TailScan, q: Query, m: StoredMemory)
    ensures SegsOk(segs, 1) && ScanOk(scan, 1, 2) && RetypedCopy(segs, scan, 1, q, m)
  {
    var ts := Timestamps(None, None, None, None, None);
    m := StoredMemory(7, 1, [], ts, 0, {}, [], "", 0, 1);
    segs := [Segment(0, 0, 1, map[7 := m], SegmentTombstones({}, []))];
    scan := TailScan(map[7 := m.(memoryType := 2, writeSeq := 2)], {}, map[], []);
    q := Query(Predicate([], [], [], Tags.Any, None, None), []);
    assert Look(segs, 7) == Some(m);
    assert AllPreds(segs) == [];
  }
}

/** Reverse adjacency in compressed rows (crates/mlake-graph/src/radj.rs:63-103). */
module Radj {
  import opened Memories
  import opened Sorting

  /** `kind` and `weight` travel with the edge untouched. */
  datatype InEdge = InEdge(source: MemoryId, kind: nat, weight: int)

  datatype Link = Link(target: MemoryId, edge: InEdge)

  /** `targets[i]` owns `edges[offsets[i]..offsets[i + 1]]`. */
  datatype ReverseAdjacency = ReverseAdjacency(targets: seq<MemoryId>, offsets: seq<nat>, edges: seq<InEdge>)

  predicate LinkLe(a: Link, b: Link) {
    a.target < b.target || (a.target == b.target && a.edge.source <= b.edge.source)
  }

  predicate SourceLe(a: InEdge, b: InEdge) {
    a.source <= b.source
  }

  function Edges(s: seq<Link>): (r: seq<InEdge>)
    ensures |r| == |s| && forall i :: 0 <= i < |s| ==> r[i] == s[i].edge
  {
    seq(|s|, i requires 0 <= i < |s| => s[i].edge)
  }

  /** The edges into `t`, in input order. */
  function EdgesInto(s: seq<Link>, t: MemoryId): seq<InEdge> {
    if s == [] then []
    else (if s[0].target == t then [s[0].edge] else []) + EdgesInto(s[1..], t)
  }

  /** What a lookup of `t` owes: the edges into `t` ordered by source, ties in input order. */
  function IncomingSpec(pairs: seq<Link>, t: MemoryId): seq<InEdge> {
    StableSort(EdgesInto(pairs, t), SourceLe)
  }

  /** Strictly ascending targets; offsets that start at 0, rise, and end at the edge count. */
  ghost predicate WellFormed(r: ReverseAdjacency) {
    && |r.offsets| == |r.targets| + 1
    && r.offsets[0] == 0 && r.offsets[|r.targets|] == |r.edges|
    && (forall i, j :: 0 <= i < j < |r.targets| ==> r.targets[i] < r.targets[j])
    && (forall i, j :: 0 <= i < j < |r.offsets| ==> r.offsets[i] < r.offsets[j])
  }

  /** The row of `t`. */
  ghost predicate IsRow(r: ReverseAdjacency, t: MemoryId, row: seq<InEdge>)
    requires WellFormed(r)
  {
    && (forall i :: 0 <= i < |r.targets| && r.targets[i] == t ==>
          r.offsets[i] <= r.offsets[i + 1] <= |r.edges| && row == r.edges[r.offsets[i]..r.offsets[i + 1]])
    && (t !in r.targets ==> row == [])
  }

  // ---- Build ----------------------------------------------------------------------------------------------

  /** Links `lo..hi` of `ps` are exactly those into `t`. */
  ghost predicate IsRange(ps: seq<Link>, t: MemoryId, lo: nat, hi: nat) {
    && lo < hi <= |ps|
    && forall p :: 0 <= p < |ps| ==> (ps[p].target == t <==> lo <= p < hi)
  }

  /** The rows built so far cover the first `i` links. */
  ghost predicate Rows(ps: seq<Link>, targets: seq<MemoryId>, offsets: seq<nat>, i: nat) {
    && |offsets| == |targets| + 1 && offsets[0] == 0 && offsets[|targets|] == i <= |ps|
    && (forall k :: 0 <= k < |targets| ==> IsRange(ps, targets[k], offsets[k], offsets[k + 1]))
    && (forall p :: 0 <= p < i ==> ps[p].target in targets)
  }

  lemma NextRow(ps: seq<Link>, targets: seq<MemoryId>, offsets: seq<nat>, i: nat, j: nat)
    requires Rows(ps, targets, offsets, i) && i < j <= |ps|
    requires IsRange(ps, ps[i].target, i, j)
    ensures Rows(ps, targets + [ps[i].target], offsets + [j], j)
  {
    var ts, os := targets + [ps[i].target], offsets + [j];
    forall k | 0 <= k < |ts| ensures IsRange(ps, ts[k], os[k], os[k + 1]) {
      if k < |targets| { assert IsRange(ps, targets[k], offsets[k], offsets[k + 1]); }
    }
  }

  method Build(pairs: seq<Link>) returns (r: ReverseAdjacency)
    ensures WellFormed(r)
    ensures |r.edges| == |pairs|
    ensures forall t: MemoryId :: IsRow(r, t, IncomingSpec(pairs, t))
  {
    var ps := StableSort(pairs, LinkLe);
    SortIsStable(pairs, LinkLe);
    SortPermutes(pairs, LinkLe);
    var targets: seq<MemoryId>, offsets: seq<nat>, edges: seq<InEdge> := [], [0], [];
    var i := 0;
    while i < |ps|
      invariant 0 <= i <= |ps| && edges == Edges(ps[..i])
      invariant Rows(ps, targets, offsets, i)
      invariant 0 < i < |ps| ==> ps[i - 1].target != ps[i].target
    {
      var target := ps[i].target;
      var j;
      j, edges := CopyRow(ps, i, edges);
      NextRow(ps, targets, offsets, i, j);
      i, targets, offsets := j, targets + [target], offsets + [|edges|];
    }
    assert ps[..i] == ps;
    r := ReverseAdjacency(targets, offsets, edges);
    RowsAreWellFormed(ps, r);
    forall t: MemoryId ensures IsRow(r, t, IncomingSpec(pairs, t)) {
      RowIsSpec(pairs, ps, r, t);
    }
  }

  /** Appends the run of links that starts at `i`. */
  method CopyRow(ps: seq<Link>, i: nat, edges0: seq<InEdge>) returns (j: nat, edges: seq<InEdge>)
    requires Sorted(ps, LinkLe) && i < |ps| && edges0 == Edges(ps[..i])
    requires i > 0 ==> ps[i - 1].target != ps[i].target
    ensures i < j <= |ps| && edges == Edges(ps[..j])
    ensures IsRange(ps, ps[i].target, i, j)
    ensures j < |ps| ==> ps[j - 1].target != ps[j].target
  {
    j, edges := i, edges0;
    while j < |ps| && ps[j].target == ps[i].target
      invariant i <= j <= |ps| && edges == Edges(ps[..j])
      invariant forall p :: i <= p < j ==> ps[p].target == ps[i].target
    {
      edges := edges + [ps[j].edge];
      j := j + 1;
    }
    Contiguous(ps, i, j);
  }

  /** In a sorted list, a run bounded by other targets holds all links into its target. */
  lemma Contiguous(ps: seq<Link>, lo: nat, hi: nat)
    requires Sorted(ps, LinkLe) && lo < hi <= |ps|
    requires forall p :: lo <= p < hi ==> ps[p].target == ps[lo].target
    requires lo > 0 ==> ps[lo - 1].target != ps[lo].target
    requires hi < |ps| ==> ps[hi].target != ps[lo].target
    ensures IsRange(ps, ps[lo].target, lo, hi)
  {
    forall p | 0 <= p < |ps| ensures ps[p].target == ps[lo].target <==> lo <= p < hi {
      if p < lo {
        assert LinkLe(ps[lo - 1], ps[lo]);
        if p < lo - 1 { assert LinkLe(ps[p], ps[lo - 1]); }
      } else if p >= hi {
        assert LinkLe(ps[lo], ps[hi]);
        if p > hi { assert LinkLe(ps[hi], ps[p]); }
      }
    }
  }

  lemma RowsAreWellFormed(ps: seq<Link>, r: ReverseAdjacency)
    requires Sorted(ps, LinkLe) && Rows(ps, r.targets, r.offsets, |ps|) && r.edges == Edges(ps)
    ensures WellFormed(r)
  {
    forall i, j | 0 <= i < j < |r.offsets| ensures r.offsets[i] < r.offsets[j] { OffsetsRise(ps, r, i, j); }
    forall i, j | 0 <= i < j < |r.targets| ensures r.targets[i] < r.targets[j] {
      assert IsRange(ps, r.targets[i], r.offsets[i], r.offsets[i + 1]);
      assert IsRange(ps, r.targets[j], r.offsets[j], r.offsets[j + 1]);
      OffsetsRise(ps, r, i, j);
      assert LinkLe(ps[r.offsets[i]], ps[r.offsets[j]]);
    }
  }

  lemma {:induction false} OffsetsRise(ps: seq<Link>, r: ReverseAdjacency, i: nat, j: nat)
    requires Rows(ps, r.targets, r.offsets, |ps|) && i < j < |r.offsets|
    ensures r.offsets[i] < r.offsets[j] && r.offsets[i + 1] <= r.offsets[j]
    decreases j
  {
    assert IsRange(ps, r.targets[j - 1], r.offsets[j - 1], r.offsets[j]);
    if i < j - 1 { OffsetsRise(ps, r, i, j - 1); }
  }

  lemma {:induction false} EdgesIntoConcat(a: seq<Link>, b: seq<Link>, t: MemoryId)
    ensures EdgesInto(a + b, t) == EdgesInto(a, t) + EdgesInto(b, t)
  {
    if a == [] {
      assert a + b == b;
    } else {
      assert (a + b)[1..] == a[1..] + b;
      EdgesIntoConcat(a[1..], b, t);
      var head := if a[0].target == t then [a[0].edge] else [];
      assert EdgesInto(a + b, t) == head + (EdgesInto(a[1..], t) + EdgesInto(b, t));
      Assoc(head, EdgesInto(a[1..], t), EdgesInto(b, t));
    }
  }

  lemma {:induction false} EdgesIntoNone(s: seq<Link>, t: MemoryId)
    requires forall p :: 0 <= p < |s| ==> s[p].target != t
    ensures EdgesInto(s, t) == []
  {
    if s != [] { EdgesIntoNone(s[1..], t); }
  }

  lemma {:induction false} EdgesIntoAll(s: seq<Link>, t: MemoryId)
    requires forall p :: 0 <= p < |s| ==> s[p].target == t
    ensures EdgesInto(s, t) == Edges(s)
  {
    if s != [] {
      EdgesIntoAll(s[1..], t);
      assert Edges(s) == [s[0].edge] + Edges(s[1..]);
    }
  }

  lemma RangeEdges(ps: seq<Link>, t: MemoryId, lo: nat, hi: nat)
    requires lo <= hi <= |ps| && forall p :: 0 <= p < |ps| ==> (ps[p].target == t <==> lo <= p < hi)
    ensures EdgesInto(ps, t) == Edges(ps[lo..hi])
  {
    var pre, mid, post := ps[..lo], ps[lo..hi], ps[hi..];
    assert ps == pre + (mid + post);
    EdgesIntoConcat(pre, mid + post, t);
    EdgesIntoConcat(mid, post, t);
    EdgesIntoNone(pre, t);
    EdgesIntoAll(mid, t);
    EdgesIntoNone(post, t);
  }

  /** Tied edges into `t` are tied links. */
  lemma {:induction false} EdgeClass(s: seq<Link>, t: MemoryId, e: InEdge)
    ensures Class(EdgesInto(s, t), e, SourceLe) == Edges(Class(s, Link(t, e), LinkLe))
  {
    if s != [] {
      EdgeClass(s[1..], t, e);
      if s[0].target == t {
        assert EdgesInto(s, t)[1..] == EdgesInto(s[1..], t);
      } else {
        assert EdgesInto(s, t) == EdgesInto(s[1..], t);
      }
    }
  }

  lemma {:induction false} EdgesSorted(s: seq<Link>, t: MemoryId)
    requires Sorted(s, LinkLe)
    ensures Sorted(EdgesInto(s, t), SourceLe)
    ensures forall e :: e in EdgesInto(s, t) ==> Link(t, e) in s
  {
    if s != [] {
      EdgesSorted(s[1..], t);
      var rest := EdgesInto(s[1..], t);
      forall e | e in rest && s[0].target == t ensures SourceLe(s[0].edge, e) {
        var p :| 0 <= p < |s[1..]| && s[1..][p] == Link(t, e);
        assert LinkLe(s[0], s[p + 1]);
      }
      if s[0].target == t {
        SortedCons(s[0].edge, rest, SourceLe);
      } else {
        assert EdgesInto(s, t) == rest;
      }
    }
  }

  /** The links into `t` of the sorted list, read off in order, are the owed row. */
  lemma SortedIntoIsSpec(pairs: seq<Link>, t: MemoryId)
    ensures EdgesInto(StableSort(pairs, LinkLe), t) == IncomingSpec(pairs, t)
  {
    var ps := StableSort(pairs, LinkLe);
    SortIsStable(pairs, LinkLe);
    EdgesSorted(ps, t);
    forall e ensures Class(EdgesInto(ps, t), e, SourceLe) == Class(EdgesInto(pairs, t), e, SourceLe) {
      EdgeClass(ps, t, e);
      EdgeClass(pairs, t, e);
    }
    StableSortUnique(EdgesInto(ps, t), EdgesInto(pairs, t), SourceLe);
  }

  lemma EdgesSlice(ps: seq<Link>, lo: nat, hi: nat)
    requires lo <= hi <= |ps|
    ensures Edges(ps)[lo..hi] == Edges(ps[lo..hi])
  {
  }

  lemma RowIsSpec(pairs: seq<Link>, ps: seq<Link>, r: ReverseAdjacency, t: MemoryId)
    requires ps == StableSort(pairs, LinkLe) && Sorted(ps, LinkLe)
    requires Rows(ps, r.targets, r.offsets, |ps|) && r.edges == Edges(ps) && WellFormed(r)
    ensures IsRow(r, t, IncomingSpec(pairs, t))
  {
    SortedIntoIsSpec(pairs, t);
    forall i | 0 <= i < |r.targets| && r.targets[i] == t
      ensures r.offsets[i] <= r.offsets[i + 1] <= |r.edges|
      ensures EdgesInto(ps, t) == r.edges[r.offsets[i]..r.offsets[i + 1]]
    {
      var lo, hi := r.offsets[i], r.offsets[i + 1];
      assert IsRange(ps, t, lo, hi);
      RangeEdges(ps, t, lo, hi);
      EdgesSlice(ps, lo, hi);
    }
    if t !in r.targets {
      RangeEdges(ps, t, 0, 0);
    }
  }

  // ---- Lookup ------------------------------------------------------------------------------------------------

  /** Binary search in strictly ascending targets. */
  method FindTarget(targets: seq<MemoryId>, t: MemoryId) returns (at: Option<nat>)
    requires forall i, j :: 0 <= i < j < |targets| ==> targets[i] < targets[j]
    ensures at.Some? ==> at.value < |targets| && targets[at.value] == t
    ensures at.None? ==> t !in targets
  {
    var lo, hi := 0, |targets|;
    while lo < hi
      invariant 0 <= lo <= hi <= |targets|
      invariant forall i :: 0 <= i < lo ==> targets[i] < t
      invariant forall i :: hi <= i < |targets| ==> targets[i] > t
    {
      var mid := (lo + hi) / 2;
      if targets[mid] == t {
        return Some(mid);
      } else if targets[mid] < t {
        lo := mid + 1;
      } else {
        hi := mid;
      }
    }
    return None;
  }

  /** The row of `t`, or nothing. */
  method Incoming(r: ReverseAdjacency, t: MemoryId) returns (row: seq<InEdge>)
    requires WellFormed(r)
    ensures IsRow(r, t, row)
  {
    var at := FindTarget(r.targets, t);
    if at.None? {
      return [];
    }
    var i := at.value;
    assert r.offsets[i] < r.offsets[i + 1];
    assert i + 1 < |r.targets| ==> r.offsets[i + 1] < r.offsets[|r.targets|];
    row := r.edges[r.offsets[i]..r.offsets[i + 1]];
  }

  lemma RowUnique(r: ReverseAdjacency, t: MemoryId, a: seq<InEdge>, b: seq<InEdge>)
    requires WellFormed(r) && IsRow(r, t, a) && IsRow(r, t, b)
    ensures a == b
  {
    if t in r.targets {
      var i :| 0 <= i < |r.targets| && r.targets[i] == t;
      assert r.offsets[i] <= r.offsets[i + 1] <= |r.edges|;
      assert a == r.edges[r.offsets[i]..r.offsets[i + 1]] && b == r.edges[r.offsets[i]..r.offsets[i + 1]];
    }
  }

  /** Build, then look up: every target, present or absent, gets its edges ordered stably by source. */
  method BuildThenLookUp(pairs: seq<Link>, t: MemoryId) returns (row: seq<InEdge>)
    ensures row == IncomingSpec(pairs, t)
    ensures forall i, j :: 0 <= i < j < |row| ==> row[i].source <= row[j].source
  {
    var r := Build(pairs);
    row := Incoming(r, t);
    RowUnique(r, t, row, IncomingSpec(pairs, t));
    RowAscends(pairs, t);
  }

  lemma RowAscends(pairs: seq<Link>, t: MemoryId)
    ensures forall i, j :: 0 <= i < j < |IncomingSpec(pairs, t)| ==> IncomingSpec(pairs, t)[i].source <= IncomingSpec(pairs, t)[j].source
  {
    var row := IncomingSpec(pairs, t);
    SortIsStable(EdgesInto(pairs, t), SourceLe);
    forall i, j | 0 <= i < j < |row| ensures row[i].source <= row[j].source {
      assert SourceLe(row[i], row[j]);
    }
  }
}

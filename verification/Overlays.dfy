/** The kill map that folds and snapshots build from the segments' delete overlays
    (crates/mlake-index/src/indexer.rs:641-650, query_node.rs:372-385). */
module Overlays {
  import opened Memories
  import opened Wal
  import opened Lsm

  /** `kill[x]` is the highest `seqHi` among the segments whose overlay names `x`. */
  ghost predicate KillAt(kill: map<MemoryId, nat>, segs: seq<Segment>, x: MemoryId) {
    && (x in kill ==> exists s :: s in segs && x in s.tomb.superseded && s.seqHi == kill[x])
    && (forall s :: s in segs && x in s.tomb.superseded ==> x in kill && s.seqHi <= kill[x])
  }

  ghost predicate IsKillMap(kill: map<MemoryId, nat>, segs: seq<Segment>) {
    forall x :: KillAt(kill, segs, x)
  }

  lemma KillMapUnique(a: map<MemoryId, nat>, b: map<MemoryId, nat>, segs: seq<Segment>)
    requires IsKillMap(a, segs) && IsKillMap(b, segs)
    ensures a == b
  {
    forall x ensures (x in a <==> x in b) && (x in a ==> a[x] == b[x]) {
      assert KillAt(a, segs, x) && KillAt(b, segs, x);
    }
  }

  /** The map test used by readers and folds is the overlay test. */
  lemma KillMapSupersedes(kill: map<MemoryId, nat>, segs: seq<Segment>, x: MemoryId, hi: nat)
    requires IsKillMap(kill, segs)
    ensures (x in kill && kill[x] > hi) <==> Superseded(segs, x, hi)
  {
    assert KillAt(kill, segs, x);
    if Superseded(segs, x, hi) {
      var s :| s in segs && x in s.tomb.superseded && s.seqHi > hi;
    }
  }

  /** Raises the entries of one segment's overlay to its `seqHi`. */
  method RaiseKills(kill0: map<MemoryId, nat>, seg: Segment, ghost done: seq<Segment>) returns (kill: map<MemoryId, nat>)
    requires IsKillMap(kill0, done)
    ensures IsKillMap(kill, done + [seg])
  {
    kill := kill0;
    var ids := seg.tomb.superseded;
    while ids != {}
      invariant ids <= seg.tomb.superseded
      invariant kill.Keys == kill0.Keys + (seg.tomb.superseded - ids)
      invariant forall x :: x in kill ==> kill[x] == Raised(kill0, seg, x, x in seg.tomb.superseded && x !in ids)
      decreases ids
    {
      var x :| x in ids;
      var e := if x in kill then kill[x] else 0;
      kill := kill[x := if e < seg.seqHi then seg.seqHi else e];
      ids := ids - {x};
    }
    forall x ensures KillAt(kill, done + [seg], x) {
      RaisedIsKillMap(kill0, kill, seg, done, x);
    }
  }

  function Raised(kill: map<MemoryId, nat>, seg: Segment, x: MemoryId, named: bool): nat {
    var e := if x in kill then kill[x] else 0;
    if named && e < seg.seqHi then seg.seqHi else e
  }

  lemma RaisedIsKillMap(kill0: map<MemoryId, nat>, kill: map<MemoryId, nat>, seg: Segment, done: seq<Segment>, x: MemoryId)
    requires KillAt(kill0, done, x)
    requires x in kill <==> x in kill0 || x in seg.tomb.superseded
    requires x in kill ==> kill[x] == Raised(kill0, seg, x, x in seg.tomb.superseded)
    ensures KillAt(kill, done + [seg], x)
  {
    var all := done + [seg];
    assert forall s :: s in all <==> s in done || s == seg;
    if x in kill {
      if x in kill0 && kill[x] == kill0[x] {
        var s :| s in done && x in s.tomb.superseded && s.seqHi == kill0[x];
        assert s in all;
      } else {
        assert seg in all && seg.seqHi == kill[x];
      }
    }
  }

  /** One pass over the overlays: the kill map and the collected predicate deletes. */
  method BuildKillMap(segs: seq<Segment>) returns (kill: map<MemoryId, nat>, preds: seq<PredicateDelete>)
    ensures IsKillMap(kill, segs)
    ensures preds == AllPreds(segs)
  {
    kill, preds := map[], [];
    for i := 0 to |segs|
      invariant IsKillMap(kill, segs[..i])
      invariant preds == AllPreds(segs[..i])
    {
      kill := RaiseKills(kill, segs[i], segs[..i]);
      AllPredsConcat(segs[..i], [segs[i]]);
      assert segs[..i + 1] == segs[..i] + [segs[i]];
      assert AllPreds([segs[i]]) == segs[i].tomb.preds;
      preds := preds + segs[i].tomb.preds;
    }
    assert segs[..|segs|] == segs;
  }
}

/** Opening a snapshot, and the two cheap ways of reopening one
    (crates/mlake-index/src/query_node.rs:336-687). */
module Opening {
  import opened Memories
  import opened Wal
  import opened Lsm
  import opened Overlays
  import opened QueryNode

  /** Loaded form of the write-once segment objects, by segment id and type. */
  type Store = map<(nat, nat), SegmentState>

  predicate Indexed(seg: Segment, ft: nat) {
    exists x :: x in seg.docs && seg.docs[x].memoryType == ft
  }

  /** The objects of every listed segment are in the store. */
  ghost predicate StoreOk(store: Store, segs: seq<Segment>) {
    forall i, ft: nat :: 0 <= i < |segs| && Indexed(segs[i], ft) ==>
      (segs[i].id, ft) in store && Holds(store[(segs[i].id, ft)], segs[i], ft)
  }

  /** Every state a snapshot holds is the stored one of that id and type. */
  ghost predicate FromStore(n: Snapshot, store: Store) {
    forall ft, k :: ft in n.perType && 0 <= k < |n.perType[ft].segments| ==>
      var st := n.perType[ft].segments[k];
      (st.id, ft) in store && store[(st.id, ft)] == st
  }

  function SegmentTypes(segs: seq<Segment>): set<nat> {
    set s, x | s in segs && x in s.docs :: s.docs[x].memoryType
  }

  function ItemTypes(items: seq<StoredMemory>): set<nat> {
    set m | m in items :: m.memoryType
  }

  /** The loaded segments that index `ft`, newest first. */
  function Loaded(store: Store, segs: seq<Segment>, ft: nat): seq<SegmentState>
    requires StoreOk(store, segs)
  {
    if segs == [] then []
    else
      var n := |segs| - 1;
      assert StoreOk(store, segs[..n]);
      Loaded(store, segs[..n], ft) + if Indexed(segs[n], ft) then [store[(segs[n].id, ft)]] else []
  }

  function OfType(items: seq<StoredMemory>, ft: nat): seq<StoredMemory> {
    if items == [] then []
    else
      var n := |items| - 1;
      OfType(items[..n], ft) + if items[n].memoryType == ft then [items[n]] else []
  }

  /** `order` is the order in which the hash map of upserts happens to iterate. */
  ghost predicate Enumerates(order: seq<StoredMemory>, upserts: Docs) {
    && (forall i :: 0 <= i < |order| ==> order[i].id in upserts && upserts[order[i].id] == order[i])
    && (forall x :: x in upserts ==> upserts[x] in order)
    && DistinctIds(order)
  }

  /** What a snapshot of this manifest and tail is, down to the last field; `extra` are types that
      have neither a segment nor a tail item. */
  ghost predicate Opens(n: Snapshot, store: Store, segs: seq<Segment>, cursor: nat, scan: TailScan,
                        order: seq<StoredMemory>, head: nat, extra: set<nat>)
    requires StoreOk(store, segs)
  {
    && n.perType.Keys == SegmentTypes(segs) + ItemTypes(order) + extra
    && (forall ft :: ft in n.perType ==> n.perType[ft] == FactType(Loaded(store, segs, ft), OfType(order, ft)))
    && n.tombstones == scan.tombstones
    && IsKillMap(n.segSuperseded, segs)
    && n.preds == scan.preds + AllPreds(segs) && n.segPreds == AllPreds(segs)
    && n.throughSeq == head && n.cursor == cursor
  }

  /** The open is a function of manifest, head, store and iteration order alone. */
  lemma OpensUnique(a: Snapshot, b: Snapshot, store: Store, segs: seq<Segment>, cursor: nat, scan: TailScan,
                    order: seq<StoredMemory>, head: nat, extra: set<nat>)
    requires StoreOk(store, segs)
    requires Opens(a, store, segs, cursor, scan, order, head, extra) && Opens(b, store, segs, cursor, scan, order, head, extra)
    ensures a == b
  {
    KillMapUnique(a.segSuperseded, b.segSuperseded, segs);
    assert a.perType == b.perType;
  }

  // ---- An opened snapshot stands for its manifest and tail -------------------------------------

  lemma {:induction false} OfTypeFacts(items: seq<StoredMemory>, ft: nat)
    requires DistinctIds(items)
    ensures forall m :: m in OfType(items, ft) <==> m in items && m.memoryType == ft
    ensures DistinctIds(OfType(items, ft))
  {
    if items != [] {
      var n := |items| - 1;
      OfTypeFacts(items[..n], ft);
      var r := OfType(items[..n], ft);
      assert forall m :: m in items <==> m in items[..n] || m == items[n];
      forall i | 0 <= i < |r| ensures r[i].id != items[n].id {
        assert r[i] in items[..n];
        var k :| 0 <= k < n && items[..n][k] == r[i];
        assert items[k].id != items[n].id;
      }
      assert OfType(items, ft) == if items[n].memoryType == ft then r + [items[n]] else r;
    }
  }

  lemma TailPartition(order: seq<StoredMemory>, scan: TailScan, ft: nat)
    requires Enumerates(order, scan.upserts)
    ensures TailOf(OfType(order, ft), scan, ft)
  {
    OfTypeFacts(order, ft);
    var r := OfType(order, ft);
    forall i | 0 <= i < |r| ensures HasType(scan.upserts, r[i].id, ft) && scan.upserts[r[i].id] == r[i] {
      assert r[i] in order;
    }
    assert forall x :: HasType(scan.upserts, x, ft) ==> scan.upserts[x] in order;
  }

  /** `st` is the stored state of one of the segments that index `ft`. */
  ghost predicate StateOf(st: SegmentState, store: Store, seg: Segment, ft: nat) {
    Indexed(seg, ft) && (seg.id, ft) in store && st == store[(seg.id, ft)]
  }

  /** Where the `k`-th loaded state comes from. */
  lemma {:induction false} LoadedSource(store: Store, segs: seq<Segment>, ft: nat, k: nat) returns (i: nat)
    requires StoreOk(store, segs) && k < |Loaded(store, segs, ft)|
    ensures i < |segs| && StateOf(Loaded(store, segs, ft)[k], store, segs[i], ft)
    ensures Holds(Loaded(store, segs, ft)[k], segs[i], ft)
  {
    var n := |segs| - 1;
    assert StoreOk(store, segs[..n]);
    if k < |Loaded(store, segs[..n], ft)| {
      i := LoadedSource(store, segs[..n], ft, k);
    } else {
      i := n;
    }
  }

  lemma {:induction false} LoadedAll(store: Store, segs: seq<Segment>, ft: nat, i: nat) returns (k: nat)
    requires StoreOk(store, segs) && i < |segs| && Indexed(segs[i], ft)
    ensures k < |Loaded(store, segs, ft)| && Holds(Loaded(store, segs, ft)[k], segs[i], ft)
  {
    var n := |segs| - 1;
    assert StoreOk(store, segs[..n]);
    if i < n {
      k := LoadedAll(store, segs[..n], ft, i);
    } else {
      k := |Loaded(store, segs[..n], ft)|;
    }
  }

  lemma {:induction false} LoadedSorted(store: Store, segs: seq<Segment>, ft: nat, cursor: nat)
    requires StoreOk(store, segs) && SegsOk(segs, cursor)
    ensures Falling(Loaded(store, segs, ft))
  {
    if segs != [] {
      var n := |segs| - 1;
      var init := segs[..n];
      assert StoreOk(store, init) && SegsOk(init, cursor);
      LoadedSorted(store, init, ft, cursor);
      var r0 := Loaded(store, init, ft);
      if Indexed(segs[n], ft) {
        forall k | 0 <= k < |r0| ensures r0[k].seqHi > store[(segs[n].id, ft)].seqHi {
          var i := LoadedSource(store, init, ft, k);
          assert Shadows(segs[i], segs[n]);
          assert Holds(store[(segs[n].id, ft)], segs[n], ft);
        }
        assert Loaded(store, segs, ft) == r0 + [store[(segs[n].id, ft)]];
      } else {
        assert Loaded(store, segs, ft) == r0;
      }
    }
  }

  lemma LoadedType(store: Store, segs: seq<Segment>, cursor: nat, scan: TailScan, order: seq<StoredMemory>, ft: nat)
    requires StoreOk(store, segs) && SegsOk(segs, cursor) && Enumerates(order, scan.upserts)
    ensures TypeOk(FactType(Loaded(store, segs, ft), OfType(order, ft)), segs, scan, ft)
  {
    TailPartition(order, scan, ft);
    LoadedSorted(store, segs, ft, cursor);
    var r := Loaded(store, segs, ft);
    forall k | 0 <= k < |r| ensures exists i :: 0 <= i < |segs| && Holds(r[k], segs[i], ft) {
      var i := LoadedSource(store, segs, ft, k);
    }
    forall i, x | 0 <= i < |segs| && Indexes(segs[i], x, ft)
      ensures exists k :: 0 <= k < |r| && Holds(r[k], segs[i], ft)
    {
      var k := LoadedAll(store, segs, ft, i);
    }
  }

  /** However a snapshot was opened, it stands for its manifest's segments and its tail. */
  lemma OpensIsOk(n: Snapshot, store: Store, segs: seq<Segment>, cursor: nat, scan: TailScan,
                  order: seq<StoredMemory>, head: nat, extra: set<nat>)
    requires StoreOk(store, segs) && SegsOk(segs, cursor) && ScanOk(scan, cursor, head) && cursor <= head
    requires Enumerates(order, scan.upserts)
    requires Opens(n, store, segs, cursor, scan, order, head, extra)
    ensures SnapshotOk(n, segs, scan, cursor, head)
  {
    forall x, hi: nat
      ensures (x in n.segSuperseded && n.segSuperseded[x] > hi) <==> Lsm.Superseded(segs, x, hi)
    {
      KillMapSupersedes(n.segSuperseded, segs, x, hi);
    }
    forall ft | ft in n.perType ensures TypeOk(n.perType[ft], segs, scan, ft) {
      LoadedType(store, segs, cursor, scan, order, ft);
    }
    forall i, x | 0 <= i < |segs| && x in segs[i].docs ensures segs[i].docs[x].memoryType in n.perType {
      assert segs[i] in segs;
    }
    forall x | x in scan.upserts ensures scan.upserts[x].memoryType in n.perType {
      assert scan.upserts[x] in order;
    }
  }

  // ---- The three ways to open -------------------------------------------------------------------

  function Bucket(byType: map<nat, seq<StoredMemory>>, ft: nat): seq<StoredMemory> {
    if ft in byType then byType[ft] else []
  }

  ghost predicate Partitions(byType: map<nat, seq<StoredMemory>>, items: seq<StoredMemory>) {
    && byType.Keys == ItemTypes(items)
    && forall ft :: Bucket(byType, ft) == OfType(items, ft)
  }

  lemma PartitionStep(byType: map<nat, seq<StoredMemory>>, items: seq<StoredMemory>, m: StoredMemory)
    requires Partitions(byType, items)
    ensures Partitions(byType[m.memoryType := Bucket(byType, m.memoryType) + [m]], items + [m])
  {
    var all := items + [m];
    var next := byType[m.memoryType := Bucket(byType, m.memoryType) + [m]];
    assert all[..|items|] == items;
    assert forall x :: x in all <==> x in items || x == m;
    forall ft ensures Bucket(next, ft) == OfType(all, ft) {
      assert Bucket(byType, ft) == OfType(items, ft);
    }
  }

  /** The tail's items by type. */
  method PartitionTail(order: seq<StoredMemory>) returns (byType: map<nat, seq<StoredMemory>>)
    ensures Partitions(byType, order)
  {
    byType := map[];
    for i := 0 to |order|
      invariant Partitions(byType, order[..i])
    {
      PartitionStep(byType, order[..i], order[i]);
      assert order[..i + 1] == order[..i] + [order[i]];
      byType := byType[order[i].memoryType := Bucket(byType, order[i].memoryType) + [order[i]]];
    }
    assert order[..|order|] == order;
  }

  /** Loads one type's segments newest-first, taking a reusable state where there is one. */
  method LoadType(store: Store, segs: seq<Segment>, ft: nat, reuse: Store)
    returns (states: seq<SegmentState>, newly: seq<(nat, nat)>)
    requires StoreOk(store, segs)
    requires forall k :: k in reuse ==> k in store && reuse[k] == store[k]
    ensures states == Loaded(store, segs, ft)
    ensures forall k :: k in newly ==> k !in reuse && k.1 == ft
  {
    states, newly := [], [];
    for i := 0 to |segs|
      invariant StoreOk(store, segs[..i])
      invariant states == Loaded(store, segs[..i], ft)
      invariant forall k :: k in newly ==> k !in reuse && k.1 == ft
    {
      assert segs[..i + 1][..i] == segs[..i];
      if Indexed(segs[i], ft) {
        var key := (segs[i].id, ft);
        if key in reuse {
          states := states + [reuse[key]];
        } else {
          states := states + [store[key]];
          newly := newly + [key];
        }
      }
    }
    assert segs[..|segs|] == segs;
  }

  lemma OpensFromStore(n: Snapshot, store: Store, segs: seq<Segment>, cursor: nat, scan: TailScan,
                       order: seq<StoredMemory>, head: nat, extra: set<nat>)
    requires StoreOk(store, segs) && Opens(n, store, segs, cursor, scan, order, head, extra)
    ensures FromStore(n, store)
  {
    forall ft, k | ft in n.perType && 0 <= k < |n.perType[ft].segments|
      ensures var st := n.perType[ft].segments[k]; (st.id, ft) in store && store[(st.id, ft)] == st
    {
      var i := LoadedSource(store, segs, ft, k);
    }
  }

  /** Opens a snapshot; whatever is reused, the result is the one a fresh open gives. */
  method OpenWithReuse(store: Store, segs: seq<Segment>, cursor: nat, scan: TailScan, order: seq<StoredMemory>, head: nat,
                       reuse: Store)
    returns (n: Snapshot, newly: seq<(nat, nat)>)
    requires StoreOk(store, segs)
    requires forall k :: k in reuse ==> k in store && reuse[k] == store[k]
    ensures Opens(n, store, segs, cursor, scan, order, head, {})
    ensures FromStore(n, store)
    ensures forall k :: k in newly ==> k !in reuse
  {
    var byType := PartitionTail(order);
    var kill, segPreds := BuildKillMap(segs);
    var types := SegmentTypes(segs) + byType.Keys;
    var perType: map<nat, FactType> := map[];
    newly := [];
    ghost var all := types;
    while types != {}
      invariant types <= all && perType.Keys == all - types
      invariant forall ft :: ft in perType ==> perType[ft] == FactType(Loaded(store, segs, ft), OfType(order, ft))
      invariant forall k :: k in newly ==> k !in reuse
      decreases types
    {
      var ft :| ft in types;
      var states, more := LoadType(store, segs, ft, reuse);
      perType := perType[ft := FactType(states, Bucket(byType, ft))];
      newly := newly + more;
      types := types - {ft};
    }
    n := Snapshot(perType, scan.tombstones, kill, scan.preds + segPreds, segPreds, head, cursor);
    OpensFromStore(n, store, segs, cursor, scan, order, head, {});
  }

  /** The states of a snapshot by id and type. */
  method CollectReuse(n: Snapshot, ghost store: Store) returns (reuse: Store)
    requires FromStore(n, store)
    ensures forall k :: k in reuse ==> k in store && reuse[k] == store[k]
    ensures forall ft, k :: ft in n.perType && 0 <= k < |n.perType[ft].segments| ==> (n.perType[ft].segments[k].id, ft) in reuse
  {
    reuse := map[];
    var types := n.perType.Keys;
    while types != {}
      invariant types <= n.perType.Keys
      invariant forall k :: k in reuse ==> k in store && reuse[k] == store[k]
      invariant forall ft, k :: ft in n.perType && ft !in types && 0 <= k < |n.perType[ft].segments| ==>
                  (n.perType[ft].segments[k].id, ft) in reuse
      decreases types
    {
      var ft :| ft in types;
      var states := n.perType[ft].segments;
      ghost var before := reuse;
      for i := 0 to |states|
        invariant forall k :: k in reuse ==> k in store && reuse[k] == store[k]
        invariant before.Keys <= reuse.Keys
        invariant forall k :: 0 <= k < i ==> (states[k].id, ft) in reuse
      {
        reuse := reuse[(states[i].id, ft) := states[i]];
      }
      types := types - {ft};
    }
  }

  /** After a fold, a reopened snapshot equals the fresh open of the new manifest field by field. */
  method ReopenAfterFold(previous: Snapshot, store: Store, segs: seq<Segment>, cursor: nat, scan: TailScan,
                         order: seq<StoredMemory>, head: nat)
    returns (n: Snapshot, newly: seq<(nat, nat)>)
    requires StoreOk(store, segs) && FromStore(previous, store)
    ensures Opens(n, store, segs, cursor, scan, order, head, {}) && FromStore(n, store)
    ensures forall ft, k :: ft in previous.perType && 0 <= k < |previous.perType[ft].segments| ==>
              (previous.perType[ft].segments[k].id, ft) !in newly
  {
    var reuse := CollectReuse(previous, store);
    n, newly := OpenWithReuse(store, segs, cursor, scan, order, head, reuse);
  }

  /** Same manifest, longer tail: segments and segment overlays are kept, the tail is rebuilt. Types
      that only the old tail had stay behind, empty. */
  method ReopenExtendingTail(previous: Snapshot, scan: TailScan, order: seq<StoredMemory>, head: nat,
                             ghost store: Store, ghost segs: seq<Segment>, ghost scan0: TailScan, ghost order0: seq<StoredMemory>,
                             ghost extra0: set<nat>)
    returns (n: Snapshot)
    requires StoreOk(store, segs)
    requires Opens(previous, store, segs, previous.cursor, scan0, order0, previous.throughSeq, extra0)
    ensures Opens(n, store, segs, previous.cursor, scan, order, head, previous.perType.Keys)
  {
    var byType := PartitionTail(order);
    var types := previous.perType.Keys + byType.Keys;
    var perType: map<nat, FactType> := map[];
    ghost var all := types;
    while types != {}
      invariant types <= all && perType.Keys == all - types
      invariant forall ft :: ft in perType ==> perType[ft] == FactType(Loaded(store, segs, ft), OfType(order, ft))
      decreases types
    {
      var ft :| ft in types;
      var states := if ft in previous.perType then previous.perType[ft].segments else [];
      if ft !in previous.perType { NotLoaded(store, segs, ft); }
      perType := perType[ft := FactType(states, Bucket(byType, ft))];
      types := types - {ft};
    }
    n := Snapshot(perType, scan.tombstones, previous.segSuperseded, scan.preds + previous.segPreds, previous.segPreds, head, previous.cursor);
  }

  lemma {:induction false} NotLoaded(store: Store, segs: seq<Segment>, ft: nat)
    requires StoreOk(store, segs) && ft !in SegmentTypes(segs)
    ensures Loaded(store, segs, ft) == []
  {
    if segs != [] {
      var n := |segs| - 1;
      assert StoreOk(store, segs[..n]);
      assert segs[n] in segs && forall s :: s in segs[..n] ==> s in segs;
      assert !Indexed(segs[n], ft);
      NotLoaded(store, segs[..n], ft);
    }
  }

  /** A type as a read sees it; a type that is not there reads like an empty one. */
  function TypeState(n: Snapshot, ft: nat): FactType {
    if ft in n.perType then n.perType[ft] else FactType([], [])
  }

  lemma {:induction false} NoneOfType(order: seq<StoredMemory>, ft: nat)
    requires ft !in ItemTypes(order)
    ensures OfType(order, ft) == []
  {
    if order != [] {
      var n := |order| - 1;
      assert order[n] in order && forall m :: m in order[..n] ==> m in order;
      NoneOfType(order[..n], ft);
    }
  }

  /** All ways of opening one manifest at one head agree on every type and every overlay, so every
      read agrees; they can differ only in which empty types they list. */
  lemma ReopenedReadsAlike(a: Snapshot, b: Snapshot, store: Store, segs: seq<Segment>, cursor: nat, scan: TailScan,
                           order: seq<StoredMemory>, head: nat, extraA: set<nat>, extraB: set<nat>)
    requires StoreOk(store, segs)
    requires Opens(a, store, segs, cursor, scan, order, head, extraA)
    requires Opens(b, store, segs, cursor, scan, order, head, extraB)
    ensures forall ft :: TypeState(a, ft) == TypeState(b, ft)
    ensures a.(perType := map[]) == b.(perType := map[])
  {
    KillMapUnique(a.segSuperseded, b.segSuperseded, segs);
    forall ft ensures TypeState(a, ft) == TypeState(b, ft) {
      if ft !in a.perType || ft !in b.perType {
        NotLoaded(store, segs, ft);
        NoneOfType(order, ft);
      }
    }
  }
}

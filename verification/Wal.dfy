/** The write-ahead log: its operations, sequential replay (the specification of what a namespace
    holds) and the tail fold that readers and the indexer run over the un-indexed slice
    (crates/mlake-core/src/wal.rs, crates/mlake-wal/src/tail.rs). */
module Wal {
  import opened Memories
  import Tags

  datatype Op =
    | Upsert(item: StoredMemory)
    | Tombstone(id: MemoryId)
    | Patch(id: MemoryId, deltas: seq<Delta>)
    | TombstoneWhere(pred: Predicate)
    | Guard(expectSeqLt: nat)

  datatype Entry = Entry(at: nat, ops: seq<Op>)

  /** One operation together with the sequence of the entry that carries it. */
  datatype Event = Event(at: nat, op: Op) {
    /** An upsert or a tombstone of `x`: the operations that replace everything known of `x`. */
    predicate BaseOn(x: MemoryId) {
      || (op.Upsert? && op.item.id == x)
      || (op.Tombstone? && op.id == x)
    }

    function Delete(): PredicateDelete
      requires op.TombstoneWhere?
    {
      PredicateDelete(at, op.pred)
    }

    function Written(): StoredMemory
      requires op.Upsert?
    {
      op.item.(writeSeq := at)
    }
  }

  type Docs = map<MemoryId, StoredMemory>

  function EntryEvents(at: nat, ops: seq<Op>): (r: seq<Event>)
    ensures |r| == |ops|
    ensures forall i :: 0 <= i < |ops| ==> r[i] == Event(at, ops[i])
  {
    seq(|ops|, i requires 0 <= i < |ops| => Event(at, ops[i]))
  }

  function Flatten(entries: seq<Entry>): seq<Event> {
    if entries == [] then []
    else
      var n := |entries| - 1;
      Flatten(entries[..n]) + EntryEvents(entries[n].at, entries[n].ops)
  }

  /** A log is well formed when its entries carry strictly increasing sequences; gaps are allowed. */
  ghost predicate LogOk(log: seq<Entry>) {
    forall i, j :: 0 <= i < j < |log| ==> log[i].at < log[j].at
  }

  ghost predicate PatchFree(evs: seq<Event>) {
    forall i :: 0 <= i < |evs| ==> !evs[i].op.Patch?
  }

  ghost predicate Ordered(evs: seq<Event>) {
    forall i, j :: 0 <= i <= j < |evs| ==> evs[i].at <= evs[j].at
  }

  /** Every memory of `docs` was written before every event of `evs`. */
  ghost predicate WrittenBefore(docs: Docs, evs: seq<Event>) {
    forall x, i :: x in docs && 0 <= i < |evs| ==> docs[x].writeSeq < evs[i].at
  }

  ghost predicate Keyed(docs: Docs) {
    forall x :: x in docs ==> docs[x].id == x
  }

  // ---- Sequential replay -------------------------------------------------------------------

  function Without(docs: Docs, preds: seq<PredicateDelete>): (r: Docs)
  {
    map x | x in docs && !KilledByAny(preds, docs[x]) :: docs[x]
  }

  function ApplyEvent(docs: Docs, e: Event): Docs {
    match e.op
    case Upsert(item) => docs[item.id := e.Written()]
    case Tombstone(id) => docs - {id}
    case Patch(id, ds) => if id in docs then docs[id := ApplyDeltas(docs[id], ds)] else docs
    case TombstoneWhere(p) => Without(docs, [e.Delete()])
    case Guard(_) => docs
  }

  /** What the namespace holds after `evs`, applied one by one to `docs`. */
  function ReplayFrom(docs: Docs, evs: seq<Event>): Docs {
    if evs == [] then docs
    else
      var n := |evs| - 1;
      ApplyEvent(ReplayFrom(docs, evs[..n]), evs[n])
  }

  function Replay(log: seq<Entry>): Docs {
    ReplayFrom(map[], Flatten(log))
  }

  // ---- The tail fold -----------------------------------------------------------------------

  /** Current state of the un-indexed slice. `tombstones` is a duplicate-free list used only for
      membership, hence a set. */
  datatype TailScan = TailScan(
    upserts: Docs,
    tombstones: set<MemoryId>,
    pending: map<MemoryId, seq<Delta>>,
    preds: seq<PredicateDelete>)

  const EMPTY_SCAN := TailScan(map[], {}, map[], [])

  function StepTail(s: TailScan, e: Event): TailScan {
    match e.op
    case Upsert(item) =>
      TailScan(s.upserts[item.id := e.Written()], s.tombstones - {item.id}, s.pending - {item.id}, s.preds)
    case Tombstone(id) =>
      TailScan(s.upserts - {id}, s.tombstones + {id}, s.pending - {id}, s.preds)
    case Patch(id, ds) =>
      if id in s.tombstones then s
      else if id in s.upserts then s.(upserts := s.upserts[id := ApplyDeltas(s.upserts[id], ds)])
      else s.(pending := s.pending[id := (if id in s.pending then s.pending[id] else []) + ds])
    case TombstoneWhere(p) =>
      s.(upserts := Without(s.upserts, [e.Delete()]), preds := s.preds + [e.Delete()])
    case Guard(_) => s
  }

  function FoldTail(evs: seq<Event>): TailScan {
    if evs == [] then EMPTY_SCAN
    else
      var n := |evs| - 1;
      StepTail(FoldTail(evs[..n]), evs[n])
  }

  lemma FoldSnoc(evs: seq<Event>, e: Event)
    ensures FoldTail(evs + [e]) == StepTail(FoldTail(evs), e)
  {
    assert (evs + [e])[..|evs|] == evs;
  }

  /** The fold as the source runs it: two nested loops over a mutable scan. */
  method FoldEntries(entries: seq<Entry>) returns (scan: TailScan)
    ensures scan == FoldTail(Flatten(entries))
  {
    scan := EMPTY_SCAN;
    for i := 0 to |entries|
      invariant scan == FoldTail(Flatten(entries[..i]))
    {
      scan := FoldOps(scan, entries[i], Flatten(entries[..i]));
      assert entries[..i + 1][..i] == entries[..i];
    }
    assert entries[..|entries|] == entries;
  }

  method FoldOps(scan0: TailScan, entry: Entry, ghost done: seq<Event>) returns (scan: TailScan)
    requires scan0 == FoldTail(done)
    ensures scan == FoldTail(done + EntryEvents(entry.at, entry.ops))
  {
    scan := scan0;
    ghost var evs := EntryEvents(entry.at, entry.ops);
    assert done + evs[..0] == done;
    for j := 0 to |entry.ops|
      invariant scan == FoldTail(done + evs[..j])
    {
      var e := Event(entry.at, entry.ops[j]);
      FoldSnoc(done + evs[..j], e);
      assert done + evs[..j + 1] == done + evs[..j] + [e];
      scan := StepTail(scan, e);
    }
    assert evs[..|evs|] == evs;
  }

  // ---- What the tail fold computes ---------------------------------------------------------

  /** Index of the last upsert or tombstone of `x`, or -1. */
  function LastBase(evs: seq<Event>, x: MemoryId): (i: int)
    ensures -1 <= i < |evs|
    ensures i >= 0 ==> evs[i].BaseOn(x)
    ensures forall j :: i < j < |evs| ==> !evs[j].BaseOn(x)
  {
    if evs == [] then -1
    else
      var n := |evs| - 1;
      if evs[n].BaseOn(x) then n else LastBase(evs[..n], x)
  }

  /** The delete at `j` hits what the upsert at `i` wrote. */
  ghost predicate DeletesWrite(evs: seq<Event>, i: int, j: int)
    requires 0 <= i < j < |evs| && evs[i].op.Upsert?
  {
    evs[j].op.TombstoneWhere? && evs[j].Delete().Kills(evs[i].Written())
  }

  /** The slice upserts `x`, never names it again, and then deletes that write by predicate. */
  ghost predicate Dropped(evs: seq<Event>, x: MemoryId) {
    var i := LastBase(evs, x);
    && i >= 0
    && evs[i].op.Upsert?
    && exists j :: i < j < |evs| && DeletesWrite(evs, i, j)
  }

  /** How a fold applies a scan to the documents already indexed
      (crates/mlake-index/src/indexer.rs:681-698): tombstones, then upserts, then predicates. */
  function Overlay(docs: Docs, s: TailScan): Docs {
    Without(docs - s.tombstones + s.upserts, s.preds)
  }

  /** Nothing the slice drops can come back: an indexed copy of a dropped id is itself deleted by
      one of the slice's predicates. */
  ghost predicate Clean(docs: Docs, evs: seq<Event>) {
    forall x :: x in docs && Dropped(evs, x) ==> KilledByAny(FoldTail(evs).preds, docs[x])
  }

  lemma LastBaseAppend(evs: seq<Event>, e: Event, x: MemoryId)
    ensures LastBase(evs + [e], x) == if e.BaseOn(x) then |evs| else LastBase(evs, x)
  {
    assert (evs + [e])[..|evs|] == evs;
  }

  lemma DroppedAppend(evs: seq<Event>, e: Event, x: MemoryId)
    ensures e.BaseOn(x) ==> !Dropped(evs + [e], x)
    ensures !e.BaseOn(x) ==>
              var i := LastBase(evs, x);
              Dropped(evs + [e], x) <==>
              Dropped(evs, x) || (i >= 0 && evs[i].op.Upsert? && e.op.TombstoneWhere? && e.Delete().Kills(evs[i].Written()))
  {
    LastBaseAppend(evs, e, x);
    if !e.BaseOn(x) {
      var i := LastBase(evs, x);
      if i >= 0 && evs[i].op.Upsert? {
        assert forall j :: i < j < |evs| ==> (DeletesWrite(evs + [e], i, j) <==> DeletesWrite(evs, i, j));
        if e.op.TombstoneWhere? && e.Delete().Kills(evs[i].Written()) {
          assert DeletesWrite(evs + [e], i, |evs|);
        }
      }
    }
  }

  /** The four mutually exclusive things a patch-free slice can say about `x`. */
  ghost predicate TailFacts(docs: Docs, evs: seq<Event>, x: MemoryId) {
    var s := FoldTail(evs);
    var r := ReplayFrom(docs, evs);
    var i := LastBase(evs, x);
    && (x in s.upserts <==> i >= 0 && evs[i].op.Upsert? && !Dropped(evs, x))
    && (x in s.tombstones <==> i >= 0 && evs[i].op.Tombstone?)
    && (x in s.upserts ==> x in r && r[x] == s.upserts[x] == evs[i].Written())
    && (i >= 0 && x !in s.upserts ==> x !in r)
    && (i < 0 ==> (x in r <==> x in docs && !KilledByAny(s.preds, docs[x])))
    && (i < 0 && x in r ==> r[x] == docs[x])
  }

  lemma {:induction false} TailFactsHold(docs: Docs, evs: seq<Event>, x: MemoryId)
    requires PatchFree(evs)
    ensures TailFacts(docs, evs, x)
  {
    if evs != [] {
      var n := |evs| - 1;
      var init, e := evs[..n], evs[n];
      assert evs == init + [e];
      TailFactsHold(docs, init, x);
      LastBaseAppend(init, e, x);
      DroppedAppend(init, e, x);
      TailFactsStep(docs, init, e, x);
    }
  }

  lemma TailFactsStep(docs: Docs, init: seq<Event>, e: Event, x: MemoryId)
    requires TailFacts(docs, init, x) && !e.op.Patch?
    requires LastBase(init + [e], x) == if e.BaseOn(x) then |init| else LastBase(init, x)
    requires e.BaseOn(x) ==> !Dropped(init + [e], x)
    requires !e.BaseOn(x) ==>
               var i := LastBase(init, x);
               Dropped(init + [e], x) <==>
               Dropped(init, x) || (i >= 0 && init[i].op.Upsert? && e.op.TombstoneWhere? && e.Delete().Kills(init[i].Written()))
    ensures TailFacts(docs, init + [e], x)
  {
    var evs := init + [e];
    assert evs[..|init|] == init;
    var s0, s1 := FoldTail(init), FoldTail(evs);
    assert s1 == StepTail(s0, e);
    assert ReplayFrom(docs, evs) == ApplyEvent(ReplayFrom(docs, init), e);
    if e.op.TombstoneWhere? {
      var d := e.Delete();
      SingleDelete(d);
      if x in docs { KilledAppend(s0.preds, [d], docs[x]); }
    }
  }

  lemma SingleDelete(d: PredicateDelete)
    ensures forall m :: KilledByAny([d], m) <==> d.Kills(m)
  {
    assert d in [d];
  }

  lemma KilledAppend(a: seq<PredicateDelete>, b: seq<PredicateDelete>, m: StoredMemory)
    ensures KilledByAny(a + b, m) <==> KilledByAny(a, m) || KilledByAny(b, m)
  {
    assert forall p :: p in a + b <==> p in a || p in b;
  }

  /** The predicates of a scan are exactly the predicate deletes of the slice. */
  lemma {:induction false} PredsAreDeletes(evs: seq<Event>, p: PredicateDelete)
    ensures p in FoldTail(evs).preds <==>
            exists j :: 0 <= j < |evs| && evs[j].op.TombstoneWhere? && evs[j].Delete() == p
  {
    if evs != [] {
      var n := |evs| - 1;
      PredsAreDeletes(evs[..n], p);
      assert forall j :: 0 <= j < n ==> evs[..n][j] == evs[j];
      if exists j :: 0 <= j < n && evs[j].op.TombstoneWhere? && evs[j].Delete() == p {
        var j :| 0 <= j < n && evs[j].op.TombstoneWhere? && evs[j].Delete() == p;
        assert evs[..n][j].op.TombstoneWhere? && evs[..n][j].Delete() == p;
      }
    }
  }

  /** No predicate of the slice hides an upsert the scan still carries. */
  lemma UpsertsSurvive(evs: seq<Event>, x: MemoryId)
    requires PatchFree(evs) && Ordered(evs)
    requires x in FoldTail(evs).upserts
    ensures !KilledByAny(FoldTail(evs).preds, FoldTail(evs).upserts[x])
  {
    var s := FoldTail(evs);
    TailFactsHold(map[], evs, x);
    var i := LastBase(evs, x);
    forall p | p in s.preds ensures !p.Kills(s.upserts[x]) {
      PredsAreDeletes(evs, p);
      var j :| 0 <= j < |evs| && evs[j].op.TombstoneWhere? && evs[j].Delete() == p;
      if j > i {
        assert !DeletesWrite(evs, i, j);
      } else {
        assert evs[j].at <= evs[i].at;
      }
    }
  }

  /** A write re-ingested in the same entry as the bulk delete that clears its predecessors survives. */
  lemma SameEntryUpsertSurvives(docs: Docs, evs: seq<Event>, x: MemoryId)
    requires PatchFree(evs) && LastBase(evs, x) >= 0 && evs[LastBase(evs, x)].op.Upsert?
    requires forall j :: LastBase(evs, x) < j < |evs| && evs[j].op.TombstoneWhere? ==> evs[j].at == evs[LastBase(evs, x)].at
    ensures x in ReplayFrom(docs, evs) && ReplayFrom(docs, evs)[x] == evs[LastBase(evs, x)].Written()
    ensures x in FoldTail(evs).upserts
  {
    TailFactsHold(docs, evs, x);
  }

  lemma OverlayAt(docs: Docs, evs: seq<Event>, x: MemoryId)
    requires PatchFree(evs) && Ordered(evs)
    ensures var o := Overlay(docs, FoldTail(evs));
            var r := ReplayFrom(docs, evs);
            && (x in r ==> x in o && o[x] == r[x])
            && (x in o && x !in r <==>
                Dropped(evs, x) && x in docs && !KilledByAny(FoldTail(evs).preds, docs[x]))
  {
    TailFactsHold(docs, evs, x);
    if x in FoldTail(evs).upserts {
      UpsertsSurvive(evs, x);
    }
  }

  /** The scan applied to the indexed documents is what replay holds, except that a dropped write
      uncovers the indexed copy it had replaced. Equality holds exactly on clean slices. */
  lemma OverlayIsReplayIffClean(docs: Docs, evs: seq<Event>)
    requires PatchFree(evs) && Ordered(evs)
    ensures Overlay(docs, FoldTail(evs)) == ReplayFrom(docs, evs) <==> Clean(docs, evs)
  {
    var o, r := Overlay(docs, FoldTail(evs)), ReplayFrom(docs, evs);
    forall x ensures (x in r ==> x in o && o[x] == r[x]) && (x in o && x !in r <==>
                     Dropped(evs, x) && x in docs && !KilledByAny(FoldTail(evs).preds, docs[x])) {
      OverlayAt(docs, evs, x);
    }
    if Clean(docs, evs) {
      assert forall x :: x in o <==> x in r;
    }
  }

  /** Whatever the cuts, folding everything from an empty index is replay. */
  lemma FirstFoldIsReplay(evs: seq<Event>)
    requires PatchFree(evs) && Ordered(evs)
    ensures Overlay(map[], FoldTail(evs)) == ReplayFrom(map[], evs)
  {
    OverlayIsReplayIffClean(map[], evs);
  }

  /** The failing family is not empty: an indexed memory of type 1, re-written as type 2 and then
      deleted by a predicate on type 2 within one slice, comes back as type 1. */
  lemma DroppedWriteResurrects()
    ensures exists docs: Docs, evs: seq<Event> ::
              && PatchFree(evs) && Ordered(evs) && WrittenBefore(docs, evs) && Keyed(docs)
              && 7 in Overlay(docs, FoldTail(evs)) && 7 !in ReplayFrom(docs, evs)
  {
    var ts := Timestamps(None, None, None, None, None);
    var indexed := StoredMemory(7, 1, [], ts, 0, {}, [], "old", 0, 1);
    var rewritten := StoredMemory(7, 2, [], ts, 0, {}, [], "new", 0, 0);
    var pred := Predicate([2], [], [], Tags.Any, None, None);
    var docs: Docs := map[7 := indexed];
    var evs := [Event(2, Upsert(rewritten)), Event(3, TombstoneWhere(pred))];
    assert !pred.Matches(indexed) && pred.Matches(rewritten.(writeSeq := 2));
    assert evs[..1] == [evs[0]] && evs[..1][..0] == [];
    assert LastBase(evs, 7) == 0;
    assert DeletesWrite(evs, 0, 1);
    var s := FoldTail(evs);
    assert FoldTail(evs[..1]) == StepTail(EMPTY_SCAN, evs[0]);
    assert s.preds == [evs[1].Delete()];
    OverlayAt(docs, evs, 7);
  }
}

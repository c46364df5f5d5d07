/** Slices of the log that hold patches: what the tail fold makes of them, event by event
    (crates/mlake-wal/src/tail.rs:183-241), and when a fold over them is replay. */
module PatchedTail {
  import opened Memories
  import opened Sorting
  import opened Patching
  import opened Wal
  import opened Lsm
  import opened Streaming

  // ---- The patches of one id -----------------------------------------------------------------------

  /** The deltas of every patch of `x`, in order. */
  function DeltasOf(evs: seq<Event>, x: MemoryId): seq<Delta> {
    if evs == [] then []
    else
      var n := |evs| - 1;
      DeltasOf(evs[..n], x) + if evs[n].op.Patch? && evs[n].op.id == x then evs[n].op.deltas else []
  }

  ghost predicate HasPatch(evs: seq<Event>, x: MemoryId) {
    exists i :: 0 <= i < |evs| && evs[i].op.Patch? && evs[i].op.id == x
  }

  lemma HasPatchSnoc(evs: seq<Event>, e: Event, x: MemoryId)
    ensures HasPatch(evs + [e], x) <==> HasPatch(evs, x) || (e.op.Patch? && e.op.id == x)
    ensures DeltasOf(evs + [e], x) == DeltasOf(evs, x) + if e.op.Patch? && e.op.id == x then e.op.deltas else []
  {
    var r := evs + [e];
    assert r[..|evs|] == evs;
    if HasPatch(evs, x) {
      var i :| 0 <= i < |evs| && evs[i].op.Patch? && evs[i].op.id == x;
      assert r[i] == evs[i];
    }
    if e.op.Patch? && e.op.id == x { assert r[|evs|] == e; }
  }

  /** What has happened to `x` after position `i`. */
  function After(evs: seq<Event>, i: int): seq<Event>
    requires -1 <= i < |evs|
  {
    evs[i + 1..]
  }

  /** The write of `x` at `i` as it stands at the end, patches included. */
  function Standing(evs: seq<Event>, i: nat, x: MemoryId): StoredMemory
    requires i < |evs| && evs[i].op.Upsert?
  {
    ApplyDeltas(evs[i].Written(), DeltasOf(After(evs, i), x))
  }

  /** The delete at `j` hits the write of `x` at `i` as it then stands. */
  ghost predicate HitsAt(evs: seq<Event>, i: nat, j: nat, x: MemoryId)
    requires i < j < |evs| && evs[i].op.Upsert?
  {
    evs[j].op.TombstoneWhere? && evs[j].Delete().Kills(Standing(evs[..j], i, x))
  }

  /** `j` is where the last write of `x` is first deleted. */
  ghost predicate DropsAt(evs: seq<Event>, x: MemoryId, j: nat)
    requires j < |evs|
  {
    var i := LastBase(evs, x);
    && 0 <= i < j && evs[i].op.Upsert? && HitsAt(evs, i, j, x)
    && forall k :: i < k < j ==> !HitsAt(evs, i, k, x)
  }

  ghost predicate Survives(evs: seq<Event>, x: MemoryId) {
    var i := LastBase(evs, x);
    i >= 0 && evs[i].op.Upsert? && forall k :: i < k < |evs| ==> !HitsAt(evs, i, k, x)
  }

  /** What a slice's scan says about `x` as written or deleted, read off the events. */
  ghost predicate BaseFacts(s: TailScan, evs: seq<Event>, x: MemoryId) {
    var i := LastBase(evs, x);
    && (x in s.tombstones <==> i >= 0 && evs[i].op.Tombstone?)
    && (x in s.upserts <==> Survives(evs, x))
    && (x in s.upserts ==> s.upserts[x] == Standing(evs, i, x))
  }

  /** The patches kept for `x` are those of `part`, in order. */
  ghost predicate Keeps(s: TailScan, x: MemoryId, part: seq<Event>) {
    && (x in s.pending <==> HasPatch(part, x))
    && (x in s.pending ==> s.pending[x] == DeltasOf(part, x))
  }

  /** And about the patches of `x` that found nothing to apply to. */
  ghost predicate PendingFacts(s: TailScan, evs: seq<Event>, x: MemoryId) {
    var i := LastBase(evs, x);
    && (i < 0 ==> Keeps(s, x, evs))
    && (i >= 0 && evs[i].op.Tombstone? ==> x !in s.pending)
    && (Survives(evs, x) ==> x !in s.pending)
    && (forall j :: 0 <= j < |evs| && DropsAt(evs, x, j) ==> Keeps(s, x, After(evs, j)))
  }

  ghost predicate ScanFacts(evs: seq<Event>, x: MemoryId) {
    BaseFacts(FoldTail(evs), evs, x) && PendingFacts(FoldTail(evs), evs, x)
  }

  // ---- One more event ---------------------------------------------------------------------------------

  lemma AfterSnoc(evs: seq<Event>, e: Event, i: int)
    requires -1 <= i < |evs|
    ensures After(evs + [e], i) == After(evs, i) + [e]
  {
  }

  lemma StandingSnoc(evs: seq<Event>, e: Event, i: nat, x: MemoryId)
    requires i < |evs| && evs[i].op.Upsert?
    ensures Standing(evs + [e], i, x) ==
            if e.op.Patch? && e.op.id == x then ApplyDeltas(Standing(evs, i, x), e.op.deltas) else Standing(evs, i, x)
  {
    AfterSnoc(evs, e, i);
    HasPatchSnoc(After(evs, i), e, x);
    ApplyConcat(evs[i].Written(), DeltasOf(After(evs, i), x), if e.op.Patch? && e.op.id == x then e.op.deltas else []);
    assert ApplyDeltas(Standing(evs, i, x), []) == Standing(evs, i, x);
  }

  lemma HitsSnoc(evs: seq<Event>, e: Event, i: nat, j: nat, x: MemoryId)
    requires i < j < |evs| && evs[i].op.Upsert?
    ensures HitsAt(evs + [e], i, j, x) <==> HitsAt(evs, i, j, x)
  {
    assert (evs + [e])[..j] == evs[..j];
  }

  lemma NewHit(evs: seq<Event>, e: Event, i: nat, x: MemoryId)
    requires i < |evs| && evs[i].op.Upsert?
    ensures HitsAt(evs + [e], i, |evs|, x) <==> e.op.TombstoneWhere? && e.Delete().Kills(Standing(evs, i, x))
  {
    assert (evs + [e])[..|evs|] == evs;
  }

  /** How survival and the place of the drop change with an event that is not a base of `x`. */
  lemma SurvivalSnoc(evs: seq<Event>, e: Event, x: MemoryId)
    requires !e.BaseOn(x)
    ensures var i := LastBase(evs, x);
            && (Survives(evs + [e], x) <==>
                Survives(evs, x) && !(e.op.TombstoneWhere? && e.Delete().Kills(Standing(evs, i, x))))
            && (DropsAt(evs + [e], x, |evs|) <==>
                Survives(evs, x) && e.op.TombstoneWhere? && e.Delete().Kills(Standing(evs, i, x)))
    ensures forall j :: 0 <= j < |evs| ==> (DropsAt(evs + [e], x, j) <==> DropsAt(evs, x, j))
  {
    LastBaseAppend(evs, e, x);
    var i := LastBase(evs, x);
    if i >= 0 && evs[i].op.Upsert? {
      forall j | i < j < |evs| ensures HitsAt(evs + [e], i, j, x) <==> HitsAt(evs, i, j, x) { HitsSnoc(evs, e, i, j, x); }
      NewHit(evs, e, i, x);
    }
  }

  /** A base of `x` starts over. */
  lemma FreshBase(evs: seq<Event>, e: Event, x: MemoryId)
    requires e.BaseOn(x)
    ensures LastBase(evs + [e], x) == |evs|
    ensures Survives(evs + [e], x) <==> e.op.Upsert?
    ensures forall j :: 0 <= j < |evs + [e]| ==> !DropsAt(evs + [e], x, j)
    ensures e.op.Upsert? ==> Standing(evs + [e], |evs|, x) == e.Written()
  {
    LastBaseAppend(evs, e, x);
    assert After(evs + [e], |evs|) == [];
  }

  lemma FactsAfterBase(evs: seq<Event>, e: Event, x: MemoryId)
    requires e.BaseOn(x)
    ensures ScanFacts(evs + [e], x)
  {
    FoldSnoc(evs, e);
    FreshBase(evs, e, x);
  }

  /** The two scans say the same about `x`. */
  ghost predicate SameAt(a: TailScan, b: TailScan, x: MemoryId) {
    && (x in a.tombstones <==> x in b.tombstones)
    && (x in a.upserts <==> x in b.upserts) && (x in a.upserts ==> a.upserts[x] == b.upserts[x])
    && (x in a.pending <==> x in b.pending) && (x in a.pending ==> a.pending[x] == b.pending[x])
  }

  lemma OtherStep(s: TailScan, e: Event, x: MemoryId)
    requires !e.BaseOn(x) && !e.op.TombstoneWhere? && !(e.op.Patch? && e.op.id == x)
    ensures SameAt(StepTail(s, e), s, x)
  {
  }

  /** An event that is no patch of `x` adds nothing to a part. */
  lemma KeepsMore(s: TailScan, s': TailScan, x: MemoryId, part: seq<Event>, e: Event)
    requires Keeps(s, x, part) && !(e.op.Patch? && e.op.id == x)
    requires (x in s'.pending <==> x in s.pending) && (x in s'.pending ==> s'.pending[x] == s.pending[x])
    ensures Keeps(s', x, part + [e])
  {
    HasPatchSnoc(part, e, x);
  }

  /** A patch of `x` that is kept extends the part. */
  lemma KeepsPatch(s: TailScan, s': TailScan, x: MemoryId, part: seq<Event>, e: Event)
    requires Keeps(s, x, part) && e.op.Patch? && e.op.id == x
    requires x in s'.pending && s'.pending[x] == (if x in s.pending then s.pending[x] else []) + e.op.deltas
    ensures Keeps(s', x, part + [e])
  {
    HasPatchSnoc(part, e, x);
    NoPatchNoDeltas(part, x);
  }

  lemma {:induction false} NoPatchNoDeltas(evs: seq<Event>, x: MemoryId)
    ensures !HasPatch(evs, x) ==> DeltasOf(evs, x) == []
  {
    if evs != [] {
      var n := |evs| - 1;
      assert evs == evs[..n] + [evs[n]];
      NoPatchNoDeltas(evs[..n], x);
      HasPatchSnoc(evs[..n], evs[n], x);
    }
  }

  /** Where the slice's last write of `x` was dropped before, the kept patches still start there. */
  lemma PendingSnoc(s: TailScan, s': TailScan, evs: seq<Event>, e: Event, x: MemoryId)
    requires PendingFacts(s, evs, x) && !e.BaseOn(x)
    requires LastBase(evs, x) < 0 ==> Keeps(s', x, evs + [e])
    requires LastBase(evs, x) >= 0 && evs[LastBase(evs, x)].op.Tombstone? ==> x !in s'.pending
    requires Survives(evs, x) ==> x !in s'.pending
    requires forall j :: 0 <= j < |evs| && DropsAt(evs, x, j) ==> Keeps(s', x, After(evs, j) + [e])
    ensures PendingFacts(s', evs + [e], x)
  {
    LastBaseAppend(evs, e, x);
    SurvivalSnoc(evs, e, x);
    forall j | 0 <= j < |evs + [e]| && DropsAt(evs + [e], x, j) ensures Keeps(s', x, After(evs + [e], j)) {
      if j < |evs| {
        AfterSnoc(evs, e, j);
      } else {
        assert After(evs + [e], j) == [];
      }
    }
  }

  /** Events that do not touch `x`. */
  lemma FactsAfterOther(evs: seq<Event>, e: Event, x: MemoryId)
    requires ScanFacts(evs, x) && !e.BaseOn(x) && !e.op.TombstoneWhere? && !(e.op.Patch? && e.op.id == x)
    ensures ScanFacts(evs + [e], x)
  {
    var s, s' := FoldTail(evs), FoldTail(evs + [e]);
    FoldSnoc(evs, e);
    OtherStep(s, e, x);
    LastBaseAppend(evs, e, x);
    SurvivalSnoc(evs, e, x);
    var i := LastBase(evs, x);
    if i >= 0 && evs[i].op.Upsert? { StandingSnoc(evs, e, i, x); }
    if i < 0 { KeepsMore(s, s', x, evs, e); }
    forall j | 0 <= j < |evs| && DropsAt(evs, x, j) ensures Keeps(s', x, After(evs, j) + [e]) {
      KeepsMore(s, s', x, After(evs, j), e);
    }
    PendingSnoc(s, s', evs, e, x);
  }

  /** A patch of `x` is ignored after a tombstone, applied to a write of the slice, and kept for later
      otherwise. */
  lemma FactsAfterPatch(evs: seq<Event>, e: Event, x: MemoryId)
    requires ScanFacts(evs, x) && e.op.Patch? && e.op.id == x
    ensures ScanFacts(evs + [e], x)
  {
    var s, s' := FoldTail(evs), FoldTail(evs + [e]);
    FoldSnoc(evs, e);
    PatchStep(s, e, x);
    BaseAfterPatch(s, s', evs, e, x);
    PendingAfterPatch(s, s', evs, e, x);
  }

  /** What a patch of `x` does to a scan. */
  ghost predicate PatchedAt(s: TailScan, s': TailScan, ds: seq<Delta>, x: MemoryId) {
    && (x in s'.tombstones <==> x in s.tombstones)
    && (x in s'.upserts <==> x in s.upserts)
    && (x in s.tombstones ==> SameAt(s', s, x))
    && (x !in s.tombstones && x in s.upserts ==>
          s'.upserts[x] == ApplyDeltas(s.upserts[x], ds) && (x in s'.pending <==> x in s.pending))
    && (x !in s.tombstones && x !in s.upserts ==>
          x in s'.pending && s'.pending[x] == (if x in s.pending then s.pending[x] else []) + ds)
  }

  lemma PatchStep(s: TailScan, e: Event, x: MemoryId)
    requires e.op.Patch? && e.op.id == x
    ensures PatchedAt(s, StepTail(s, e), e.op.deltas, x)
  {
  }

  lemma BaseAfterPatch(s: TailScan, s': TailScan, evs: seq<Event>, e: Event, x: MemoryId)
    requires BaseFacts(s, evs, x) && e.op.Patch? && e.op.id == x && PatchedAt(s, s', e.op.deltas, x)
    ensures BaseFacts(s', evs + [e], x)
  {
    LastBaseAppend(evs, e, x);
    SurvivalSnoc(evs, e, x);
    var i := LastBase(evs, x);
    if i >= 0 && evs[i].op.Upsert? { StandingSnoc(evs, e, i, x); }
  }

  lemma PendingAfterPatch(s: TailScan, s': TailScan, evs: seq<Event>, e: Event, x: MemoryId)
    requires BaseFacts(s, evs, x) && PendingFacts(s, evs, x) && e.op.Patch? && e.op.id == x && PatchedAt(s, s', e.op.deltas, x)
    ensures PendingFacts(s', evs + [e], x)
  {
    if LastBase(evs, x) < 0 { KeepsPatch(s, s', x, evs, e); }
    forall j | 0 <= j < |evs| && DropsAt(evs, x, j) ensures Keeps(s', x, After(evs, j) + [e]) {
      DroppedIsGone(evs, x, j);
      KeepsPatch(s, s', x, After(evs, j), e);
    }
    PendingSnoc(s, s', evs, e, x);
  }

  lemma DroppedIsGone(evs: seq<Event>, x: MemoryId, j: nat)
    requires j < |evs| && DropsAt(evs, x, j)
    ensures !Survives(evs, x) && LastBase(evs, x) >= 0 && evs[LastBase(evs, x)].op.Upsert?
  {
  }

  /** A predicate delete drops a write of the slice that it hits as it stands. */
  lemma FactsAfterDelete(evs: seq<Event>, e: Event, x: MemoryId)
    requires ScanFacts(evs, x) && e.op.TombstoneWhere?
    ensures ScanFacts(evs + [e], x)
  {
    var s, s' := FoldTail(evs), FoldTail(evs + [e]);
    FoldSnoc(evs, e);
    SingleDelete(e.Delete());
    LastBaseAppend(evs, e, x);
    SurvivalSnoc(evs, e, x);
    var i := LastBase(evs, x);
    if i >= 0 && evs[i].op.Upsert? { StandingSnoc(evs, e, i, x); }
    if i < 0 { KeepsMore(s, s', x, evs, e); }
    forall j | 0 <= j < |evs| && DropsAt(evs, x, j) ensures Keeps(s', x, After(evs, j) + [e]) {
      KeepsMore(s, s', x, After(evs, j), e);
    }
    PendingSnoc(s, s', evs, e, x);
  }

  /** For every slice: a write stands with the later patches applied in order, until a delete hits it as it
      stands; patches with nothing to apply to are kept, in order, from the start of the slice or from the
      delete on; and none outlives a tombstone. */
  lemma {:induction false} ScanFactsHold(evs: seq<Event>, x: MemoryId)
    ensures ScanFacts(evs, x)
  {
    if evs != [] {
      var n := |evs| - 1;
      var init, e := evs[..n], evs[n];
      assert evs == init + [e];
      ScanFactsHold(init, x);
      if e.BaseOn(x) {
        FactsAfterBase(init, e, x);
      } else if e.op.TombstoneWhere? {
        FactsAfterDelete(init, e, x);
      } else if e.op.Patch? && e.op.id == x {
        FactsAfterPatch(init, e, x);
      } else {
        FactsAfterOther(init, e, x);
      }
    }
  }

  // ---- Against replay -------------------------------------------------------------------------------------

  /** No patch of the slice changes what a predicate can see. */
  ghost predicate AllKeepVerdicts(evs: seq<Event>) {
    forall i :: 0 <= i < |evs| && evs[i].op.Patch? ==> KeepsVerdicts(evs[i].op.deltas)
  }

  lemma KeepsConcat(a: seq<Delta>, b: seq<Delta>)
    requires KeepsVerdicts(a) && KeepsVerdicts(b)
    ensures KeepsVerdicts(a + b)
  {
    forall m, p: Predicate ensures p.Matches(m) <==> p.Matches(ApplyDeltas(m, a + b)) {
      ApplyConcat(m, a, b);
      assert p.Matches(m) <==> p.Matches(ApplyDeltas(m, a));
      assert p.Matches(ApplyDeltas(m, a)) <==> p.Matches(ApplyDeltas(ApplyDeltas(m, a), b));
    }
  }

  lemma {:induction false} DeltasKeepVerdicts(evs: seq<Event>, x: MemoryId)
    requires AllKeepVerdicts(evs)
    ensures KeepsVerdicts(DeltasOf(evs, x))
  {
    if evs != [] {
      var n := |evs| - 1;
      DeltasKeepVerdicts(evs[..n], x);
      if evs[n].op.Patch? && evs[n].op.id == x {
        KeepsConcat(DeltasOf(evs[..n], x), evs[n].op.deltas);
      } else {
        assert DeltasOf(evs, x) == DeltasOf(evs[..n], x);
      }
    }
  }

  /** Such patches change no kill. */
  lemma KeepsKills(ds: seq<Delta>, m: StoredMemory, d: PredicateDelete)
    requires KeepsVerdicts(ds)
    ensures d.Kills(ApplyDeltas(m, ds)) <==> d.Kills(m)
  {
    var p := d.pred;
    assert p.Matches(m) <==> p.Matches(ApplyDeltas(m, ds));
  }

  lemma KeepsAllKills(ds: seq<Delta>, m: StoredMemory, preds: seq<PredicateDelete>)
    requires KeepsVerdicts(ds)
    ensures KilledByAny(preds, ApplyDeltas(m, ds)) <==> KilledByAny(preds, m)
  {
    forall d | d in preds ensures d.Kills(ApplyDeltas(m, ds)) <==> d.Kills(m) { KeepsKills(ds, m, d); }
  }

  /** Of an id the slice writes or deletes, replay holds what stands. */
  lemma {:induction false} ReplayOfWritten(docs: Docs, evs: seq<Event>, x: MemoryId)
    requires LastBase(evs, x) >= 0
    ensures x in ReplayFrom(docs, evs) <==> Survives(evs, x)
    ensures Survives(evs, x) ==> ReplayFrom(docs, evs)[x] == Standing(evs, LastBase(evs, x), x)
  {
    var n := |evs| - 1;
    var init, e := evs[..n], evs[n];
    assert evs == init + [e];
    if e.BaseOn(x) {
      FreshBase(init, e, x);
    } else {
      LastBaseAppend(init, e, x);
      ReplayOfWritten(docs, init, x);
      SurvivalSnoc(init, e, x);
      var i := LastBase(init, x);
      if init[i].op.Upsert? { StandingSnoc(init, e, i, x); }
      if e.op.TombstoneWhere? { SingleDelete(e.Delete()); }
    }
  }

  /** Of an id it only patches, replay holds the patched copy unless a predicate deletes it, whenever. */
  lemma {:induction false} ReplayOfIndexed(docs: Docs, evs: seq<Event>, x: MemoryId)
    requires LastBase(evs, x) < 0 && AllKeepVerdicts(evs)
    ensures HoldsPatched(ReplayFrom(docs, evs), docs, FoldTail(evs).preds, DeltasOf(evs, x), x)
  {
    if evs != [] {
      var n := |evs| - 1;
      var init, e := evs[..n], evs[n];
      assert evs == init + [e];
      LastBaseAppend(init, e, x);
      InitKeeps(init, e);
      ReplayOfIndexed(docs, init, x);
      IndexedStep(docs, init, e, x);
    }
  }

  /** Replay holds the patched copy of `x`, and holds it exactly when the copy is there and unhit. */
  ghost predicate HoldsPatched(r: Docs, docs: Docs, preds: seq<PredicateDelete>, ds: seq<Delta>, x: MemoryId) {
    && (x in r <==> x in docs && !KilledByAny(preds, docs[x]))
    && (x in r ==> r[x] == ApplyDeltas(docs[x], ds))
  }

  lemma IndexedStep(docs: Docs, init: seq<Event>, e: Event, x: MemoryId)
    requires !e.BaseOn(x) && AllKeepVerdicts(init + [e])
    requires HoldsPatched(ReplayFrom(docs, init), docs, FoldTail(init).preds, DeltasOf(init, x), x)
    ensures HoldsPatched(ReplayFrom(docs, init + [e]), docs, FoldTail(init + [e]).preds, DeltasOf(init + [e], x), x)
  {
    assert (init + [e])[..|init|] == init;
    FoldSnoc(init, e);
    HasPatchSnoc(init, e, x);
    InitKeeps(init, e);
    DeltasKeepVerdicts(init, x);
    var r, preds, ds := ReplayFrom(docs, init), FoldTail(init).preds, DeltasOf(init, x);
    if e.op.TombstoneWhere? {
      PatchedThenDeleted(r, docs, preds, ds, x, e);
    } else {
      PatchedFurther(r, docs, preds, ds, x, e);
    }
  }

  lemma PatchedThenDeleted(r: Docs, docs: Docs, preds: seq<PredicateDelete>, ds: seq<Delta>, x: MemoryId, e: Event)
    requires HoldsPatched(r, docs, preds, ds, x) && e.op.TombstoneWhere? && KeepsVerdicts(ds)
    ensures HoldsPatched(ApplyEvent(r, e), docs, preds + [e.Delete()], ds + [], x)
  {
    assert ds + [] == ds;
    SingleDelete(e.Delete());
    if x in docs {
      KilledAppend(preds, [e.Delete()], docs[x]);
      KeepsKills(ds, docs[x], e.Delete());
    }
  }

  lemma PatchedFurther(r: Docs, docs: Docs, preds: seq<PredicateDelete>, ds: seq<Delta>, x: MemoryId, e: Event)
    requires HoldsPatched(r, docs, preds, ds, x) && !e.op.TombstoneWhere? && !e.BaseOn(x)
    ensures HoldsPatched(ApplyEvent(r, e), docs, preds, ds + if e.op.Patch? && e.op.id == x then e.op.deltas else [], x)
  {
    assert ds + [] == ds;
    if x in docs && e.op.Patch? && e.op.id == x { ApplyConcat(docs[x], ds, e.op.deltas); }
  }

  lemma InitKeeps(init: seq<Event>, e: Event)
    requires AllKeepVerdicts(init + [e])
    ensures AllKeepVerdicts(init)
  {
    forall i | 0 <= i < |init| && init[i].op.Patch? ensures KeepsVerdicts(init[i].op.deltas) {
      assert (init + [e])[i] == init[i];
    }
  }

  lemma PartKeeps(evs: seq<Event>, i: nat, j: nat)
    requires AllKeepVerdicts(evs) && i <= j <= |evs|
    ensures AllKeepVerdicts(evs[i..j])
  {
    var part := evs[i..j];
    forall k | 0 <= k < |part| && part[k].op.Patch? ensures KeepsVerdicts(part[k].op.deltas) {
      assert part[k] == evs[i + k];
    }
  }

  /** Without flips a write is dropped exactly when some later delete hits it as it was written. */
  lemma SurvivesIffNotDropped(evs: seq<Event>, x: MemoryId)
    requires AllKeepVerdicts(evs)
    ensures Survives(evs, x) <==> LastBase(evs, x) >= 0 && evs[LastBase(evs, x)].op.Upsert? && !Dropped(evs, x)
  {
    var i := LastBase(evs, x);
    if i >= 0 && evs[i].op.Upsert? {
      forall j | i < j < |evs| ensures HitsAt(evs, i, j, x) <==> DeletesWrite(evs, i, j) {
        if evs[j].op.TombstoneWhere? {
          assert After(evs[..j], i) == evs[i + 1..j];
          PartKeeps(evs, i + 1, j);
          DeltasKeepVerdicts(evs[i + 1..j], x);
          KeepsKills(DeltasOf(evs[i + 1..j], x), evs[i].Written(), evs[j].Delete());
        }
      }
    }
  }

  /** No predicate of the slice hides a write that stands. */
  lemma StandingSurvives(evs: seq<Event>, x: MemoryId)
    requires AllKeepVerdicts(evs) && Ordered(evs) && Survives(evs, x)
    ensures !KilledByAny(FoldTail(evs).preds, Standing(evs, LastBase(evs, x), x))
  {
    var i := LastBase(evs, x);
    SurvivesIffNotDropped(evs, x);
    PartKeeps(evs, i + 1, |evs|);
    assert evs[i + 1..|evs|] == After(evs, i);
    DeltasKeepVerdicts(After(evs, i), x);
    KeepsAllKills(DeltasOf(After(evs, i), x), evs[i].Written(), FoldTail(evs).preds);
    forall p | p in FoldTail(evs).preds ensures !p.Kills(evs[i].Written()) {
      PredsAreDeletes(evs, p);
      var j :| 0 <= j < |evs| && evs[j].op.TombstoneWhere? && evs[j].Delete() == p;
      if j > i {
        assert !DeletesWrite(evs, i, j);
      } else {
        assert evs[j].at <= evs[i].at;
      }
    }
  }

  /** What a full rebuild makes of the indexed documents and a scan: tombstones, upserts, predicates, then
      the patches that were kept. */
  function Folded(docs: Docs, s: TailScan): Docs {
    PatchAll(Overlay(docs, s), s.pending)
  }

  lemma FoldedAt(docs: Docs, evs: seq<Event>, x: MemoryId)
    requires AllKeepVerdicts(evs) && Ordered(evs)
    ensures var o, r := Folded(docs, FoldTail(evs)), ReplayFrom(docs, evs);
            && (x in r ==> x in o && o[x] == r[x])
            && (x in o && x !in r <==> Dropped(evs, x) && x in docs && !KilledByAny(FoldTail(evs).preds, docs[x]))
  {
    ScanFactsHold(evs, x);
    SurvivesIffNotDropped(evs, x);
    FoldedIs(docs, FoldTail(evs), x);
    if LastBase(evs, x) < 0 {
      ReplayOfIndexed(docs, evs, x);
      NoPatchNoDeltas(evs, x);
    } else {
      ReplayOfWritten(docs, evs, x);
      if Survives(evs, x) { StandingSurvives(evs, x); }
    }
  }

  /** One id of the folded documents. */
  lemma FoldedIs(docs: Docs, s: TailScan, x: MemoryId)
    ensures var o := Folded(docs, s);
            && (x in s.upserts ==> (x in o <==> !KilledByAny(s.preds, s.upserts[x])))
            && (x in s.upserts && x in o && x !in s.pending ==> o[x] == s.upserts[x])
            && (x !in s.upserts ==> (x in o <==> x !in s.tombstones && x in docs && !KilledByAny(s.preds, docs[x])))
            && (x !in s.upserts && x in o ==> o[x] == ApplyDeltas(docs[x], if x in s.pending then s.pending[x] else []))
  {
  }

  /** For every ordered slice whose patches change no verdict: a full rebuild over any indexed documents is
      replay if and only if no dropped write uncovers a surviving copy. */
  lemma PatchedFoldIsReplayIffClean(docs: Docs, evs: seq<Event>)
    requires AllKeepVerdicts(evs) && Ordered(evs)
    ensures Folded(docs, FoldTail(evs)) == ReplayFrom(docs, evs) <==> Clean(docs, evs)
  {
    var o, r := Folded(docs, FoldTail(evs)), ReplayFrom(docs, evs);
    forall x ensures (x in r ==> x in o && o[x] == r[x]) && (x in o && x !in r <==>
                     Dropped(evs, x) && x in docs && !KilledByAny(FoldTail(evs).preds, docs[x])) {
      FoldedAt(docs, evs, x);
    }
    if Clean(docs, evs) {
      assert forall x :: x in o <==> x in r;
    }
  }

  /** An indexed memory patched and then deleted by a predicate whose verdict the patch flips: the rebuild
      tests the memory as it was indexed, replay as it was patched. */
  lemma FlippedPatchDiverges(m: StoredMemory, p: Predicate, ds: seq<Delta>) returns (docs: Docs, evs: seq<Event>)
    requires p.Matches(m) != p.Matches(ApplyDeltas(m, ds))
    ensures docs == map[m.id := m.(writeSeq := 1)] && evs == [Event(2, Patch(m.id, ds)), Event(3, TombstoneWhere(p))]
    ensures Ordered(evs) && WrittenBefore(docs, evs) && Keyed(docs) && Clean(docs, evs)
    ensures m.id in Folded(docs, FoldTail(evs)) <==> !p.Matches(m)
    ensures m.id in ReplayFrom(docs, evs) <==> p.Matches(m)
  {
    var indexed := m.(writeSeq := 1);
    docs := map[m.id := indexed];
    evs := [Event(2, Patch(m.id, ds)), Event(3, TombstoneWhere(p))];
    NoBases(evs);
    PatchThenDelete(m.id, ds, p);
    FoldsAsIndexed(m, p, ds);
    ReplaysAsPatched(m, p, ds);
  }

  lemma FoldsAsIndexed(m: StoredMemory, p: Predicate, ds: seq<Delta>)
    ensures var docs, s := map[m.id := m.(writeSeq := 1)], TailScan(map[], {}, map[m.id := ds], [PredicateDelete(3, p)]);
            m.id in Folded(docs, s) <==> !p.Matches(m)
  {
    MatchIgnoresWriteSeq(p, m, 1);
    SingleDelete(PredicateDelete(3, p));
  }

  lemma ReplaysAsPatched(m: StoredMemory, p: Predicate, ds: seq<Delta>)
    ensures var docs, evs := map[m.id := m.(writeSeq := 1)], [Event(2, Patch(m.id, ds)), Event(3, TombstoneWhere(p))];
            m.id in ReplayFrom(docs, evs) <==> !p.Matches(ApplyDeltas(m, ds))
  {
    var indexed, e, f := m.(writeSeq := 1), Event(2, Patch(m.id, ds)), Event(3, TombstoneWhere(p));
    var docs := map[m.id := indexed];
    PatchIgnoresWriteSeq(m, 1, ds);
    MatchIgnoresWriteSeq(p, ApplyDeltas(m, ds), 1);
    SingleDelete(f.Delete());
    assert [e, f][..1] == [e] && [e][..0] == [];
    assert ReplayFrom(docs, [e]) == docs[m.id := ApplyDeltas(indexed, ds)];
  }

  lemma NoBases(evs: seq<Event>)
    requires forall i :: 0 <= i < |evs| ==> evs[i].op.Patch? || evs[i].op.TombstoneWhere?
    ensures forall x :: LastBase(evs, x) < 0
  {
    forall x ensures LastBase(evs, x) < 0 {
      var i := LastBase(evs, x);
    }
  }

  lemma PatchThenDelete(x: MemoryId, ds: seq<Delta>, p: Predicate)
    ensures FoldTail([Event(2, Patch(x, ds)), Event(3, TombstoneWhere(p))]) ==
            TailScan(map[], {}, map[x := ds], [PredicateDelete(3, p)])
  {
    var e, f := Event(2, Patch(x, ds)), Event(3, TombstoneWhere(p));
    assert [e, f][..1] == [e] && [e][..0] == [];
    assert FoldTail([e]) == TailScan(map[], {}, map[x := ds], []) by { assert [] + ds == ds; }
    assert Without(map[], [f.Delete()]) == map[];
  }

  /** A class of delta lists folds to replay over every index and every clean ordered slice if and only if
      none of its lists changes what a predicate can see. */
  lemma ClassFoldsIffVerdictsKept(allowed: seq<Delta> -> bool)
    ensures (forall docs, evs :: Ordered(evs) && WrittenBefore(docs, evs) && Keyed(docs) && Clean(docs, evs) && PatchesFrom(evs, allowed) ==>
               Folded(docs, FoldTail(evs)) == ReplayFrom(docs, evs)) <==>
            (forall ds :: allowed(ds) ==> KeepsVerdicts(ds))
  {
    if forall ds :: allowed(ds) ==> KeepsVerdicts(ds) {
      forall docs: Docs, evs: seq<Event> |
        Ordered(evs) && WrittenBefore(docs, evs) && Keyed(docs) && Clean(docs, evs) && PatchesFrom(evs, allowed)
        ensures Folded(docs, FoldTail(evs)) == ReplayFrom(docs, evs)
      {
        PatchedFoldIsReplayIffClean(docs, evs);
      }
    } else {
      var ds :| allowed(ds) && !KeepsVerdicts(ds);
      var m, p: Predicate :| p.Matches(m) != p.Matches(ApplyDeltas(m, ds));
      var docs, evs := FlippedPatchDiverges(m, p, ds);
      assert PatchesFrom(evs, allowed);
    }
  }

  // ---- The three folds over patched slices ------------------------------------------------------------------

  /** A full rebuild of any manifest with any scan holds the folded documents. */
  lemma IndexFolds(m: Manifest, head: nat, scan: TailScan, newId: nat)
    ensures Resolve(IndexManifest(m, head, scan, newId).segments) == Folded(Resolve(m.segments), scan)
  {
    ResolveSingle(IndexSegment(newId, m.segments, head, scan));
  }

  /** So over an ordered slice whose patches change no verdict it is replay exactly when the slice is clean. */
  lemma IndexIsReplayIffClean(m: Manifest, head: nat, evs: seq<Event>, newId: nat)
    requires AllKeepVerdicts(evs) && Ordered(evs)
    ensures Resolve(IndexManifest(m, head, FoldTail(evs), newId).segments) == ReplayFrom(Resolve(m.segments), evs) <==>
            Clean(Resolve(m.segments), evs)
  {
    IndexFolds(m, head, FoldTail(evs), newId);
    PatchedFoldIsReplayIffClean(Resolve(m.segments), evs);
  }

  /** What a lookup finds after a flush: writes of the slice with their patches, patched copies the snapshot
      gave, nothing for deleted ids, and for all others what it found before. */
  lemma FlushPatches(m: Manifest, head: nat, scan: TailScan, node: Node, newId: nat, x: MemoryId)
    ensures var next := FlushManifest(m, head, scan, node, newId).segments;
            && (x in scan.upserts && x !in scan.pending ==> Look(next, x) == Some(scan.upserts[x]))
            && (x in scan.pending && x in scan.upserts ==> Look(next, x) == Some(ApplyDeltas(scan.upserts[x], scan.pending[x])))
            && (x in scan.pending && x !in scan.upserts && x in node.docs ==>
                  Look(next, x) == Some(ApplyDeltas(node.docs[x], scan.pending[x])))
            && (x !in scan.upserts && !(x in scan.pending && x in node.docs) ==>
                  Look(next, x) == if x in scan.tombstones then None else Look(m.segments, x))
  {
    var n := FlushSegment(newId, m.cursor, head, scan, node);
    assert ([n] + m.segments)[1..] == m.segments;
  }

  /** A minor compaction patches what it takes from kept segments, and nothing that the merged segments
      hold: there the memory stays as it was. */
  lemma MinorPatches(m: Manifest, k: nat, head: nat, scan: TailScan, node: Node, newId: nat, x: MemoryId)
    requires 2 <= k <= |m.segments| && x in scan.pending && x !in scan.upserts && x !in scan.tombstones
    ensures var next, base := MinorManifest(m, k, head, scan, node, newId).segments, MergedTail(m.segments[..k], scan);
            && (x in base ==> Look(next, x) == Some(Resolve(m.segments[..k])[x]))
            && (x !in base && x in node.docs ==> Look(next, x) == Some(ApplyDeltas(node.docs[x], scan.pending[x])))
  {
    var n := MinorSegment(newId, m.segments[..k], head, scan, node);
    assert ([n] + m.segments[k..])[1..] == m.segments[k..];
  }

  /** So where the snapshot holds the live memory, a pending patch takes effect if and only if the merged
      segments do not hold that memory, or it changes nothing. */
  lemma MinorKeepsPatchIff(m: Manifest, k: nat, head: nat, scan: TailScan, node: Node, newId: nat, x: MemoryId)
    requires 2 <= k <= |m.segments| && x in scan.pending && x !in scan.upserts && x !in scan.tombstones && x in node.docs
    requires x in MergedTail(m.segments[..k], scan) ==> Resolve(m.segments[..k])[x] == node.docs[x]
    ensures Look(MinorManifest(m, k, head, scan, node, newId).segments, x) == Some(ApplyDeltas(node.docs[x], scan.pending[x])) <==>
            x !in MergedTail(m.segments[..k], scan) || ApplyDeltas(node.docs[x], scan.pending[x]) == node.docs[x]
  {
    MinorPatches(m, k, head, scan, node, newId, x);
  }

  /** Two one-memory segments and a patch to the newer memory: the rebuild applies it, the compaction loses it. */
  lemma CompactionLosesAPatch() returns (m: Manifest, scan: TailScan, node: Node, compacted: StoredMemory, rebuilt: StoredMemory)
    ensures SegsOk(m.segments, m.cursor) && |m.segments| == 2 && node == Node(m.segments, Resolve(m.segments))
    ensures scan == TailScan(map[], {}, map[7 := [SetText("b")]], [])
    ensures Look(MinorManifest(m, 2, 3, scan, node, 2).segments, 7) == Some(compacted) && compacted.text == "a"
    ensures Look(IndexManifest(m, 3, scan, 2).segments, 7) == Some(rebuilt) && rebuilt.text == "b"
  {
    var none := Timestamps(None, None, None, None, None);
    compacted := StoredMemory(7, 1, [], none, 0, {}, [], "a", 0, 2);
    var older := StoredMemory(8, 1, [], none, 0, {}, [], "c", 0, 1);
    m := TwoSegments(compacted, older);
    scan := TailScan(map[], {}, map[7 := [SetText("b")]], []);
    node := Node(m.segments, Resolve(m.segments));
    rebuilt := ApplyDelta(compacted, SetText("b"));
    assert [SetText("b")][1..] == [];
    assert ApplyDeltas(compacted, [SetText("b")]) == rebuilt;
    OnlyPending(m.segments, scan);
    assert m.segments[..2] == m.segments;
    MinorPatches(m, 2, 3, scan, node, 2, 7);
    assert IndexSegment(2, m.segments, 3, scan).docs[7] == rebuilt;
  }

  lemma OnlyPending(segs: seq<Segment>, scan: TailScan)
    requires scan.upserts == map[] && scan.tombstones == {} && scan.preds == []
    ensures Overlay(Resolve(segs), scan) == Resolve(segs) && MergedTail(segs, scan) == Resolve(segs)
  {
    var docs := Resolve(segs);
    var none: Docs := map[];
    assert PatchAll(scan.upserts, scan.pending) == none;
    assert docs - {} + none == docs;
    assert Without(docs, []) == docs;
  }

  lemma TwoSegments(newer: StoredMemory, older: StoredMemory) returns (m: Manifest)
    requires newer.id == 7 && older.id == 8 && newer.writeSeq == 2 && older.writeSeq == 1
    ensures SegsOk(m.segments, m.cursor) && |m.segments| == 2
    ensures Resolve(m.segments) == map[7 := newer, 8 := older]
  {
    var a := Segment(1, 2, 2, map[7 := newer], SegmentTombstones({}, []));
    var b := Segment(0, 0, 1, map[8 := older], SegmentTombstones({}, []));
    m := Manifest(2, 2, 2, 1, [a, b], []);
    ResolveTwo(a, b);
    assert b.docs + a.docs == map[7 := newer, 8 := older];
  }

  lemma ResolveTwo(a: Segment, b: Segment)
    requires a.tomb == b.tomb == SegmentTombstones({}, [])
    ensures Resolve([a, b]) == b.docs + a.docs
  {
    var segs := [a, b];
    assert segs[1..] == [b] && [b][1..] == [];
    assert AllPreds([b]) == [] && AllPreds(segs) == [];
    assert Live(segs, a) == a.docs && Live(segs, b) == b.docs;
    assert Materialize(segs, [b]) == b.docs by { assert Materialize(segs, []) == map[]; }
    assert Materialize(segs, segs) == b.docs + a.docs;
    assert Without(b.docs + a.docs, []) == b.docs + a.docs;
  }
}

/** Point reads against the specification: what a snapshot of any published manifest answers, compared
    with sequential replay of the whole log through the head it was opened at. */
module Reads {
  import opened Memories
  import opened Wal
  import opened Lsm
  import opened Protocol
  import opened Listings
  import opened QueryNode
  import opened Opening

  /** What `docs` holds for each id, in request order. */
  function Held(docs: Docs, ids: seq<MemoryId>): seq<StoredMemory> {
    if ids == [] then []
    else (if ids[0] in docs then [docs[ids[0]]] else []) + Held(docs, ids[1..])
  }

  function StripAll(ms: seq<StoredMemory>): seq<StoredMemory> {
    if ms == [] then [] else [Strip(ms[0])] + StripAll(ms[1..])
  }

  lemma {:induction false} AnswersAreHeld(segs: seq<Segment>, scan: TailScan, ids: seq<MemoryId>)
    ensures Answers(segs, scan, ids, true) == Held(Overlay(Resolve(segs), scan), ids)
    ensures StripAll(Answers(segs, scan, ids, false)) == StripAll(Held(Overlay(Resolve(segs), scan), ids))
  {
    if ids != [] {
      var o := Overlay(Resolve(segs), scan);
      AnswersAreHeld(segs, scan, ids[1..]);
      var a, h := Answers(segs, scan, ids, false), Held(o, ids);
      if ids[0] in o {
        assert a[1..] == Answers(segs, scan, ids[1..], false) && h[1..] == Held(o, ids[1..]);
      } else {
        assert a == Answers(segs, scan, ids[1..], false) && h == Held(o, ids[1..]);
      }
    }
  }

  /** Every id is answered as replay would, on the cluster path and on the payload path. */
  ghost predicate AnswersReplay(segs: seq<Segment>, scan: TailScan, docs: Docs) {
    forall ids :: Answers(segs, scan, ids, true) == Held(docs, ids)
                  && StripAll(Answers(segs, scan, ids, false)) == StripAll(Held(docs, ids))
  }

  lemma AnswersReplayIffEqual(segs: seq<Segment>, scan: TailScan, docs: Docs)
    ensures AnswersReplay(segs, scan, docs) <==> Overlay(Resolve(segs), scan) == docs
  {
    var o := Overlay(Resolve(segs), scan);
    if o == docs {
      forall ids ensures Answers(segs, scan, ids, true) == Held(docs, ids)
                         && StripAll(Answers(segs, scan, ids, false)) == StripAll(Held(docs, ids)) {
        AnswersAreHeld(segs, scan, ids);
      }
    }
    if AnswersReplay(segs, scan, docs) {
      forall x ensures AgreeAt(o, docs, x) {
        AnswersAreHeld(segs, scan, [x]);
        assert Answers(segs, scan, [x], true) == Held(docs, [x]);
        assert [x][1..] == [];
        assert Held(o, [x]) == if x in o then [o[x]] else [];
        assert Held(docs, [x]) == if x in docs then [docs[x]] else [];
      }
      AgreeEverywhere(o, docs);
    }
  }

  /** For every reachable state, every manifest published in it that is faithful, and every head at or
      above its cursor through which the listing still shows the tail whole, as it always does for the
      current and the previous manifest: a snapshot there meets what point reads ask for, and they answer
      exactly as replay of the whole log through the head does if and only if the tail is clean. */
  lemma ReadsAreReplayIffTailClean(r: Run, t: nat, i: nat, head: nat)
    requires RunOk(r) && RunGuarded(r) && t < |r.states| && i < |r.states[t].history|
    requires r.states[t].history[i].cursor <= head
    requires |r.states[t].history| <= i + 2 || Intact(r.states[t].log, r.states[t].trimmed, r.states[t].history[i].cursor, head)
    requires Resolve(r.states[t].history[i].segments) == ReplayThrough(r.states[t].log, r.states[t].history[i].cursor)
    ensures var s := r.states[t];
            var m := s.history[i];
            var evs := SliceEvents(Listed(s.log, s.trimmed), m.cursor, head);
            && SegsOk(m.segments, m.cursor) && ScanOk(FoldTail(evs), m.cursor, head)
            && (AnswersReplay(m.segments, FoldTail(evs), ReplayThrough(s.log, head)) <==>
                Clean(ReplayThrough(s.log, m.cursor), evs))
  {
    var s := r.states[t];
    var m := s.history[i];
    var evs := SliceEvents(s.log, m.cursor, head);
    RunKeepsInv(r, t);
    assert ManifestInv(s.log, m);
    ListedTail(r, t, i, head);
    ScanOfSlice(s.log, m.cursor, head);
    SliceEventFacts(s.log, m.cursor, head);
    ReplayThroughJoin(s.log, m.cursor, head);
    OverlayIsReplayIffClean(ReplayThrough(s.log, m.cursor), evs);
    AnswersReplayIffEqual(m.segments, FoldTail(evs), ReplayThrough(s.log, head));
  }

  lemma ListedTail(r: Run, t: nat, i: nat, head: nat)
    requires RunOk(r) && RunGuarded(r) && t < |r.states| && i < |r.states[t].history|
    requires |r.states[t].history| <= i + 2 || Intact(r.states[t].log, r.states[t].trimmed, r.states[t].history[i].cursor, head)
    ensures var s := r.states[t];
            SliceEvents(Listed(s.log, s.trimmed), s.history[i].cursor, head) == SliceEvents(s.log, s.history[i].cursor, head)
  {
    var s := r.states[t];
    if |s.history| <= i + 2 { ReadersFindTheirTail(r, t, i, head); }
    ListedIffIntact(s.log, s.trimmed, s.history[i].cursor, head);
  }

  /** Without predicate deletes every such read is replay, whatever the interleaving, the manifest a
      reader still holds and the head it opened at. */
  lemma ReadsAreReplayWithoutPredicates(r: Run, t: nat, i: nat, head: nat)
    requires RunOk(r) && RunGuarded(r) && t < |r.states| && i < |r.states[t].history|
    requires |r.states[t].history| <= i + 2 || Intact(r.states[t].log, r.states[t].trimmed, r.states[t].history[i].cursor, head)
    requires NoPredicateDeletes(r.states[t].log) && r.states[t].history[i].cursor <= head
    ensures var s := r.states[t];
            var m := s.history[i];
            AnswersReplay(m.segments, FoldTail(SliceEvents(Listed(s.log, s.trimmed), m.cursor, head)), ReplayThrough(s.log, head))
  {
    var s := r.states[t];
    var m := s.history[i];
    UpsertsAndTombstonesAreFaithful(r, t);
    ReadsAreReplayIffTailClean(r, t, i, head);
    ListedTail(r, t, i, head);
    SliceWithoutDeletes(s.log, m.cursor, head);
    FlattenWithoutDeletes(Slice(s.log, m.cursor, head));
  }

  /** A tail write of `x` is dropped by a predicate that its indexed copy escapes. */
  ghost predicate Uncovered(docs: Docs, evs: seq<Event>, x: MemoryId) {
    Dropped(evs, x) && x in docs && !KilledByAny(FoldTail(evs).preds, docs[x])
  }

  ghost predicate Extends(big: Docs, small: Docs) {
    forall x :: x in small ==> x in big && big[x] == small[x]
  }

  lemma {:induction false} HeldLength(big: Docs, small: Docs, ids: seq<MemoryId>)
    requires Extends(big, small)
    ensures |Held(small, ids)| <= |Held(big, ids)|
    ensures |Held(small, ids)| == |Held(big, ids)| <==> forall x :: x in ids && x in big ==> x in small
    ensures (forall x :: x in ids && x in big ==> x in small) ==> Held(small, ids) == Held(big, ids)
  {
    if ids != [] {
      HeldLength(big, small, ids[1..]);
      assert forall x :: x in ids <==> x == ids[0] || x in ids[1..];
    }
  }

  lemma {:induction false} StripLength(ms: seq<StoredMemory>)
    ensures |StripAll(ms)| == |ms|
  {
    if ms != [] { StripLength(ms[1..]); }
  }

  /** One call answers as replay does exactly when none of its ids is uncovered. */
  lemma HeldIsReplayIffCovered(docs: Docs, evs: seq<Event>, ids: seq<MemoryId>)
    requires PatchFree(evs) && Ordered(evs)
    ensures var o, r := Overlay(docs, FoldTail(evs)), ReplayFrom(docs, evs);
            && (Held(o, ids) == Held(r, ids) <==> forall x :: x in ids ==> !Uncovered(docs, evs, x))
            && (StripAll(Held(o, ids)) == StripAll(Held(r, ids)) <==> forall x :: x in ids ==> !Uncovered(docs, evs, x))
  {
    var o, r := Overlay(docs, FoldTail(evs)), ReplayFrom(docs, evs);
    forall x ensures (x in r ==> x in o && o[x] == r[x]) && (x in o && x !in r <==> Uncovered(docs, evs, x)) {
      OverlayAt(docs, evs, x);
    }
    HeldLength(o, r, ids);
    StripLength(Held(o, ids));
    StripLength(Held(r, ids));
  }

  /** Open at a manifest and a head, whatever loaded segments are reused, and read on either path: the
      answer is, in request order, what replay of the whole log through the head holds, if and only if no
      requested id is uncovered. */
  method OpenAndGet(store: Store, reuse: Store, m: Manifest, scan: TailScan, order: seq<StoredMemory>, head: nat, ids: seq<MemoryId>,
                    includeVector: bool, ghost log: seq<Entry>)
    returns (out: seq<StoredMemory>)
    requires LogInv(log) && SegsOk(m.segments, m.cursor) && m.cursor <= head
    requires Resolve(m.segments) == ReplayThrough(log, m.cursor)
    requires scan == FoldTail(SliceEvents(log, m.cursor, head)) && Enumerates(order, scan.upserts)
    requires StoreOk(store, m.segments) && forall k :: k in reuse ==> k in store && reuse[k] == store[k]
    ensures includeVector ==>
              (out == Held(ReplayThrough(log, head), ids) <==>
               forall x :: x in ids ==> !Uncovered(ReplayThrough(log, m.cursor), SliceEvents(log, m.cursor, head), x))
    ensures !includeVector ==>
              (StripAll(out) == StripAll(Held(ReplayThrough(log, head), ids)) <==>
               forall x :: x in ids ==> !Uncovered(ReplayThrough(log, m.cursor), SliceEvents(log, m.cursor, head), x))
  {
    ghost var evs := SliceEvents(log, m.cursor, head);
    ScanOfSlice(log, m.cursor, head);
    SliceEventFacts(log, m.cursor, head);
    var n, _ := OpenWithReuse(store, m.segments, m.cursor, scan, order, head, reuse);
    OpensIsOk(n, store, m.segments, m.cursor, scan, order, head, {});
    out := GetMany(n, ids, includeVector, m.segments, scan, m.cursor, head);
    AnswersAreHeld(m.segments, scan, ids);
    HeldIsReplayIffCovered(ReplayThrough(log, m.cursor), evs, ids);
    ReplayThroughJoin(log, m.cursor, head);
  }
}

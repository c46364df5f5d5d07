/** Patches applied in place (crates/mlake-core/src/wal.rs:46-86). */
module Patching {
  import opened Memories
  import opened Sorting

  type Metadata = seq<(string, string)>

  // ---- Text order -------------------------------------------------------------------------------------------

  lemma {:induction false} TextTotal(a: string, b: string)
    ensures TextLe(a, b) || TextLe(b, a)
    ensures TextLe(a, b) && TextLe(b, a) ==> a == b
  {
    if a != "" && b != "" {
      TextTotal(a[1..], b[1..]);
      assert a == [a[0]] + a[1..] && b == [b[0]] + b[1..];
    }
  }

  lemma {:induction false} TextTrans(a: string, b: string, c: string)
    requires TextLe(a, b) && TextLe(b, c)
    ensures TextLe(a, c)
  {
    if a != "" && a[0] == b[0] && b[0] == c[0] { TextTrans(a[1..], b[1..], c[1..]); }
  }

  /** Up to `k` the texts agree, and there `a` ends or has the smaller character. */
  ghost predicate PartsAt(a: string, b: string, k: nat) {
    k <= |a| && k <= |b| && a[..k] == b[..k] && (k == |a| || (k < |b| && a[k] < b[k]))
  }

  /** Text order is dictionary order. */
  lemma {:induction false} TextOrderIsLexicographic(a: string, b: string)
    ensures TextLe(a, b) <==> exists k: nat :: PartsAt(a, b, k)
  {
    if a == "" {
      assert PartsAt(a, b, 0);
    } else if b != "" {
      TextOrderIsLexicographic(a[1..], b[1..]);
      if TextLe(a, b) {
        if a[0] < b[0] {
          assert PartsAt(a, b, 0);
        } else {
          var k: nat :| PartsAt(a[1..], b[1..], k);
          assert a[..k + 1] == [a[0]] + a[1..][..k] && b[..k + 1] == [b[0]] + b[1..][..k];
          assert PartsAt(a, b, k + 1);
        }
      }
      if k: nat :| PartsAt(a, b, k) && k > 0 {
        assert a[0] == a[..k][0] == b[..k][0] == b[0];
        assert a[1..][..k - 1] == a[..k][1..] && b[1..][..k - 1] == b[..k][1..];
        assert PartsAt(a[1..], b[1..], k - 1);
      }
    }
  }

  lemma MetadataOrder()
    ensures TotalPreorder(MetadataLe)
  {
    forall a: (string, string), b: (string, string) ensures MetadataLe(a, b) || MetadataLe(b, a) { TextTotal(a.0, b.0); }
    forall a: (string, string), b: (string, string), c: (string, string) | MetadataLe(a, b) && MetadataLe(b, c) ensures MetadataLe(a, c) {
      TextTrans(a.0, b.0, c.0);
    }
  }

  // ---- Merging metadata --------------------------------------------------------------------------------------

  /** The value a reader of `key` finds: that of the first pair with the key. */
  function Lookup(md: Metadata, key: string): Option<string> {
    if md == [] then None else if md[0].0 == key then Some(md[0].1) else Lookup(md[1..], key)
  }

  /** The last value `pairs` gives `key`. */
  function LastValue(pairs: Metadata, key: string): Option<string> {
    if pairs == [] then None
    else Or(LastValue(pairs[1..], key), if pairs[0].0 == key then Some(pairs[0].1) else None)
  }

  lemma {:induction false} PutLookup(md: Metadata, k: string, v: string, key: string)
    ensures Lookup(PutMetadata(md, k, v), key) == if key == k then Some(v) else Lookup(md, key)
  {
    if md != [] {
      if md[0].0 == k {
        assert ([(k, v)] + md[1..])[1..] == md[1..];
      } else {
        PutLookup(md[1..], k, v, key);
        assert PutMetadata(md, k, v)[1..] == PutMetadata(md[1..], k, v);
      }
    }
  }

  lemma {:induction false} PutAllLookup(md: Metadata, pairs: Metadata, key: string)
    ensures Lookup(PutAllMetadata(md, pairs), key) == Or(LastValue(pairs, key), Lookup(md, key))
    decreases |pairs|
  {
    if pairs != [] {
      PutAllLookup(PutMetadata(md, pairs[0].0, pairs[0].1), pairs[1..], key);
      PutLookup(md, pairs[0].0, pairs[0].1, key);
    }
  }

  /** A lookup reads the head of the key's tie class. */
  lemma {:induction false} LookupIsClassHead(md: Metadata, key: string)
    ensures var c := Class(md, (key, ""), MetadataLe);
            Lookup(md, key) == if c == [] then None else Some(c[0].1)
  {
    if md != [] {
      LookupIsClassHead(md[1..], key);
      TextTotal(md[0].0, key);
    }
  }

  /** Re-sorting by key changes no lookup. */
  lemma SortKeepsLookup(md: Metadata, key: string)
    ensures Lookup(StableSort(md, MetadataLe), key) == Lookup(md, key)
  {
    MetadataOrder();
    SortIsStable(md, MetadataLe);
    LookupIsClassHead(md, key);
    LookupIsClassHead(StableSort(md, MetadataLe), key);
  }

  /** A metadata merge gives every key its last merged value, keeps the others, and leaves the list in
      key order. */
  lemma MergeMetadataMeans(m: StoredMemory, pairs: Metadata, key: string)
    ensures var md := ApplyDelta(m, MergeMetadata(pairs)).metadata;
            && Lookup(md, key) == Or(LastValue(pairs, key), Lookup(m.metadata, key))
            && Sorted(md, MetadataLe)
  {
    PutAllLookup(m.metadata, pairs, key);
    SortKeepsLookup(PutAllMetadata(m.metadata, pairs), key);
    MetadataOrder();
    SortIsStable(PutAllMetadata(m.metadata, pairs), MetadataLe);
  }

  /** No key twice. */
  ghost predicate DistinctKeys(md: Metadata) {
    forall i, j :: 0 <= i < j < |md| ==> md[i].0 != md[j].0
  }

  lemma {:induction false} PutKeys(md: Metadata, k: string, v: string)
    ensures DistinctKeys(md) ==> DistinctKeys(PutMetadata(md, k, v))
    ensures forall kv :: kv in PutMetadata(md, k, v) ==> kv.0 == k || exists o :: o in md && o.0 == kv.0
  {
    if md != [] && md[0].0 != k {
      PutKeys(md[1..], k, v);
      var r := PutMetadata(md[1..], k, v);
      if DistinctKeys(md) {
        assert DistinctKeys(md[1..]);
        forall i | 0 <= i < |r| ensures r[i].0 != md[0].0 {
          assert r[i] in r;
          if r[i].0 != k {
            var kv :| kv in md[1..] && kv.0 == r[i].0;
            var j :| 0 <= j < |md[1..]| && md[1..][j] == kv;
            assert md[j + 1].0 != md[0].0;
          }
        }
      }
    }
  }

  lemma {:induction false} PutAllKeys(md: Metadata, pairs: Metadata)
    requires DistinctKeys(md)
    ensures DistinctKeys(PutAllMetadata(md, pairs))
    decreases |pairs|
  {
    if pairs != [] {
      PutKeys(md, pairs[0].0, pairs[0].1);
      PutAllKeys(PutMetadata(md, pairs[0].0, pairs[0].1), pairs[1..]);
    }
  }

  /** A merge replaces pairs, it does not pile them up: keys that were distinct stay distinct, so what a
      lookup finds under a key is all there is under it. */
  lemma MergeKeepsKeysDistinct(m: StoredMemory, pairs: Metadata)
    requires DistinctKeys(m.metadata)
    ensures DistinctKeys(ApplyDelta(m, MergeMetadata(pairs)).metadata)
  {
    var md := PutAllMetadata(m.metadata, pairs);
    PutAllKeys(m.metadata, pairs);
    SortKeepsKeys(md);
  }

  lemma {:induction false} InsertKeys(x: (string, string), s: Metadata)
    requires DistinctKeys(s) && forall kv :: kv in s ==> kv.0 != x.0
    ensures DistinctKeys(Insert(x, s, MetadataLe))
  {
    if s != [] && !MetadataLe(x, s[0]) {
      InsertKeys(x, s[1..]);
      var r := Insert(x, s[1..], MetadataLe);
      forall i | 0 <= i < |r| ensures r[i].0 != s[0].0 {
        InsertMembers(x, s[1..], r[i], MetadataLe);
        assert r[i] in r;
        if r[i] != x {
          var j :| 0 <= j < |s[1..]| && s[1..][j] == r[i];
          assert s[j + 1].0 != s[0].0;
        }
      }
      assert Insert(x, s, MetadataLe) == [s[0]] + r;
    }
  }

  lemma {:induction false} SortKeepsKeys(md: Metadata)
    requires DistinctKeys(md)
    ensures DistinctKeys(StableSort(md, MetadataLe))
  {
    if md != [] {
      SortKeepsKeys(md[1..]);
      forall kv | kv in StableSort(md[1..], MetadataLe) ensures kv.0 != md[0].0 {
        SortMembers(md[1..], kv, MetadataLe);
        var j :| 0 <= j < |md[1..]| && md[1..][j] == kv;
        assert md[j + 1].0 != md[0].0;
      }
      InsertKeys(md[0], StableSort(md[1..], MetadataLe));
    }
  }

  // ---- What each delta means ---------------------------------------------------------------------------------

  /** The count moves by `n` and nothing else moves; it stops at 0 and at the largest 32-bit number. */
  lemma ProofCountMeans(m: StoredMemory, n: int)
    ensures var r := ApplyDelta(m, ProofCount(n));
            && r.(proofCount := m.proofCount) == m
            && 0 <= r.proofCount <= MAX_U32
            && (0 <= m.proofCount + n <= MAX_U32 ==> r.proofCount - m.proofCount == n)
            && (m.proofCount + n < 0 ==> r.proofCount == 0)
            && (m.proofCount + n > MAX_U32 ==> r.proofCount == MAX_U32)
  {
  }

  /** Larger steps give larger counts, and a step back undoes a step away from the ends. */
  lemma ProofCountSteps(m: StoredMemory, n: int, k: int)
    ensures n <= k ==> ApplyDelta(m, ProofCount(n)).proofCount <= ApplyDelta(m, ProofCount(k)).proofCount
    ensures 0 <= m.proofCount + n <= MAX_U32 && m.proofCount <= MAX_U32 ==>
              ApplyDelta(ApplyDelta(m, ProofCount(n)), ProofCount(-n)) == m
  {
  }

  /** Two steps give the same count in either order if and only if they do not pull apart, or neither
      reaches an end on its own. */
  lemma ProofCountsCommuteIff(m: StoredMemory, n: int, k: int)
    requires m.proofCount <= MAX_U32
    ensures ApplyDelta(ApplyDelta(m, ProofCount(n)), ProofCount(k)) == ApplyDelta(ApplyDelta(m, ProofCount(k)), ProofCount(n)) <==>
            || (n >= 0 && k >= 0) || (n <= 0 && k <= 0)
            || (0 <= m.proofCount + n <= MAX_U32 && 0 <= m.proofCount + k <= MAX_U32)
  {
    var p := m.proofCount;
    var nk, kn := ClampU32(ClampU32(p + n) + k), ClampU32(ClampU32(p + k) + n);
    assert ApplyDelta(ApplyDelta(m, ProofCount(n)), ProofCount(k)) == m.(proofCount := nk);
    assert ApplyDelta(ApplyDelta(m, ProofCount(k)), ProofCount(n)) == m.(proofCount := kn);
  }

  /** Every setter makes its field the given value and leaves all others alone. */
  lemma SettersMean(m: StoredMemory, text: string, body: nat, tags: seq<string>, entities: set<nat>, ts: Timestamps)
    ensures var r := ApplyDelta(m, SetText(text)); r.text == text && r.(text := m.text) == m
    ensures var r := ApplyDelta(m, SetVector(body)); r.body == body && r.(body := m.body) == m
    ensures var r := ApplyDelta(m, SetTags(tags)); r.tags == tags && r.(tags := m.tags) == m
    ensures var r := ApplyDelta(m, SetEntityIds(entities)); r.entityIds == entities && r.(entityIds := m.entityIds) == m
    ensures var r := ApplyDelta(m, SetTimestamps(ts)); r.timestamps == ts && r.(timestamps := m.timestamps) == m
  {
  }

  /** Touching stamps the write time alone; a merge takes the times it names and keeps the others. */
  lemma TimeDeltasMean(m: StoredMemory, at: int, ts: Timestamps)
    ensures var r := ApplyDelta(m, Touch(at));
            && r.timestamps.updatedAt == Some(at)
            && r.(timestamps := r.timestamps.(updatedAt := m.timestamps.updatedAt)) == m
    ensures var r := ApplyDelta(m, MergeTimestamps(ts));
            && r.(timestamps := m.timestamps) == m
            && Merged(ts.eventDate, m.timestamps.eventDate, r.timestamps.eventDate)
            && Merged(ts.occurredStart, m.timestamps.occurredStart, r.timestamps.occurredStart)
            && Merged(ts.occurredEnd, m.timestamps.occurredEnd, r.timestamps.occurredEnd)
            && Merged(ts.mentionedAt, m.timestamps.mentionedAt, r.timestamps.mentionedAt)
            && Merged(ts.updatedAt, m.timestamps.updatedAt, r.timestamps.updatedAt)
  {
  }

  predicate Merged(given: Option<int>, before: Option<int>, after: Option<int>) {
    (given.Some? ==> after == given) && (given.None? ==> after == before)
  }

  /** A metadata merge touches nothing else. */
  lemma MergeMetadataKeepsTheRest(m: StoredMemory, pairs: Metadata)
    ensures ApplyDelta(m, MergeMetadata(pairs)).(metadata := m.metadata) == m
  {
  }

  // ---- What a list of deltas means ----------------------------------------------------------------------------

  lemma {:induction false} ApplySnoc(m: StoredMemory, ds: seq<Delta>, d: Delta)
    ensures ApplyDeltas(m, ds + [d]) == ApplyDelta(ApplyDeltas(m, ds), d)
    decreases |ds|
  {
    if ds == [] {
      assert ds + [d] == [d] && [d][1..] == [];
    } else {
      assert (ds + [d])[0] == ds[0] && (ds + [d])[1..] == ds[1..] + [d];
      ApplySnoc(ApplyDelta(m, ds[0]), ds[1..], d);
    }
  }

  lemma {:induction false} ApplyConcat(m: StoredMemory, a: seq<Delta>, b: seq<Delta>)
    ensures ApplyDeltas(m, a + b) == ApplyDeltas(ApplyDeltas(m, a), b)
    decreases |a|
  {
    if a == [] {
      assert a + b == b;
    } else {
      assert (a + b)[0] == a[0] && (a + b)[1..] == a[1..] + b;
      ApplyConcat(ApplyDelta(m, a[0]), a[1..], b);
    }
  }

  /** The deltas with an effect on one part of a memory. */
  datatype Part = Text | Body | Labels | Entities | EventDate | OccurredStart | OccurredEnd | MentionedAt | UpdatedAt

  predicate Sets(d: Delta, part: Part) {
    match part
    case Text => d.SetText?
    case Body => d.SetVector?
    case Labels => d.SetTags?
    case Entities => d.SetEntityIds?
    case EventDate => d.SetTimestamps? || (d.MergeTimestamps? && d.ts.eventDate.Some?)
    case OccurredStart => d.SetTimestamps? || (d.MergeTimestamps? && d.ts.occurredStart.Some?)
    case OccurredEnd => d.SetTimestamps? || (d.MergeTimestamps? && d.ts.occurredEnd.Some?)
    case MentionedAt => d.SetTimestamps? || (d.MergeTimestamps? && d.ts.mentionedAt.Some?)
    case UpdatedAt => d.SetTimestamps? || d.Touch? || (d.MergeTimestamps? && d.ts.updatedAt.Some?)
  }

  /** The two memories agree on the part. */
  predicate SamePart(a: StoredMemory, b: StoredMemory, part: Part) {
    match part
    case Text => a.text == b.text
    case Body => a.body == b.body
    case Labels => a.tags == b.tags
    case Entities => a.entityIds == b.entityIds
    case EventDate => a.timestamps.eventDate == b.timestamps.eventDate
    case OccurredStart => a.timestamps.occurredStart == b.timestamps.occurredStart
    case OccurredEnd => a.timestamps.occurredEnd == b.timestamps.occurredEnd
    case MentionedAt => a.timestamps.mentionedAt == b.timestamps.mentionedAt
    case UpdatedAt => a.timestamps.updatedAt == b.timestamps.updatedAt
  }

  lemma {:induction false} UnsetPartStays(m: StoredMemory, ds: seq<Delta>, part: Part)
    requires forall i :: 0 <= i < |ds| ==> !Sets(ds[i], part)
    ensures SamePart(ApplyDeltas(m, ds), m, part)
    decreases |ds|
  {
    if ds != [] { UnsetPartStays(ApplyDelta(m, ds[0]), ds[1..], part); }
  }

  /** The last setter of a part wins: what the list leaves there is what that one delta sets on any memory
      at all; without a setter the part stays. */
  lemma LastSetterWins(m: StoredMemory, any: StoredMemory, ds: seq<Delta>, i: nat, part: Part)
    requires i < |ds| && Sets(ds[i], part) && forall j :: i < j < |ds| ==> !Sets(ds[j], part)
    ensures SamePart(ApplyDeltas(m, ds), ApplyDelta(any, ds[i]), part)
  {
    var head, rest := ds[..i + 1], ds[i + 1..];
    assert ds == head + rest && head == ds[..i] + [ds[i]];
    ApplyConcat(m, head, rest);
    ApplySnoc(m, ds[..i], ds[i]);
    UnsetPartStays(ApplyDeltas(m, head), rest, part);
  }

  /** The count steps of a list, in order. */
  function Steps(ds: seq<Delta>): seq<int> {
    if ds == [] then [] else (if ds[0].ProofCount? then [ds[0].n] else []) + Steps(ds[1..])
  }

  function Sum(steps: seq<int>): int {
    if steps == [] then 0 else steps[0] + Sum(steps[1..])
  }

  /** The count after the steps, held between the ends at each of them. */
  function Running(count: int, steps: seq<int>): int
    decreases |steps|
  {
    if steps == [] then count
    else
      var next := count + steps[0];
      Running(if next < 0 then 0 else if next > MAX_U32 then MAX_U32 else next, steps[1..])
  }

  lemma {:induction false} CountIsRunningSum(m: StoredMemory, ds: seq<Delta>)
    ensures ApplyDeltas(m, ds).proofCount == Running(m.proofCount, Steps(ds))
    decreases |ds|
  {
    if ds != [] {
      CountIsRunningSum(ApplyDelta(m, ds[0]), ds[1..]);
      if ds[0].ProofCount? {
        assert Steps(ds)[0] == ds[0].n && Steps(ds)[1..] == Steps(ds[1..]);
      } else {
        assert Steps(ds) == Steps(ds[1..]);
      }
    }
  }

  /** Where no step reaches an end, the count is the plain sum, whatever the order. */
  lemma {:induction false} CountIsPlainSum(count: int, steps: seq<int>)
    requires forall i :: 0 <= i <= |steps| ==> 0 <= count + Sum(steps[..i]) <= MAX_U32
    ensures Running(count, steps) == count + Sum(steps)
    decreases |steps|
  {
    assert steps[..|steps|] == steps;
    if steps != [] {
      assert steps[..1] == [steps[0]] && [steps[0]][1..] == [];
      assert Sum(steps[..1]) == steps[0];
      forall i | 0 <= i <= |steps[1..]| ensures 0 <= count + steps[0] + Sum(steps[1..][..i]) <= MAX_U32 {
        assert steps[..i + 1][0] == steps[0] && steps[..i + 1][1..] == steps[1..][..i];
      }
      CountIsPlainSum(count + steps[0], steps[1..]);
    }
  }

  /** The last value a list merges under `key`, over all its merges. */
  function LastMerged(ds: seq<Delta>, key: string): Option<string> {
    if ds == [] then None
    else Or(LastMerged(ds[1..], key), if ds[0].MergeMetadata? then LastValue(ds[0].pairs, key) else None)
  }

  /** Over a list, every key reads as last merged, or as before. */
  lemma {:induction false} MetadataIsLastMerged(m: StoredMemory, ds: seq<Delta>, key: string)
    ensures Lookup(ApplyDeltas(m, ds).metadata, key) == Or(LastMerged(ds, key), Lookup(m.metadata, key))
    decreases |ds|
  {
    if ds != [] {
      MetadataIsLastMerged(ApplyDelta(m, ds[0]), ds[1..], key);
      if ds[0].MergeMetadata? { MergeMetadataMeans(m, ds[0].pairs, key); }
    }
  }

  // ---- In place ------------------------------------------------------------------------------------------------

  /** The memory a patch edits. */
  class Item {
    var m: StoredMemory

    constructor (m: StoredMemory)
      ensures this.m == m
    {
      this.m := m;
    }

    /** Applies one delta; only the fields it names change. */
    method Apply(d: Delta)
      modifies this
      ensures m == ApplyDelta(old(m), d)
    {
      match d
      case ProofCount(n) => m := m.(proofCount := ClampU32(m.proofCount + n));
      case SetText(t) => m := m.(text := t);
      case SetVector(b) => m := m.(body := b);
      case SetTags(t) => m := m.(tags := t);
      case SetEntityIds(e) => m := m.(entityIds := e);
      case SetTimestamps(ts) => m := m.(timestamps := ts);
      case Touch(at) => m := m.(timestamps := m.timestamps.(updatedAt := Some(at)));
      case MergeTimestamps(ts) =>
        var cur := m.timestamps;
        cur := cur.(eventDate := Or(ts.eventDate, cur.eventDate));
        cur := cur.(occurredStart := Or(ts.occurredStart, cur.occurredStart));
        cur := cur.(occurredEnd := Or(ts.occurredEnd, cur.occurredEnd));
        cur := cur.(mentionedAt := Or(ts.mentionedAt, cur.mentionedAt));
        cur := cur.(updatedAt := Or(ts.updatedAt, cur.updatedAt));
        m := m.(timestamps := cur);
      case MergeMetadata(pairs) =>
        var md := MergePairs(m.metadata, pairs);
        m := m.(metadata := StableSort(md, MetadataLe));
    }

    /** Applies deltas in order. */
    method ApplyAll(ds: seq<Delta>)
      modifies this
      ensures m == ApplyDeltas(old(m), ds)
    {
      for i := 0 to |ds|
        invariant ApplyDeltas(m, ds[i..]) == ApplyDeltas(old(m), ds)
      {
        assert ds[i..][0] == ds[i] && ds[i..][1..] == ds[i + 1..];
        Apply(ds[i]);
      }
    }
  }

  /** Overwrites or appends pair by pair. */
  method MergePairs(md0: Metadata, pairs: Metadata) returns (md: Metadata)
    ensures md == PutAllMetadata(md0, pairs)
  {
    md := md0;
    for i := 0 to |pairs|
      invariant PutAllMetadata(md, pairs[i..]) == PutAllMetadata(md0, pairs)
    {
      assert pairs[i..][0] == pairs[i] && pairs[i..][1..] == pairs[i + 1..];
      md := PutPair(md, pairs[i].0, pairs[i].1);
    }
  }

  method PutPair(md0: Metadata, k: string, v: string) returns (md: Metadata)
    ensures md == PutMetadata(md0, k, v)
  {
    var i := 0;
    while i < |md0| && md0[i].0 != k
      invariant 0 <= i <= |md0|
      invariant PutMetadata(md0, k, v) == md0[..i] + PutMetadata(md0[i..], k, v)
    {
      assert md0[i..][1..] == md0[i + 1..];
      i := i + 1;
    }
    if i < |md0| {
      md := md0[i := (k, v)];
      assert md0[i..][1..] == md0[i + 1..];
    } else {
      md := md0 + [(k, v)];
    }
  }
}

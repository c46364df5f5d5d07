/** Stored memories, bulk-delete predicates and patch deltas
    (crates/mlake-core/src/memory.rs, predicate.rs and wal.rs). */
module Memories {
  import opened Tags
  import opened Sorting

  datatype Option<+T> = None | Some(value: T)

  function Or<T>(a: Option<T>, b: Option<T>): Option<T> {
    if a.Some? then a else b
  }

  /** Sixteen-byte ids compare as big-endian numbers, so a natural number stands for one. */
  type MemoryId = nat

  datatype Timestamps = Timestamps(
    eventDate: Option<int>,
    occurredStart: Option<int>,
    occurredEnd: Option<int>,
    mentionedAt: Option<int>,
    updatedAt: Option<int>)

  /** `body` stands for the embedding, which nothing modelled here reads; the index text and the
      outgoing links are left out. */
  datatype StoredMemory = StoredMemory(
    id: MemoryId,
    memoryType: nat,
    tags: seq<string>,
    timestamps: Timestamps,
    proofCount: nat,
    entityIds: set<nat>,
    metadata: seq<(string, string)>,
    text: string,
    body: nat,
    writeSeq: nat)

  datatype Predicate = Predicate(
    memoryTypes: seq<nat>,
    metadataEquals: seq<(string, string)>,
    tags: seq<string>,
    tagsMode: TagsMatch,
    updatedFrom: Option<int>,
    updatedTo: Option<int>)
  {
    /** Whether `m` satisfies every condition; an empty predicate matches everything. */
    predicate Matches(m: StoredMemory) {
      && (memoryTypes == [] || m.memoryType in memoryTypes)
      && (tags == [] || TagFilter(tags, tagsMode).Matches(m.tags))
      && InWindow(m.timestamps.updatedAt)
      && forall kv :: kv in metadataEquals ==> kv in m.metadata
    }

    predicate InWindow(updatedAt: Option<int>) {
      updatedFrom.Some? || updatedTo.Some? ==>
        && updatedAt.Some?
        && (updatedFrom.Some? ==> updatedFrom.value < updatedAt.value)
        && (updatedTo.Some? ==> updatedAt.value < updatedTo.value)
    }
  }

  /** What a predicate says: one of the listed types, the tag sets related as the mode asks, a known write
      time strictly between the bounds, and every listed metadata pair; what is not given is not asked. */
  lemma PredicateMeans(p: Predicate, m: StoredMemory)
    ensures p.Matches(m) <==>
            && (p.memoryTypes == [] || exists i :: 0 <= i < |p.memoryTypes| && p.memoryTypes[i] == m.memoryType)
            && (p.tags == [] || Relates(p.tagsMode, TagSet(m.tags), TagSet(p.tags)))
            && (p.updatedFrom.None? || (m.timestamps.updatedAt.Some? && m.timestamps.updatedAt.value > p.updatedFrom.value))
            && (p.updatedTo.None? || (m.timestamps.updatedAt.Some? && m.timestamps.updatedAt.value < p.updatedTo.value))
            && (set kv | kv in p.metadataEquals) <= (set kv | kv in m.metadata)
  {
    FilterRelatesSets(TagFilter(p.tags, p.tagsMode), m.tags);
    var asked, carried := set kv | kv in p.metadataEquals, set kv | kv in m.metadata;
    assert forall kv :: kv in asked <==> kv in p.metadataEquals;
    assert forall kv :: kv in carried <==> kv in m.metadata;
  }

  /** A predicate delete together with the sequence of the entry that issued it. */
  datatype PredicateDelete = PredicateDelete(at: nat, pred: Predicate) {

    /** The delete hits only writes strictly older than its own entry. */
    predicate Kills(m: StoredMemory) {
      m.writeSeq < at && pred.Matches(m)
    }
  }

  predicate KilledByAny(preds: seq<PredicateDelete>, m: StoredMemory) {
    exists p :: p in preds && p.Kills(m)
  }

  const MAX_U32: nat := 0xFFFF_FFFF

  datatype Delta =
    | ProofCount(n: int)
    | SetText(text: string)
    | SetVector(body: nat)
    | SetTags(tags: seq<string>)
    | SetEntityIds(entities: set<nat>)
    | SetTimestamps(ts: Timestamps)
    | MergeMetadata(pairs: seq<(string, string)>)
    | Touch(at: int)
    | MergeTimestamps(ts: Timestamps)

  function ClampU32(n: int): nat {
    if n < 0 then 0 else if n > MAX_U32 then MAX_U32 else n
  }

  /** Sets the first pair with key `k`, or appends one. */
  function PutMetadata(metadata: seq<(string, string)>, k: string, v: string): seq<(string, string)> {
    if metadata == [] then [(k, v)]
    else if metadata[0].0 == k then [(k, v)] + metadata[1..]
    else [metadata[0]] + PutMetadata(metadata[1..], k, v)
  }

  function PutAllMetadata(metadata: seq<(string, string)>, pairs: seq<(string, string)>): seq<(string, string)>
    decreases |pairs|
  {
    if pairs == [] then metadata
    else PutAllMetadata(PutMetadata(metadata, pairs[0].0, pairs[0].1), pairs[1..])
  }

  predicate TextLe(a: string, b: string) {
    a == "" || (b != "" && (a[0] < b[0] || (a[0] == b[0] && TextLe(a[1..], b[1..]))))
  }

  /** Metadata is kept in key order. */
  predicate MetadataLe(a: (string, string), b: (string, string)) {
    TextLe(a.0, b.0)
  }

  function ApplyDelta(m: StoredMemory, d: Delta): (r: StoredMemory)
    ensures r.id == m.id && r.memoryType == m.memoryType && r.writeSeq == m.writeSeq
  {
    match d
    case ProofCount(n) => m.(proofCount := ClampU32(m.proofCount + n))
    case SetText(t) => m.(text := t)
    case SetVector(b) => m.(body := b)
    case SetTags(t) => m.(tags := t)
    case SetEntityIds(e) => m.(entityIds := e)
    case SetTimestamps(ts) => m.(timestamps := ts)
    case MergeMetadata(pairs) => m.(metadata := StableSort(PutAllMetadata(m.metadata, pairs), MetadataLe))
    case Touch(at) => m.(timestamps := m.timestamps.(updatedAt := Some(at)))
    case MergeTimestamps(ts) =>
      var cur := m.timestamps;
      m.(timestamps := Timestamps(
        Or(ts.eventDate, cur.eventDate),
        Or(ts.occurredStart, cur.occurredStart),
        Or(ts.occurredEnd, cur.occurredEnd),
        Or(ts.mentionedAt, cur.mentionedAt),
        Or(ts.updatedAt, cur.updatedAt)))
  }

  /** Deltas in order. A patch never moves a memory to another id, type or write sequence. */
  function ApplyDeltas(m: StoredMemory, ds: seq<Delta>): (r: StoredMemory)
    ensures r.id == m.id && r.memoryType == m.memoryType && r.writeSeq == m.writeSeq
    decreases |ds|
  {
    if ds == [] then m else ApplyDeltas(ApplyDelta(m, ds[0]), ds[1..])
  }
}

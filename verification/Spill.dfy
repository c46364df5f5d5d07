/** External merge sort with spilled runs (crates/mlake-index/src/spill.rs:81-215) and the grouping of
    its output into table records (crates/mlake-index/src/streaming.rs:765-782). */
module Spill {
  import opened Memories
  import opened Sorting

  /** Sixteen-byte keys compare as big-endian numbers. */
  datatype Pair<+V> = Pair(key: nat, value: V)

  predicate KeyLe<V>(a: Pair<V>, b: Pair<V>) {
    a.key <= b.key
  }

  lemma KeyLeIsPreorder<V(!new)>()
    ensures TotalPreorder<Pair<V>>(KeyLe)
  {
  }

  lemma JoinSplit<V>(qs: seq<seq<V>>, r: nat)
    requires r < |qs|
    ensures Join(qs) == Join(qs[..r]) + (qs[r] + Join(qs[r + 1..]))
  {
    assert qs == qs[..r] + qs[r..] && qs[r..][1..] == qs[r + 1..];
    JoinConcat(qs[..r], qs[r..]);
  }

  lemma {:induction false} JoinMembers<V>(qs: seq<seq<V>>, y: V)
    ensures y in Join(qs) <==> exists i :: 0 <= i < |qs| && y in qs[i]
  {
    if qs != [] {
      JoinMembers(qs[1..], y);
      assert forall i :: 0 <= i < |qs[1..]| ==> qs[1..][i] == qs[i + 1];
      if exists i :: 0 <= i < |qs| && y in qs[i] {
        var i :| 0 <= i < |qs| && y in qs[i];
        if i > 0 { assert y in qs[1..][i - 1]; }
      }
    }
  }

  lemma {:induction false} NoneTied<V>(s: seq<Pair<V>>, x: Pair<V>)
    requires forall y :: y in s ==> y.key != x.key
    ensures Class(s, x, KeyLe) == []
  {
    if s != [] { NoneTied(s[1..], x); }
  }

  // ---- The k-way merge step -------------------------------------------------------------------------

  /** Queue `r` holds the head that is least by key and then by run. */
  ghost predicate Leads<V>(qs: seq<seq<Pair<V>>>, r: nat) {
    && r < |qs| && qs[r] != []
    && forall i :: 0 <= i < |qs| && qs[i] != [] ==>
         qs[r][0].key < qs[i][0].key || (qs[r][0].key == qs[i][0].key && r <= i)
  }

  ghost predicate AllSorted<V>(qs: seq<seq<Pair<V>>>) {
    forall i :: 0 <= i < |qs| ==> Sorted(qs[i], KeyLe)
  }

  lemma LeaderIsLeast<V(!new)>(qs: seq<seq<Pair<V>>>, r: nat, i: nat, y: Pair<V>)
    requires AllSorted(qs) && Leads(qs, r) && i < |qs| && y in qs[i]
    ensures qs[r][0].key <= y.key && (i < r ==> qs[r][0].key < y.key)
  {
    KeyLeIsPreorder<V>();
    HeadIsLeast(qs[i], y, KeyLe);
  }

  /** The tie class of joined queues, split around queue `r`. */
  lemma ClassAround<V(!new)>(qs: seq<seq<Pair<V>>>, r: nat, z: Pair<V>)
    requires r < |qs|
    ensures Class(Join(qs), z, KeyLe) ==
            Class(Join(qs[..r]), z, KeyLe) + (Class(qs[r], z, KeyLe) + Class(Join(qs[r + 1..]), z, KeyLe))
  {
    JoinSplit(qs, r);
    ClassConcat(Join(qs[..r]), qs[r] + Join(qs[r + 1..]), z, KeyLe);
    ClassConcat(qs[r], Join(qs[r + 1..]), z, KeyLe);
  }

  /** Queues before the leader have nothing tied with its head. */
  lemma NoneBeforeLeader<V(!new)>(qs: seq<seq<Pair<V>>>, r: nat, z: Pair<V>)
    requires AllSorted(qs) && Leads(qs, r) && qs[r][0].key == z.key
    ensures Class(Join(qs[..r]), z, KeyLe) == []
  {
    var pre := Join(qs[..r]);
    forall y | y in pre ensures y.key != z.key {
      JoinMembers(qs[..r], y);
      var i :| 0 <= i < |qs[..r]| && y in qs[..r][i];
      LeaderIsLeast(qs, r, i, y);
    }
    NoneTied(pre, z);
  }

  /** Taking the leading head off its queue takes it off every tie class, at the front. */
  lemma LeaderClass<V(!new)>(qs: seq<seq<Pair<V>>>, r: nat, z: Pair<V>)
    requires AllSorted(qs) && Leads(qs, r)
    ensures Class(Join(qs), z, KeyLe) ==
            (if Tied(qs[r][0], z, KeyLe) then [qs[r][0]] else []) + Class(Join(qs[r := qs[r][1..]]), z, KeyLe)
  {
    var x, rest := qs[r][0], qs[r][1..];
    var qs' := qs[r := rest];
    assert qs'[..r] == qs[..r] && qs'[r + 1..] == qs[r + 1..];
    ClassAround(qs, r, z);
    ClassAround(qs', r, z);
    var pre, mid, tail, post :=
      Class(Join(qs[..r]), z, KeyLe), Class(qs[r], z, KeyLe), Class(rest, z, KeyLe), Class(Join(qs[r + 1..]), z, KeyLe);
    HeadClass(qs[r], z);
    if Tied(x, z, KeyLe) {
      NoneBeforeLeader(qs, r, z);
      PullFront(pre, mid, tail, post, x);
    }
  }

  lemma HeadClass<V>(q: seq<Pair<V>>, z: Pair<V>)
    requires q != []
    ensures Class(q, z, KeyLe) == if Tied(q[0], z, KeyLe) then [q[0]] + Class(q[1..], z, KeyLe) else Class(q[1..], z, KeyLe)
  {
  }

  lemma PullFront<T>(pre: seq<T>, mid: seq<T>, tail: seq<T>, post: seq<T>, x: T)
    requires pre == [] && mid == [x] + tail
    ensures pre + (mid + post) == [x] + (pre + (tail + post))
  {
  }

  lemma MergeStep<V(!new)>(qs: seq<seq<Pair<V>>>, r: nat)
    requires AllSorted(qs) && Leads(qs, r)
    ensures StableSort(Join(qs), KeyLe) == [qs[r][0]] + StableSort(Join(qs[r := qs[r][1..]]), KeyLe)
  {
    KeyLeIsPreorder<V>();
    var x, qs' := qs[r][0], qs[r := qs[r][1..]];
    var tail := StableSort(Join(qs'), KeyLe);
    SortIsStable(Join(qs'), KeyLe);
    forall y | y in tail ensures KeyLe(x, y) {
      SortMembers(Join(qs'), y, KeyLe);
      JoinMembers(qs', y);
      var i :| 0 <= i < |qs'| && y in qs'[i];
      assert y in qs[i];
      LeaderIsLeast(qs, r, i, y);
    }
    SortedCons(x, tail, KeyLe);
    forall z ensures Class([x] + tail, z, KeyLe) == Class(Join(qs), z, KeyLe) {
      LeaderClass(qs, r, z);
      assert ([x] + tail)[1..] == tail;
    }
    StableSortUnique([x] + tail, Join(qs), KeyLe);
  }

  lemma {:induction false} NothingLeft<V>(qs: seq<seq<V>>)
    requires forall i :: 0 <= i < |qs| ==> qs[i] == []
    ensures Join(qs) == []
  {
    if qs != [] { NothingLeft(qs[1..]); }
  }

  /** The merged output: a sorted vector, or run readers with a heap that holds the next pair of every
      run that has one. */
  class Merge<V(!new)> {
    var inMemory: bool
    var rest: seq<Pair<V>>
    var readers: seq<seq<Pair<V>>>
    var heap: map<nat, Pair<V>>

    ghost predicate Valid()
      reads this
    {
      && (forall run :: run in heap ==> run < |readers|)
      && (forall run :: 0 <= run < |readers| && run !in heap ==> readers[run] == [])
      && AllSorted(Queues())
    }

    function Queue(run: nat): seq<Pair<V>>
      requires run < |readers|
      reads this
    {
      (if run in heap then [heap[run]] else []) + readers[run]
    }

    function Queues(): (qs: seq<seq<Pair<V>>>)
      reads this
      ensures |qs| == |readers|
      ensures forall i :: 0 <= i < |qs| ==> qs[i] == Queue(i)
    {
      seq(|readers|, i requires 0 <= i < |readers| reads this => Queue(i))
    }

    /** What is still to come. */
    function Pending(): seq<Pair<V>>
      reads this
    {
      if inMemory then rest else StableSort(Join(Queues()), KeyLe)
    }

    constructor InMemory(sorted: seq<Pair<V>>)
      ensures Valid() && Pending() == sorted
    {
      inMemory, rest, readers, heap := true, sorted, [], map[];
    }

    /** Opens a reader per run and reads its first pair into the heap. */
    constructor Runs(runs: seq<seq<Pair<V>>>)
      requires AllSorted(runs)
      ensures Valid() && Pending() == StableSort(Join(runs), KeyLe)
    {
      inMemory, rest := false, [];
      readers := seq(|runs|, i requires 0 <= i < |runs| => if runs[i] == [] then [] else runs[i][1..]);
      heap := map i: nat | i < |runs| && runs[i] != [] :: runs[i][0];
      new;
      forall i | 0 <= i < |runs| ensures Queue(i) == runs[i] {
        if runs[i] != [] { assert runs[i] == [runs[i][0]] + runs[i][1..]; }
      }
      assert Queues() == runs;
    }

    /** The run whose heap entry comes first: smallest key, then smallest run. */
    method Least() returns (run: nat)
      requires Valid() && heap != map[]
      ensures run in heap && Leads(Queues(), run)
    {
      var runs := heap.Keys;
      run :| run in runs;
      runs := runs - {run};
      while runs != {}
        invariant runs <= heap.Keys && run in heap
        invariant forall i :: i in heap && i !in runs ==> heap[run].key < heap[i].key || (heap[run].key == heap[i].key && run <= i)
        decreases runs
      {
        var i :| i in runs;
        if heap[i].key < heap[run].key || (heap[i].key == heap[run].key && i < run) { run := i; }
        runs := runs - {i};
      }
      var qs: seq<seq<Pair<V>>> := Queues();
      forall i | 0 <= i < |qs| && qs[i] != []
        ensures qs[run][0].key < qs[i][0].key || (qs[run][0].key == qs[i][0].key && run <= i)
      {
        assert qs[i] == Queue(i);
      }
    }

    /** The next pair in ascending order. */
    method Next() returns (r: Option<Pair<V>>)
      requires Valid()
      modifies this
      ensures Valid()
      ensures r.None? ==> old(Pending()) == [] && Pending() == []
      ensures r.Some? ==> old(Pending()) == [r.value] + Pending()
    {
      if inMemory {
        if rest == [] { return None; }
        assert rest == [rest[0]] + rest[1..];
        r := Some(rest[0]);
        rest := rest[1..];
        forall i | 0 <= i < |readers| ensures Queues()[i] == old(Queues())[i] {
          assert Queue(i) == old(Queue(i));
        }
        return;
      }
      if heap == map[] {
        NothingLeft(Queues());
        return None;
      }
      var run := Least();
      MergeStep(Queues(), run);
      r := Some(heap[run]);
      Advance(run);
    }

    /** Replaces the popped heap entry by its run's next pair, if there is one. */
    method Advance(run: nat)
      requires Valid() && run in heap
      modifies this`heap, this`readers
      ensures Valid() && Queues() == old(Queues())[run := old(Queues())[run][1..]]
    {
      ghost var qs: seq<seq<Pair<V>>> := Queues();
      ghost var after := qs[run := qs[run][1..]];
      assert qs[run] == [heap[run]] + readers[run];
      if readers[run] == [] {
        heap := heap - {run};
      } else {
        heap := heap[run := readers[run][0]];
        readers := readers[run := readers[run][1..]];
      }
      forall i | 0 <= i < |qs| ensures Queue(i) == after[i] {
        if i != run { assert qs[i] == old(Queue(i)); }
      }
      assert Queues() == after;
    }
  }

  /** Buffers pairs and spills sorted runs whenever the buffer reaches its cap. */
  class ExternalSort<V(!new)> {
    var buf: seq<Pair<V>>
    var bufBytes: nat
    const capBytes: nat
    const size: V -> nat
    var runs: seq<seq<Pair<V>>>
    ghost var added: seq<Pair<V>>
    ghost var cuts: seq<seq<Pair<V>>>

    /** Everything added so far is in the runs, cut by cut, and in the buffer. */
    ghost predicate Valid()
      reads this
    {
      && capBytes >= 4096 && bufBytes < capBytes
      && bufBytes == Bytes(buf)
      && |cuts| == |runs|
      && (forall i :: 0 <= i < |runs| ==> runs[i] == StableSort(cuts[i], KeyLe))
      && added == Join(cuts) + buf
    }

    ghost function Bytes(s: seq<Pair<V>>): nat {
      if s == [] then 0 else Bytes(s[..|s| - 1]) + 20 + size(s[|s| - 1].value)
    }

    constructor (cap: nat, size: V -> nat)
      ensures Valid() && added == [] && runs == []
    {
      this.size := size;
      capBytes := if cap < 4096 then 4096 else cap;
      buf, bufBytes, runs, added, cuts := [], 0, [], [], [];
    }

    method Add(key: nat, value: V)
      requires Valid()
      modifies this
      ensures Valid() && added == old(added) + [Pair(key, value)]
    {
      bufBytes := bufBytes + 20 + size(value);
      buf := buf + [Pair(key, value)];
      added := added + [Pair(key, value)];
      assert buf[..|buf| - 1] == old(buf);
      if bufBytes >= capBytes {
        SpillBuffer();
      }
    }

    method SpillBuffer()
      requires capBytes >= 4096 && |cuts| == |runs| && added == Join(cuts) + buf
      requires forall i :: 0 <= i < |runs| ==> runs[i] == StableSort(cuts[i], KeyLe)
      requires buf == [] ==> bufBytes == 0
      modifies this
      ensures Valid() && added == old(added) && buf == []
    {
      if buf == [] { return; }
      JoinConcat(cuts, [buf]);
      assert Join([buf]) == buf;
      runs := runs + [StableSort(buf, KeyLe)];
      cuts := cuts + [buf];
      buf, bufBytes := [], 0;
    }

    /** The merged stream is the stable sort of everything added, wherever the buffer was cut. */
    method Finish() returns (merge: Merge<V>)
      requires Valid()
      modifies this
      ensures fresh(merge) && merge.Valid()
      ensures merge.Pending() == StableSort(old(added), KeyLe)
    {
      if runs == [] {
        assert cuts == [] && added == buf;
        merge := new Merge<V>.InMemory(StableSort(buf, KeyLe));
        return;
      }
      SpillBuffer();
      assert added == Join(cuts);
      SortedRuns(cuts, runs);
      merge := new Merge<V>.Runs(runs);
    }
  }

  lemma {:induction false} RunsClass<V(!new)>(cuts: seq<seq<Pair<V>>>, runs: seq<seq<Pair<V>>>, x: Pair<V>)
    requires |cuts| == |runs| && forall i :: 0 <= i < |runs| ==> runs[i] == StableSort(cuts[i], KeyLe)
    ensures Class(Join(runs), x, KeyLe) == Class(Join(cuts), x, KeyLe)
  {
    if runs != [] {
      KeyLeIsPreorder<V>();
      SortIsStable(cuts[0], KeyLe);
      RunsClass(cuts[1..], runs[1..], x);
      ClassConcat(runs[0], Join(runs[1..]), x, KeyLe);
      ClassConcat(cuts[0], Join(cuts[1..]), x, KeyLe);
    }
  }

  /** Sorting the joined runs is sorting the joined cuts. */
  lemma SortedRuns<V(!new)>(cuts: seq<seq<Pair<V>>>, runs: seq<seq<Pair<V>>>)
    requires |cuts| == |runs| && forall i :: 0 <= i < |runs| ==> runs[i] == StableSort(cuts[i], KeyLe)
    ensures AllSorted(runs)
    ensures StableSort(Join(runs), KeyLe) == StableSort(Join(cuts), KeyLe)
  {
    KeyLeIsPreorder<V>();
    forall i | 0 <= i < |runs| ensures Sorted(runs[i], KeyLe) { SortIsStable(cuts[i], KeyLe); }
    SortIsStable(Join(runs), KeyLe);
    forall x ensures Class(StableSort(Join(runs), KeyLe), x, KeyLe) == Class(Join(cuts), x, KeyLe) {
      RunsClass(cuts, runs, x);
    }
    StableSortUnique(StableSort(Join(runs), KeyLe), Join(cuts), KeyLe);
  }

  // ---- Grouping into table records ------------------------------------------------------------------

  type Bytes = seq<nat>

  /** The pairs with key `k`, in order. */
  function OfKey<V>(s: seq<Pair<V>>, k: nat): seq<Pair<V>> {
    if s == [] then []
    else OfKey(s[..|s| - 1], k) + if s[|s| - 1].key == k then [s[|s| - 1]] else []
  }

  function Values(s: seq<Pair<Bytes>>): Bytes {
    if s == [] then [] else Values(s[..|s| - 1]) + s[|s| - 1].value
  }

  ghost predicate HasKey<V>(s: seq<Pair<V>>, k: nat) {
    exists i :: 0 <= i < |s| && s[i].key == k
  }

  /** One record per key of `s`, strictly ascending, each with its key's values joined in order. */
  ghost predicate IsTable(recs: seq<Pair<Bytes>>, s: seq<Pair<Bytes>>) {
    && Ascending(recs)
    && (forall k :: HasKey(recs, k) <==> HasKey(s, k))
    && (forall i :: 0 <= i < |recs| ==> recs[i].value == Values(OfKey(s, recs[i].key)))
  }

  lemma HasKeySnoc<V>(s: seq<Pair<V>>, p: Pair<V>, k: nat)
    ensures HasKey(s + [p], k) <==> HasKey(s, k) || p.key == k
  {
    if HasKey(s, k) {
      var i :| 0 <= i < |s| && s[i].key == k;
      assert (s + [p])[i].key == k;
    }
    assert (s + [p])[|s|] == p;
  }

  lemma OfKeySnoc<V>(s: seq<Pair<V>>, p: Pair<V>, k: nat)
    ensures OfKey(s + [p], k) == OfKey(s, k) + if p.key == k then [p] else []
  {
    assert (s + [p])[..|s|] == s;
  }

  lemma ValuesSnoc(s: seq<Pair<Bytes>>, p: Pair<Bytes>)
    ensures Values(s + [p]) == Values(s) + p.value
  {
    assert (s + [p])[..|s|] == s;
  }

  lemma {:induction false} OfKeyAbsent<V>(s: seq<Pair<V>>, k: nat)
    requires !HasKey(s, k)
    ensures OfKey(s, k) == []
  {
    if s != [] {
      var n := |s| - 1;
      assert s == s[..n] + [s[n]];
      HasKeySnoc(s[..n], s[n], k);
      OfKeyAbsent(s[..n], k);
    }
  }

  ghost predicate Ascending(recs: seq<Pair<Bytes>>) {
    forall i, j :: 0 <= i < j < |recs| ==> recs[i].key < recs[j].key
  }

  lemma AscendingSameKeys(a: seq<Pair<Bytes>>, b: seq<Pair<Bytes>>)
    requires Ascending(a) && |a| == |b| && forall i :: 0 <= i < |a| ==> a[i].key == b[i].key
    ensures Ascending(b)
    ensures forall k :: HasKey(a, k) <==> HasKey(b, k)
  {
    forall i, j | 0 <= i < j < |b| ensures b[i].key < b[j].key {
      assert a[i].key < a[j].key;
    }
    forall k ensures HasKey(a, k) <==> HasKey(b, k) {
      if HasKey(a, k) {
        var i :| 0 <= i < |a| && a[i].key == k;
        assert b[i].key == k;
      }
      if HasKey(b, k) {
        var i :| 0 <= i < |b| && b[i].key == k;
        assert a[i].key == k;
      }
    }
  }

  /** Ascending pairs: the next one either repeats the open key or opens a larger one. */
  lemma TableExtend(recs: seq<Pair<Bytes>>, open: Pair<Bytes>, s: seq<Pair<Bytes>>, p: Pair<Bytes>)
    requires IsTable(recs + [open], s) && p.key == open.key
    ensures IsTable(recs + [Pair(open.key, open.value + p.value)], s + [p])
  {
    var before, after := recs + [open], recs + [Pair(open.key, open.value + p.value)];
    var n := |recs|;
    AscendingSameKeys(before, after);
    assert before[n] == open;
    forall k ensures HasKey(after, k) <==> HasKey(s + [p], k) {
      HasKeySnoc(s, p, k);
    }
    forall i | 0 <= i < |after| ensures after[i].value == Values(OfKey(s + [p], after[i].key)) {
      assert before[i].value == Values(OfKey(s, before[i].key));
      OfKeySnoc(s, p, after[i].key);
      if i == n {
        ValuesSnoc(OfKey(s, open.key), p);
      } else {
        assert before[i].key < before[n].key;
        assert OfKey(s + [p], after[i].key) == OfKey(s, after[i].key);
      }
    }
  }

  lemma TableOpen(recs: seq<Pair<Bytes>>, s: seq<Pair<Bytes>>, p: Pair<Bytes>)
    requires IsTable(recs, s)
    requires forall i :: 0 <= i < |recs| ==> recs[i].key < p.key
    ensures IsTable(recs + [p], s + [p])
  {
    var after := recs + [p];
    assert !HasKey(recs, p.key) && !HasKey(s, p.key);
    OfKeyAbsent(s, p.key);
    AscendingSnoc(recs, p);
    forall k ensures HasKey(after, k) <==> HasKey(s + [p], k) {
      HasKeySnoc(recs, p, k);
      HasKeySnoc(s, p, k);
    }
    forall i | 0 <= i < |after| ensures after[i].value == Values(OfKey(s + [p], after[i].key)) {
      OfKeySnoc(s, p, after[i].key);
      if i == |recs| {
        ValuesSnoc([], p);
        assert [] + [p] == [p];
      } else {
        assert after[i] == recs[i];
        assert OfKey(s + [p], after[i].key) == OfKey(s, after[i].key);
      }
    }
  }

  lemma AscendingSnoc(recs: seq<Pair<Bytes>>, p: Pair<Bytes>)
    requires Ascending(recs) && forall i :: 0 <= i < |recs| ==> recs[i].key < p.key
    ensures Ascending(recs + [p])
  {
    var r := recs + [p];
    forall i, j | 0 <= i < j < |r| ensures r[i].key < r[j].key {
      assert r[i] == recs[i];
    }
  }

  /** A table of the sorted pairs is a table of the pairs as they were added. */
  lemma TableOfSorted(recs: seq<Pair<Bytes>>, s: seq<Pair<Bytes>>)
    requires IsTable(recs, StableSort(s, KeyLe))
    ensures IsTable(recs, s)
  {
    KeyLeIsPreorder<Bytes>();
    var r := StableSort(s, KeyLe);
    SortIsStable(s, KeyLe);
    forall k: nat ensures OfKey(r, k) == OfKey(s, k) {
      ClassIsOfKey(r, Pair(k, []));
      ClassIsOfKey(s, Pair(k, []));
    }
    forall k ensures HasKey(r, k) <==> HasKey(s, k) {
      if HasKey(r, k) {
        var i :| 0 <= i < |r| && r[i].key == k;
        SortMembers(s, r[i], KeyLe);
      }
      if HasKey(s, k) {
        var i :| 0 <= i < |s| && s[i].key == k;
        SortMembers(s, s[i], KeyLe);
      }
    }
  }

  lemma {:induction false} ClassIsOfKey<V>(s: seq<Pair<V>>, x: Pair<V>)
    ensures Class(s, x, KeyLe) == OfKey(s, x.key)
  {
    if s != [] {
      var n := |s| - 1;
      assert s == s[..n] + [s[n]];
      ClassConcat(s[..n], [s[n]], x, KeyLe);
      ClassIsOfKey(s[..n], x);
    }
  }

  /** What grouping knows after the pairs `done`. */
  ghost predicate Grouped(recs: seq<Pair<Bytes>>, open: Option<Pair<Bytes>>, done: seq<Pair<Bytes>>) {
    match open
    case None => recs == [] && done == []
    case Some(o) => done != [] && o.key == done[|done| - 1].key && IsTable(recs + [o], done)
  }

  /** Joins a pair to the open record or closes that and opens the next. */
  method TakePair(recs0: seq<Pair<Bytes>>, open0: Option<Pair<Bytes>>, p: Pair<Bytes>, ghost done: seq<Pair<Bytes>>)
    returns (recs: seq<Pair<Bytes>>, open: Option<Pair<Bytes>>)
    requires Grouped(recs0, open0, done) && (done != [] ==> done[|done| - 1].key <= p.key)
    ensures Grouped(recs, open, done + [p])
  {
    recs, open := recs0, open0;
    if open.None? {
      TableOpen([], [], p);
      assert [] + [p] == [p];
      open := Some(p);
    } else if open.value.key == p.key {
      TableExtend(recs, open.value, done, p);
      open := Some(Pair(p.key, open.value.value + p.value));
    } else {
      var all := recs + [open.value];
      assert all[|recs|] == open.value;
      assert forall i :: 0 <= i < |recs| ==> all[i].key < all[|recs|].key;
      TableOpen(all, done, p);
      recs, open := all, Some(p);
    }
  }

  lemma NextPair(sorted: seq<Pair<Bytes>>, done: seq<Pair<Bytes>>, p: Pair<Bytes>, rest: seq<Pair<Bytes>>)
    requires sorted == done + ([p] + rest) && Sorted(sorted, KeyLe)
    ensures done != [] ==> done[|done| - 1].key <= p.key
    ensures sorted == (done + [p]) + rest
  {
    assert sorted[|done|] == p;
    assert done != [] ==> KeyLe(sorted[|done| - 1], sorted[|done|]);
  }

  /** Reads a merged stream to its end; each distinct key comes out once, strictly ascending, with its
      values joined in the order they were added. */
  method BuildTable(merge: Merge<Bytes>, ghost added: seq<Pair<Bytes>>) returns (recs: seq<Pair<Bytes>>)
    requires merge.Valid() && merge.Pending() == StableSort(added, KeyLe)
    modifies merge
    ensures IsTable(recs, added)
  {
    recs := [];
    var open: Option<Pair<Bytes>> := None;
    ghost var done: seq<Pair<Bytes>> := [];
    ghost var sorted := merge.Pending();
    KeyLeIsPreorder<Bytes>();
    SortIsStable(added, KeyLe);
    var next := merge.Next();
    while next.Some?
      invariant merge.Valid()
      invariant next.Some? ==> sorted == done + ([next.value] + merge.Pending())
      invariant next.None? ==> sorted == done
      invariant Grouped(recs, open, done)
      decreases |sorted| - |done|
    {
      NextPair(sorted, done, next.value, merge.Pending());
      recs, open := TakePair(recs, open, next.value, done);
      done := done + [next.value];
      next := merge.Next();
      assert next.None? ==> done + [] == done;
    }
    if open.Some? {
      recs := recs + [open.value];
    } else {
      assert recs == [] && done == [];
    }
    TableOfSorted(recs, added);
  }
}

/** The external-memory fold of a first build (crates/mlake-index/src/streaming.rs:213-244, 362-404):
    log operations become per-id events, an external sort groups them, and each id resolves alone.
    Predicate deletes are tested once, against the finished memory. */
module Streaming {
  import opened Memories
  import opened Wal
  import Tags
  import opened Sorting
  import opened Spill

  datatype Change = Item(m: StoredMemory) | Gone | Patched(deltas: seq<Delta>)

  datatype IdEvent = IdEvent(at: nat, change: Change)

  // ---- Specification ----------------------------------------------------------------------------------

  function SpilledOne(e: Event): seq<Pair<IdEvent>> {
    match e.op
    case Upsert(item) => [Pair(item.id, IdEvent(e.at, Item(e.Written())))]
    case Tombstone(id) => [Pair(id, IdEvent(e.at, Gone))]
    case Patch(id, ds) => [Pair(id, IdEvent(e.at, Patched(ds)))]
    case TombstoneWhere(_) => []
    case Guard(_) => []
  }

  function Spilled(evs: seq<Event>): seq<Pair<IdEvent>> {
    if evs == [] then [] else Spilled(evs[..|evs| - 1]) + SpilledOne(evs[|evs| - 1])
  }

  function DeletesOf(evs: seq<Event>): seq<PredicateDelete> {
    if evs == [] then []
    else
      var n := |evs| - 1;
      DeletesOf(evs[..n]) + if evs[n].op.TombstoneWhere? then [evs[n].Delete()] else []
  }

  function ApplyChange(base: Option<StoredMemory>, e: IdEvent): Option<StoredMemory> {
    match e.change
    case Item(m) => Some(m)
    case Gone => None
    case Patched(ds) => if base.Some? then Some(ApplyDeltas(base.value, ds)) else None
  }

  /** Last write wins, with later patches on top. */
  function ResolveEvents(es: seq<IdEvent>): Option<StoredMemory> {
    if es == [] then None else ApplyChange(ResolveEvents(es[..|es| - 1]), es[|es| - 1])
  }

  predicate AtLe(a: IdEvent, b: IdEvent) {
    a.at <= b.at
  }

  function EventsOf(s: seq<Pair<IdEvent>>): seq<IdEvent> {
    if s == [] then [] else EventsOf(s[..|s| - 1]) + [s[|s| - 1].value]
  }

  /** What one id's group comes to. */
  function Survivor(es: seq<IdEvent>, preds: seq<PredicateDelete>): Option<StoredMemory> {
    var base := ResolveEvents(StableSort(es, AtLe));
    if base.Some? && !KilledByAny(preds, base.value) then base else None
  }

  function SurvivorOf(s: seq<Pair<IdEvent>>, preds: seq<PredicateDelete>, x: MemoryId): Option<StoredMemory> {
    Survivor(EventsOf(OfKey(s, x)), preds)
  }

  // ---- The fold as it runs ------------------------------------------------------------------------------

  /** One id's events to its survivor. */
  method ResolveAndEmit(events: seq<IdEvent>, preds: seq<PredicateDelete>, out0: seq<StoredMemory>) returns (out: seq<StoredMemory>)
    ensures out == out0 + One(Survivor(events, preds))
  {
    var sorted := StableSort(events, AtLe);
    var base: Option<StoredMemory> := None;
    for i := 0 to |sorted|
      invariant base == ResolveEvents(sorted[..i])
    {
      assert sorted[..i + 1][..i] == sorted[..i];
      match sorted[i].change
      case Item(m) => base := Some(m);
      case Gone => base := None;
      case Patched(ds) => if base.Some? { base := Some(ApplyDeltas(base.value, ds)); }
    }
    assert sorted[..|sorted|] == sorted;
    out := out0;
    if base.Some? && !KilledByAny(preds, base.value) {
      out := out + [base.value];
    }
  }

  lemma SpilledSnoc(evs: seq<Event>, e: Event)
    ensures Spilled(evs + [e]) == Spilled(evs) + SpilledOne(e)
    ensures DeletesOf(evs + [e]) == DeletesOf(evs) + if e.op.TombstoneWhere? then [e.Delete()] else []
  {
    assert (evs + [e])[..|evs|] == evs;
  }

  /** Adds one operation's event, or collects its predicate. */
  method SpillOp(e: Event, sort: ExternalSort<IdEvent>, preds0: seq<PredicateDelete>, ghost done: seq<Event>)
    returns (preds: seq<PredicateDelete>)
    requires sort.Valid() && sort.added == Spilled(done) && preds0 == DeletesOf(done)
    modifies sort
    ensures sort.Valid() && sort.added == Spilled(done + [e]) && preds == DeletesOf(done + [e])
  {
    SpilledSnoc(done, e);
    preds := preds0;
    match e.op
    case Upsert(item) => sort.Add(item.id, IdEvent(e.at, Item(e.Written())));
    case Tombstone(id) => sort.Add(id, IdEvent(e.at, Gone));
    case Patch(id, ds) => sort.Add(id, IdEvent(e.at, Patched(ds)));
    case TombstoneWhere(p) => preds := preds + [e.Delete()];
    case Guard(_) =>
  }

  lemma SliceSnoc(a: seq<Event>, b: seq<Event>, j: nat)
    requires j < |b|
    ensures a + b[..j] + [b[j]] == a + b[..j + 1]
  {
  }

  /** One entry's operations, in order. */
  method SpillEntry(entry: Entry, sort: ExternalSort<IdEvent>, preds0: seq<PredicateDelete>, ghost done: seq<Event>)
    returns (preds: seq<PredicateDelete>)
    requires sort.Valid() && sort.added == Spilled(done) && preds0 == DeletesOf(done)
    modifies sort
    ensures sort.Valid()
    ensures sort.added == Spilled(done + EntryEvents(entry.at, entry.ops))
    ensures preds == DeletesOf(done + EntryEvents(entry.at, entry.ops))
  {
    preds := preds0;
    ghost var evs := EntryEvents(entry.at, entry.ops);
    ghost var all := done;
    SliceStart(done, evs);
    for j := 0 to |entry.ops|
      invariant all == done + evs[..j]
      invariant sort.Valid() && sort.added == Spilled(all) && preds == DeletesOf(all)
    {
      SliceSnoc(done, evs, j);
      preds := SpillOp(Event(entry.at, entry.ops[j]), sort, preds, all);
      all := all + [evs[j]];
    }
    SliceEnd(done, evs);
  }

  lemma SliceStart(a: seq<Event>, b: seq<Event>)
    ensures a + b[..0] == a
  {
  }

  lemma SliceEnd(a: seq<Event>, b: seq<Event>)
    ensures a + b[..|b|] == a + b
  {
    assert b[..|b|] == b;
  }

  method SpillLog(entries: seq<Entry>, sort: ExternalSort<IdEvent>) returns (preds: seq<PredicateDelete>)
    requires sort.Valid() && sort.added == []
    modifies sort
    ensures sort.Valid() && sort.added == Spilled(Flatten(entries)) && preds == DeletesOf(Flatten(entries))
  {
    preds := [];
    for i := 0 to |entries|
      invariant sort.Valid() && sort.added == Spilled(Flatten(entries[..i])) && preds == DeletesOf(Flatten(entries[..i]))
    {
      preds := SpillEntry(entries[i], sort, preds, Flatten(entries[..i]));
      assert entries[..i + 1][..i] == entries[..i];
    }
    assert entries[..|entries|] == entries;
  }

  /** Strictly ascending by id. */
  ghost predicate Rising(out: seq<StoredMemory>) {
    forall i, j :: 0 <= i < j < |out| ==> out[i].id < out[j].id
  }

  /** `out` lists the survivors of the ids of `s` below `below`, ascending. */
  ghost predicate Emitted(out: seq<StoredMemory>, s: seq<Pair<IdEvent>>, preds: seq<PredicateDelete>, below: int) {
    && Rising(out)
    && (forall i :: 0 <= i < |out| ==> out[i].id < below && SurvivorOf(s, preds, out[i].id) == Some(out[i]))
    && (forall x: MemoryId :: x < below && SurvivorOf(s, preds, x).Some? ==> SurvivorOf(s, preds, x).value in out)
  }

  /** Items are spilled under their own id. */
  ghost predicate OwnIds(s: seq<Pair<IdEvent>>) {
    forall i :: 0 <= i < |s| && s[i].value.change.Item? ==> s[i].value.change.m.id == s[i].key
  }

  ghost predicate AllItems(es: seq<IdEvent>, x: MemoryId) {
    forall i :: 0 <= i < |es| && es[i].change.Item? ==> es[i].change.m.id == x
  }

  lemma {:induction false} GroupOwnIds(s: seq<Pair<IdEvent>>, x: MemoryId)
    requires OwnIds(s)
    ensures AllItems(EventsOf(OfKey(s, x)), x)
  {
    if s != [] {
      var n := |s| - 1;
      GroupOwnIds(s[..n], x);
      if s[n].key == x {
        assert OfKey(s, x)[..|OfKey(s, x)| - 1] == OfKey(s[..n], x);
      } else {
        assert OfKey(s, x) == OfKey(s[..n], x);
      }
    }
  }

  lemma {:induction false} ResolvedId(es: seq<IdEvent>, x: MemoryId)
    requires AllItems(es, x)
    ensures ResolveEvents(es).Some? ==> ResolveEvents(es).value.id == x
  {
    if es != [] { ResolvedId(es[..|es| - 1], x); }
  }

  lemma SurvivorId(s: seq<Pair<IdEvent>>, preds: seq<PredicateDelete>, x: MemoryId)
    requires OwnIds(s)
    ensures SurvivorOf(s, preds, x).Some? ==> SurvivorOf(s, preds, x).value.id == x
  {
    var es := EventsOf(OfKey(s, x));
    GroupOwnIds(s, x);
    var sorted := StableSort(es, AtLe);
    forall i | 0 <= i < |sorted| && sorted[i].change.Item? ensures sorted[i].change.m.id == x {
      SortMembers(es, sorted[i], AtLe);
    }
    ResolvedId(sorted, x);
  }

  lemma NoEvents(s: seq<Pair<IdEvent>>, preds: seq<PredicateDelete>, x: MemoryId)
    requires !HasKey(s, x)
    ensures SurvivorOf(s, preds, x).None?
  {
    OfKeyAbsent(s, x);
  }

  /** Survivors below the open id do not change while its events keep coming. */
  lemma EmittedGrows(out: seq<StoredMemory>, s: seq<Pair<IdEvent>>, preds: seq<PredicateDelete>, below: int, p: Pair<IdEvent>)
    requires Emitted(out, s, preds, below) && p.key >= below
    ensures Emitted(out, s + [p], preds, below)
  {
    forall x: MemoryId | x < below ensures SurvivorOf(s + [p], preds, x) == SurvivorOf(s, preds, x) {
      OfKeySnoc(s, p, x);
      assert OfKey(s + [p], x) == OfKey(s, x);
    }
  }

  function One(r: Option<StoredMemory>): seq<StoredMemory> {
    if r.Some? then [r.value] else []
  }

  lemma RisingSnoc(out: seq<StoredMemory>, m: StoredMemory)
    requires Rising(out) && forall i :: 0 <= i < |out| ==> out[i].id < m.id
    ensures Rising(out + [m])
  {
    var r := out + [m];
    forall i, j | 0 <= i < j < |r| ensures r[i].id < r[j].id {
      assert r[i] == out[i];
    }
  }

  /** Emitting the open id's survivor closes everything up to the next id. */
  lemma EmittedNext(out: seq<StoredMemory>, s: seq<Pair<IdEvent>>, preds: seq<PredicateDelete>, x: nat, below: int)
    requires Emitted(out, s, preds, x) && OwnIds(s) && x < below
    requires forall i :: 0 <= i < |s| ==> s[i].key <= x
    ensures Emitted(out + One(SurvivorOf(s, preds, x)), s, preds, below)
  {
    var r := SurvivorOf(s, preds, x);
    var next := out + One(r);
    SurvivorId(s, preds, x);
    if r.Some? {
      RisingSnoc(out, r.value);
    } else {
      assert next == out;
    }
    forall i | 0 <= i < |next| ensures next[i].id < below && SurvivorOf(s, preds, next[i].id) == Some(next[i]) {
      if i < |out| { assert next[i] == out[i]; }
    }
    forall y: MemoryId | y < below && SurvivorOf(s, preds, y).Some? ensures SurvivorOf(s, preds, y).value in next {
      if y > x { NoEvents(s, preds, y); }
    }
  }

  /** The open id's events so far are `events`, and everything smaller is out. */
  ghost predicate GroupOpen(out: seq<StoredMemory>, done: seq<Pair<IdEvent>>, preds: seq<PredicateDelete>, x: nat, events: seq<IdEvent>) {
    && OwnIds(done) && Emitted(out, done, preds, x)
    && events == EventsOf(OfKey(done, x))
    && forall i :: 0 <= i < |done| ==> done[i].key <= x
  }

  lemma CloseGroup(out: seq<StoredMemory>, done: seq<Pair<IdEvent>>, preds: seq<PredicateDelete>, x: nat, events: seq<IdEvent>, y: nat)
    requires GroupOpen(out, done, preds, x, events) && x < y
    ensures GroupOpen(out + One(Survivor(events, preds)), done, preds, y, [])
  {
    EmittedNext(out, done, preds, x, y);
    OfKeyAbsent(done, y);
  }

  lemma GrowGroup(out: seq<StoredMemory>, done: seq<Pair<IdEvent>>, preds: seq<PredicateDelete>, x: nat, events: seq<IdEvent>, p: Pair<IdEvent>)
    requires GroupOpen(out, done, preds, x, events) && p.key == x && OwnIds([p])
    ensures GroupOpen(out, done + [p], preds, x, events + [p.value])
  {
    EmittedGrows(out, done, preds, x, p);
    OfKeySnoc(done, p, x);
    EventsSnoc(OfKey(done, x), p);
    OwnIdsSnoc(done, p);
  }

  lemma OwnIdsSnoc(s: seq<Pair<IdEvent>>, p: Pair<IdEvent>)
    requires OwnIds(s) && OwnIds([p])
    ensures OwnIds(s + [p])
  {
    var r := s + [p];
    assert [p][0] == p;
    forall i | 0 <= i < |r| && r[i].value.change.Item? ensures r[i].value.change.m.id == r[i].key {
      if i < |s| { assert r[i] == s[i]; }
    }
  }

  lemma NoGroupYet(preds: seq<PredicateDelete>, x: nat)
    ensures GroupOpen([], [], preds, x, [])
  {
    forall y: MemoryId ensures SurvivorOf([], preds, y).None? { NoEvents([], preds, y); }
  }

  /** Exactly the survivors, ascending by id. */
  ghost predicate EmitsExactly(out: seq<StoredMemory>, s: seq<Pair<IdEvent>>, preds: seq<PredicateDelete>) {
    && Rising(out)
    && (forall i :: 0 <= i < |out| ==> SurvivorOf(s, preds, out[i].id) == Some(out[i]))
    && (forall x: MemoryId :: SurvivorOf(s, preds, x).Some? ==> SurvivorOf(s, preds, x).value in out)
  }

  lemma ClosedIsExact(out: seq<StoredMemory>, s: seq<Pair<IdEvent>>, preds: seq<PredicateDelete>, y: nat)
    requires GroupOpen(out, s, preds, y, []) && forall i :: 0 <= i < |s| ==> s[i].key < y
    ensures EmitsExactly(out, s, preds)
  {
    forall x: MemoryId | SurvivorOf(s, preds, x).Some? ensures SurvivorOf(s, preds, x).value in out {
      if x >= y { NoEvents(s, preds, x); }
    }
  }

  /** Groups the merged stream by id and resolves each group when the next id begins. */
  method ResolveStream(merge: Merge<IdEvent>, preds: seq<PredicateDelete>, ghost sorted: seq<Pair<IdEvent>>) returns (out: seq<StoredMemory>)
    requires merge.Valid() && merge.Pending() == sorted && Sorted(sorted, KeyLe) && OwnIds(sorted)
    modifies merge
    ensures EmitsExactly(out, sorted, preds)
  {
    out := [];
    var cur: Option<nat> := None;
    var events: seq<IdEvent> := [];
    ghost var done: seq<Pair<IdEvent>> := [];
    var next := merge.Next();
    while next.Some?
      invariant merge.Valid()
      invariant next.Some? ==> sorted == done + ([next.value] + merge.Pending())
      invariant next.None? ==> sorted == done
      invariant StreamState(out, done, preds, cur, events)
      decreases |sorted| - |done|
    {
      NextFacts(sorted, done, next.value, merge.Pending());
      out, events := TakeEvent(out, cur, events, next.value, preds, done);
      cur := Some(next.value.key);
      done := done + [next.value];
      next := merge.Next();
      assert next.None? ==> done + [] == done;
    }
    out := TakeLast(out, cur, events, preds, done);
  }

  lemma NextFacts(sorted: seq<Pair<IdEvent>>, done: seq<Pair<IdEvent>>, p: Pair<IdEvent>, rest: seq<Pair<IdEvent>>)
    requires sorted == done + ([p] + rest) && Sorted(sorted, KeyLe) && OwnIds(sorted)
    ensures OwnIds([p]) && (done != [] ==> done[|done| - 1].key <= p.key)
    ensures sorted == (done + [p]) + rest
  {
    assert sorted[|done|] == p;
    assert done != [] ==> KeyLe(sorted[|done| - 1], sorted[|done|]);
  }

  /** The end of the stream resolves the last group. */
  method TakeLast(out0: seq<StoredMemory>, cur: Option<nat>, events: seq<IdEvent>, preds: seq<PredicateDelete>,
                  ghost done: seq<Pair<IdEvent>>)
    returns (out: seq<StoredMemory>)
    requires StreamState(out0, done, preds, cur, events)
    ensures EmitsExactly(out, done, preds)
  {
    out := out0;
    if cur.Some? {
      CloseGroup(out, done, preds, cur.value, events, cur.value + 1);
      out := ResolveAndEmit(events, preds, out);
      ClosedIsExact(out, done, preds, cur.value + 1);
    } else {
      NoGroupYet(preds, 0);
      ClosedIsExact(out, done, preds, 0);
    }
  }

  ghost predicate StreamState(out: seq<StoredMemory>, done: seq<Pair<IdEvent>>, preds: seq<PredicateDelete>, cur: Option<nat>, events: seq<IdEvent>) {
    match cur
    case None => done == [] && out == [] && events == []
    case Some(x) => done != [] && done[|done| - 1].key == x && GroupOpen(out, done, preds, x, events)
  }

  /** A new id first resolves the open group. */
  method TakeEvent(out0: seq<StoredMemory>, cur: Option<nat>, events0: seq<IdEvent>, p: Pair<IdEvent>, preds: seq<PredicateDelete>,
                   ghost done: seq<Pair<IdEvent>>)
    returns (out: seq<StoredMemory>, events: seq<IdEvent>)
    requires StreamState(out0, done, preds, cur, events0) && OwnIds([p])
    requires cur.Some? ==> cur.value <= p.key
    ensures StreamState(out, done + [p], preds, Some(p.key), events)
  {
    out, events := out0, events0;
    if cur.None? {
      NoGroupYet(preds, p.key);
    } else if cur.value != p.key {
      CloseGroup(out, done, preds, cur.value, events, p.key);
      out := ResolveAndEmit(events, preds, out);
      events := [];
    }
    GrowGroup(out, done, preds, p.key, events, p);
    events := events + [p.value];
  }

  // ---- Against the log ------------------------------------------------------------------------------------

  /** The memory `x` comes to when predicate deletes are ignored. */
  function BaseOf(evs: seq<Event>, x: MemoryId): Option<StoredMemory> {
    if evs == [] then None
    else
      var n := |evs| - 1;
      var e, base := evs[n], BaseOf(evs[..n], x);
      match e.op
      case Upsert(item) => if item.id == x then Some(e.Written()) else base
      case Tombstone(id) => if id == x then None else base
      case Patch(id, ds) => if id == x && base.Some? then Some(ApplyDeltas(base.value, ds)) else base
      case TombstoneWhere(_) => base
      case Guard(_) => base
  }

  /** Since the last write of `x`, a predicate delete matched it as it then stood. */
  predicate Hit(evs: seq<Event>, x: MemoryId) {
    if evs == [] then false
    else
      var n := |evs| - 1;
      var e := evs[n];
      if e.BaseOn(x) then false
      else
        || Hit(evs[..n], x)
        || (e.op.TombstoneWhere? && BaseOf(evs[..n], x).Some? && e.Delete().Kills(BaseOf(evs[..n], x).value))
  }

  /** What the streaming fold leaves. */
  function StreamLive(evs: seq<Event>, x: MemoryId): Option<StoredMemory> {
    var base := BaseOf(evs, x);
    if base.Some? && !KilledByAny(DeletesOf(evs), base.value) then base else None
  }

  /** Events that come in order and end no later than `top`. */
  ghost predicate InOrder(es: seq<IdEvent>, top: nat) {
    Sorted(es, AtLe) && forall i :: 0 <= i < |es| ==> es[i].at <= top
  }

  lemma EventsSnoc(s: seq<Pair<IdEvent>>, p: Pair<IdEvent>)
    ensures EventsOf(s + [p]) == EventsOf(s) + [p.value]
    ensures ResolveEvents(EventsOf(s) + [p.value]) == ApplyChange(ResolveEvents(EventsOf(s)), p.value)
  {
    assert (s + [p])[..|s|] == s;
    assert (EventsOf(s) + [p.value])[..|EventsOf(s)|] == EventsOf(s);
  }

  lemma InOrderSnoc(es: seq<IdEvent>, e: IdEvent, top: nat)
    requires InOrder(es, top) && top <= e.at
    ensures InOrder(es, e.at) && InOrder(es + [e], e.at)
  {
    var r := es + [e];
    forall i, j | 0 <= i < j < |r| ensures AtLe(r[i], r[j]) {
      assert r[i] == es[i];
      if j < |es| { assert r[j] == es[j]; }
    }
  }

  lemma GroupStep(s: seq<Pair<IdEvent>>, p: Pair<IdEvent>, x: MemoryId, top: nat)
    requires top <= p.value.at && InOrder(EventsOf(OfKey(s, x)), top)
    ensures InOrder(EventsOf(OfKey(s + [p], x)), p.value.at)
    ensures ResolveEvents(EventsOf(OfKey(s + [p], x))) ==
            if p.key == x then ApplyChange(ResolveEvents(EventsOf(OfKey(s, x))), p.value)
            else ResolveEvents(EventsOf(OfKey(s, x)))
  {
    var group := OfKey(s, x);
    OfKeySnoc(s, p, x);
    InOrderSnoc(EventsOf(group), p.value, top);
    if p.key == x {
      EventsSnoc(group, p);
    } else {
      assert OfKey(s + [p], x) == group;
    }
  }

  lemma BaseStep(evs: seq<Event>, x: MemoryId, p: Pair<IdEvent>)
    requires evs != [] && SpilledOne(evs[|evs| - 1]) == [p]
    ensures p.value.at == evs[|evs| - 1].at
    ensures BaseOf(evs, x) ==
            if p.key == x then ApplyChange(BaseOf(evs[..|evs| - 1], x), p.value) else BaseOf(evs[..|evs| - 1], x)
  {
  }

  lemma QuietStep(evs: seq<Event>, x: MemoryId)
    requires evs != [] && SpilledOne(evs[|evs| - 1]) == []
    ensures BaseOf(evs, x) == BaseOf(evs[..|evs| - 1], x)
    ensures Spilled(evs) == Spilled(evs[..|evs| - 1])
  {
  }

  lemma SpilledAtMostOne(e: Event)
    ensures SpilledOne(e) == [] || SpilledOne(e) == [SpilledOne(e)[0]]
  {
  }

  lemma {:induction false} SpilledGroups(evs: seq<Event>, x: MemoryId)
    requires Ordered(evs)
    ensures ResolveEvents(EventsOf(OfKey(Spilled(evs), x))) == BaseOf(evs, x)
    ensures InOrder(EventsOf(OfKey(Spilled(evs), x)), if evs == [] then 0 else evs[|evs| - 1].at)
  {
    if evs != [] {
      var n := |evs| - 1;
      var s := Spilled(evs[..n]);
      var top := if n == 0 then 0 else evs[n - 1].at;
      SpilledGroups(evs[..n], x);
      SpilledAtMostOne(evs[n]);
      if SpilledOne(evs[n]) == [] {
        QuietStep(evs, x);
        InOrderSnoc(EventsOf(OfKey(s, x)), IdEvent(evs[n].at, Gone), top);
      } else {
        var p := SpilledOne(evs[n])[0];
        BaseStep(evs, x, p);
        GroupStep(s, p, x, top);
      }
    }
  }

  lemma AlreadySorted(es: seq<IdEvent>)
    requires Sorted(es, AtLe)
    ensures StableSort(es, AtLe) == es
  {
    StableSortUnique(es, es, AtLe);
  }

  lemma SurvivorIsStreamLive(evs: seq<Event>, x: MemoryId)
    requires Ordered(evs)
    ensures SurvivorOf(Spilled(evs), DeletesOf(evs), x) == StreamLive(evs, x)
  {
    SpilledGroups(evs, x);
    AlreadySorted(EventsOf(OfKey(Spilled(evs), x)));
  }

  /** Replay keeps `x` exactly when it has a base that nothing hit. */
  lemma {:induction false} ReplayIsUnhitBase(evs: seq<Event>, x: MemoryId)
    ensures x in ReplayFrom(map[], evs) <==> BaseOf(evs, x).Some? && !Hit(evs, x)
    ensures x in ReplayFrom(map[], evs) ==> ReplayFrom(map[], evs)[x] == BaseOf(evs, x).value
  {
    if evs != [] {
      var n := |evs| - 1;
      ReplayIsUnhitBase(evs[..n], x);
      if evs[n].op.TombstoneWhere? { SingleDelete(evs[n].Delete()); }
    }
  }

  /** Testing predicates once, at the end, gives the verdict they gave when they were issued. */
  ghost predicate VerdictsStand(evs: seq<Event>) {
    forall x :: BaseOf(evs, x).Some? ==> (Hit(evs, x) <==> KilledByAny(DeletesOf(evs), BaseOf(evs, x).value))
  }

  ghost predicate StreamsReplay(evs: seq<Event>) {
    forall x :: StreamLive(evs, x) == if x in ReplayFrom(map[], evs) then Some(ReplayFrom(map[], evs)[x]) else None
  }

  /** On a first build the streaming fold leaves exactly what replay holds if and only if the late
      verdicts are the ones the predicates gave when issued. */
  lemma StreamIsReplayIffVerdictsStand(evs: seq<Event>)
    ensures StreamsReplay(evs) <==> VerdictsStand(evs)
  {
    forall x ensures (StreamLive(evs, x) == if x in ReplayFrom(map[], evs) then Some(ReplayFrom(map[], evs)[x]) else None)
                     <==> (BaseOf(evs, x).Some? ==> (Hit(evs, x) <==> KilledByAny(DeletesOf(evs), BaseOf(evs, x).value))) {
      ReplayIsUnhitBase(evs, x);
    }
  }

  lemma {:induction false} DeletesAreScanned(evs: seq<Event>)
    ensures DeletesOf(evs) == FoldTail(evs).preds
  {
    if evs != [] { DeletesAreScanned(evs[..|evs| - 1]); }
  }

  /** A patch that finds its memory changes the verdict of no predicate issued before it. */
  ghost predicate PatchKeepsVerdicts(evs: seq<Event>, i: nat)
    requires i < |evs|
  {
    evs[i].op.Patch? && BaseOf(evs[..i], evs[i].op.id).Some? ==>
      var m := BaseOf(evs[..i], evs[i].op.id).value;
      forall p :: p in DeletesOf(evs[..i]) ==> (p.pred.Matches(m) <==> p.pred.Matches(ApplyDeltas(m, evs[i].op.deltas)))
  }

  lemma VerdictStep(evs: seq<Event>, x: MemoryId)
    requires evs != [] && Ordered(evs) && PatchKeepsVerdicts(evs, |evs| - 1)
    requires BaseOf(evs[..|evs| - 1], x).Some? ==>
               (Hit(evs[..|evs| - 1], x) <==> KilledByAny(DeletesOf(evs[..|evs| - 1]), BaseOf(evs[..|evs| - 1], x).value))
    ensures BaseOf(evs, x).Some? ==> (Hit(evs, x) <==> KilledByAny(DeletesOf(evs), BaseOf(evs, x).value))
  {
    var n := |evs| - 1;
    var init, e := evs[..n], evs[n];
    if e.op.Upsert? && e.op.item.id == x {
      DeletesAreScanned(init);
      forall p | p in DeletesOf(init) ensures !p.Kills(e.Written()) { PredsAreDeletes(init, p); }
    } else if e.op.TombstoneWhere? && BaseOf(evs, x).Some? {
      SingleDelete(e.Delete());
      KilledAppend(DeletesOf(init), [e.Delete()], BaseOf(evs, x).value);
    } else if e.op.Patch? && e.op.id == x && BaseOf(init, x).Some? {
      var m := BaseOf(init, x).value;
      assert forall p :: p in DeletesOf(init) ==> (p.Kills(m) <==> p.Kills(ApplyDeltas(m, e.op.deltas)));
    }
  }

  lemma {:induction false} PatchesKeepingVerdicts(evs: seq<Event>, x: MemoryId)
    requires Ordered(evs) && forall i :: 0 <= i < |evs| ==> PatchKeepsVerdicts(evs, i)
    ensures BaseOf(evs, x).Some? ==> (Hit(evs, x) <==> KilledByAny(DeletesOf(evs), BaseOf(evs, x).value))
  {
    if evs != [] {
      var init := evs[..|evs| - 1];
      forall i | 0 <= i < |init| ensures PatchKeepsVerdicts(init, i) {
        assert init[..i] == evs[..i];
        assert PatchKeepsVerdicts(evs, i);
      }
      PatchesKeepingVerdicts(init, x);
      VerdictStep(evs, x);
    }
  }

  /** Replay equality for every log whose patches change no predicate's verdict. */
  lemma StreamIsReplay(evs: seq<Event>)
    requires Ordered(evs) && forall i :: 0 <= i < |evs| ==> PatchKeepsVerdicts(evs, i)
    ensures StreamsReplay(evs)
  {
    forall x ensures BaseOf(evs, x).Some? ==> (Hit(evs, x) <==> KilledByAny(DeletesOf(evs), BaseOf(evs, x).value)) {
      PatchesKeepingVerdicts(evs, x);
    }
    StreamIsReplayIffVerdictsStand(evs);
  }

  /** Deleting lazily, by one filter over the final memories, is deleting eagerly at each predicate. */
  lemma LazyDeletionIsEager(evs: seq<Event>)
    requires Ordered(evs) && PatchFree(evs)
    ensures StreamsReplay(evs)
  {
    StreamIsReplay(evs);
  }

  /** Deltas to fields that no predicate reads. */
  predicate Neutral(d: Delta) {
    d.ProofCount? || d.SetText? || d.SetVector? || d.SetEntityIds?
  }

  lemma {:induction false} NeutralKeepsVerdict(m: StoredMemory, ds: seq<Delta>, p: Predicate)
    requires forall d :: d in ds ==> Neutral(d)
    ensures p.Matches(ApplyDeltas(m, ds)) <==> p.Matches(m)
    decreases |ds|
  {
    if ds != [] {
      assert ds[0] in ds;
      NeutralKeepsVerdict(ApplyDelta(m, ds[0]), ds[1..], p);
    }
  }

  /** So logs whose patches touch no tag, metadata or timestamp stream faithfully. */
  lemma NeutralPatchesStream(evs: seq<Event>)
    requires Ordered(evs)
    requires forall i, d :: 0 <= i < |evs| && evs[i].op.Patch? && d in evs[i].op.deltas ==> Neutral(d)
    ensures StreamsReplay(evs)
  {
    forall i | 0 <= i < |evs| ensures PatchKeepsVerdicts(evs, i) {
      if evs[i].op.Patch? && BaseOf(evs[..i], evs[i].op.id).Some? {
        var m := BaseOf(evs[..i], evs[i].op.id).value;
        forall p | p in DeletesOf(evs[..i]) ensures p.pred.Matches(m) <==> p.pred.Matches(ApplyDeltas(m, evs[i].op.deltas)) {
          NeutralKeepsVerdict(m, evs[i].op.deltas, p.pred);
        }
      }
    }
    StreamIsReplay(evs);
  }

  lemma HitSnoc(evs: seq<Event>, e: Event, x: MemoryId)
    ensures Hit(evs + [e], x) <==>
            !e.BaseOn(x) && (Hit(evs, x) || (e.op.TombstoneWhere? && BaseOf(evs, x).Some? && e.Delete().Kills(BaseOf(evs, x).value)))
  {
    assert (evs + [e])[..|evs|] == evs;
  }

  lemma BaseSnoc(evs: seq<Event>, e: Event, x: MemoryId)
    ensures e.op.Upsert? && e.op.item.id == x ==> BaseOf(evs + [e], x) == Some(e.Written())
    ensures e.op.TombstoneWhere? ==> BaseOf(evs + [e], x) == BaseOf(evs, x)
    ensures e.op.Patch? && e.op.id == x && BaseOf(evs, x).Some? ==>
              BaseOf(evs + [e], x) == Some(ApplyDeltas(BaseOf(evs, x).value, e.op.deltas))
  {
    assert (evs + [e])[..|evs|] == evs;
  }

  /** Base, hits and deletes of a write, a bulk delete and a patch. */
  lemma WriteDeletePatch(m: StoredMemory, pred: Predicate, ds: seq<Delta>)
    ensures var evs := [Event(1, Upsert(m)), Event(2, TombstoneWhere(pred)), Event(3, Patch(m.id, ds))];
            && BaseOf(evs, m.id) == Some(ApplyDeltas(m.(writeSeq := 1), ds))
            && (Hit(evs, m.id) <==> pred.Matches(m.(writeSeq := 1))) && DeletesOf(evs) == [PredicateDelete(2, pred)]
  {
    var e0, e1, e2 := Event(1, Upsert(m)), Event(2, TombstoneWhere(pred)), Event(3, Patch(m.id, ds));
    var none: seq<Event> := [];
    var one, two := none + [e0], none + [e0] + [e1];
    assert [e0, e1, e2] == two + [e2];
    SpilledSnoc(none, e0);
    SpilledSnoc(one, e1);
    SpilledSnoc(two, e2);
    BaseSnoc(none, e0, m.id);
    BaseSnoc(one, e1, m.id);
    BaseSnoc(two, e2, m.id);
    HitSnoc(none, e0, m.id);
    HitSnoc(one, e1, m.id);
    HitSnoc(two, e2, m.id);
  }

  lemma {:induction false} PatchIgnoresWriteSeq(m: StoredMemory, at: nat, ds: seq<Delta>)
    ensures ApplyDeltas(m.(writeSeq := at), ds) == ApplyDeltas(m, ds).(writeSeq := at)
    decreases |ds|
  {
    if ds != [] { PatchIgnoresWriteSeq(ApplyDelta(m, ds[0]), at, ds[1..]); }
  }

  lemma MatchIgnoresWriteSeq(p: Predicate, m: StoredMemory, at: nat)
    ensures p.Matches(m.(writeSeq := at)) <==> p.Matches(m)
  {
  }

  /** The deltas change no predicate's verdict on any memory. */
  ghost predicate KeepsVerdicts(ds: seq<Delta>) {
    forall m, p: Predicate :: p.Matches(m) <==> p.Matches(ApplyDeltas(m, ds))
  }

  /** The two look alike to every predicate: type, write time, and which tags and metadata pairs they carry. */
  ghost predicate SameView(m: StoredMemory, n: StoredMemory) {
    && m.memoryType == n.memoryType
    && m.timestamps.updatedAt == n.timestamps.updatedAt
    && (forall t :: t in m.tags <==> t in n.tags)
    && (forall kv :: kv in m.metadata <==> kv in n.metadata)
  }

  lemma SameViewSameVerdict(m: StoredMemory, n: StoredMemory, p: Predicate)
    requires SameView(m, n)
    ensures p.Matches(m) <==> p.Matches(n)
  {
    assert m.tags == [] <==> n.tags == [] by {
      if m.tags != [] { assert m.tags[0] in n.tags; }
      if n.tags != [] { assert n.tags[0] in m.tags; }
    }
  }

  /** If `m` carries something predicates can see that `n` does not, one tells them apart. */
  lemma Distinguished(m: StoredMemory, n: StoredMemory) returns (p: Predicate)
    requires || m.memoryType != n.memoryType
             || (m.timestamps.updatedAt.Some? && m.timestamps.updatedAt != n.timestamps.updatedAt)
             || (exists t :: t in m.tags && t !in n.tags)
             || (exists kv :: kv in m.metadata && kv !in n.metadata)
    ensures p.Matches(m) && !p.Matches(n)
  {
    if m.memoryType != n.memoryType {
      p := Predicate([m.memoryType], [], [], Tags.Any, None, None);
    } else if m.timestamps.updatedAt.Some? && m.timestamps.updatedAt != n.timestamps.updatedAt {
      var u := m.timestamps.updatedAt.value;
      p := Predicate([], [], [], Tags.Any, Some(u - 1), Some(u + 1));
    } else if exists t :: t in m.tags && t !in n.tags {
      var t :| t in m.tags && t !in n.tags;
      p := Predicate([], [], [t], Tags.AnyStrict, None, None);
      assert t in [t];
    } else {
      var kv :| kv in m.metadata && kv !in n.metadata;
      p := Predicate([], [kv], [], Tags.Any, None, None);
      assert kv in [kv];
    }
  }

  ghost predicate LeavesViews(ds: seq<Delta>) {
    forall m :: SameView(m, ApplyDeltas(m, ds))
  }

  /** So a patch keeps all verdicts exactly when it leaves every memory's view alone. */
  lemma KeepsVerdictsIffSameView(ds: seq<Delta>)
    ensures KeepsVerdicts(ds) <==> LeavesViews(ds)
  {
    if LeavesViews(ds) {
      forall m, p: Predicate ensures p.Matches(m) <==> p.Matches(ApplyDeltas(m, ds)) {
        SameViewSameVerdict(m, ApplyDeltas(m, ds), p);
      }
    } else {
      var m: StoredMemory :| !SameView(m, ApplyDeltas(m, ds));
      var n := ApplyDeltas(m, ds);
      ViewsDiffer(m, n);
      var p: Predicate :| p.Matches(m) != p.Matches(n);
      assert !KeepsVerdicts(ds);
    }
  }

  lemma ViewsDiffer(m: StoredMemory, n: StoredMemory)
    requires !SameView(m, n)
    ensures exists p: Predicate :: p.Matches(m) != p.Matches(n)
  {
    if || m.memoryType != n.memoryType
       || (m.timestamps.updatedAt.Some? && m.timestamps.updatedAt != n.timestamps.updatedAt)
       || (exists t :: t in m.tags && t !in n.tags)
       || (exists kv :: kv in m.metadata && kv !in n.metadata)
    {
      var p := Distinguished(m, n);
    } else {
      var p := Distinguished(n, m);
    }
  }

  ghost predicate PatchesFrom(evs: seq<Event>, allowed: seq<Delta> -> bool) {
    forall i :: 0 <= i < |evs| && evs[i].op.Patch? ==> allowed(evs[i].op.deltas)
  }

  /** A write, a bulk delete and a patch that flips its verdict, either way: the late test disagrees. */
  lemma FlippedVerdictDiverges(m: StoredMemory, p: Predicate, ds: seq<Delta>) returns (evs: seq<Event>)
    requires p.Matches(m) != p.Matches(ApplyDeltas(m, ds))
    ensures evs == [Event(1, Upsert(m)), Event(2, TombstoneWhere(p)), Event(3, Patch(m.id, ds))]
    ensures Ordered(evs) && !StreamsReplay(evs)
    ensures p.Matches(m) ==> StreamLive(evs, m.id).Some? && m.id !in ReplayFrom(map[], evs)
    ensures !p.Matches(m) ==> StreamLive(evs, m.id).None? && m.id in ReplayFrom(map[], evs)
  {
    evs := [Event(1, Upsert(m)), Event(2, TombstoneWhere(p)), Event(3, Patch(m.id, ds))];
    var d := PredicateDelete(2, p);
    WriteDeletePatch(m, p, ds);
    PatchIgnoresWriteSeq(m, 1, ds);
    MatchIgnoresWriteSeq(p, m, 1);
    MatchIgnoresWriteSeq(p, ApplyDeltas(m, ds), 1);
    SingleDelete(d);
    ReplayIsUnhitBase(evs, m.id);
  }

  /** Streaming equals replay on every log whose patches come from a class of delta lists if and only if
      each list of the class changes no predicate's verdict on any memory. */
  lemma ClassStreamsIffVerdictsKept(allowed: seq<Delta> -> bool)
    ensures (forall evs :: Ordered(evs) && PatchesFrom(evs, allowed) ==> StreamsReplay(evs)) <==>
            (forall ds :: allowed(ds) ==> KeepsVerdicts(ds))
  {
    if forall ds :: allowed(ds) ==> KeepsVerdicts(ds) {
      forall evs: seq<Event> | Ordered(evs) && PatchesFrom(evs, allowed) ensures StreamsReplay(evs) {
        forall i | 0 <= i < |evs| ensures PatchKeepsVerdicts(evs, i) {
          assert evs[i].op.Patch? ==> KeepsVerdicts(evs[i].op.deltas);
        }
        StreamIsReplay(evs);
      }
    } else {
      var ds :| allowed(ds) && !KeepsVerdicts(ds);
      var m, p: Predicate :| p.Matches(m) != p.Matches(ApplyDeltas(m, ds));
      var evs := FlippedVerdictDiverges(m, p, ds);
      assert PatchesFrom(evs, allowed);
    }
  }

  /** Re-tagging is outside every class that streams faithfully, both ways: a memory deleted by its tag
      comes back when it is re-tagged afterwards, and one that takes the tag later is lost. */
  lemma RetaggingDiverges() returns (back: seq<Event>, lost: seq<Event>)
    ensures Ordered(back) && PatchesFrom(back, ds => ds == [SetTags(["b"])])
    ensures StreamLive(back, 7).Some? && 7 !in ReplayFrom(map[], back)
    ensures Ordered(lost) && PatchesFrom(lost, ds => ds == [SetTags(["b"])])
    ensures StreamLive(lost, 7).None? && 7 in ReplayFrom(map[], lost)
  {
    var ts := Timestamps(None, None, None, None, None);
    var m := StoredMemory(7, 1, ["a"], ts, 0, {}, [], "", 0, 0);
    var p, q := Predicate([], [], ["a"], Tags.AnyStrict, None, None), Predicate([], [], ["b"], Tags.AnyStrict, None, None);
    var ds := [SetTags(["b"])];
    assert "a" in ["a"] && p.Matches(m) && !q.Matches(m);
    assert ds[1..] == [] && "b" in ["b"];
    assert !p.Matches(ApplyDeltas(m, ds)) && q.Matches(ApplyDeltas(m, ds));
    back := FlippedVerdictDiverges(m, p, ds);
    lost := FlippedVerdictDiverges(m, q, ds);
  }

  // ---- The whole first build ----------------------------------------------------------------------------

  lemma {:induction false} FlattenOrdered(es: seq<Entry>)
    requires LogOk(es)
    ensures Ordered(Flatten(es))
    ensures forall i :: 0 <= i < |Flatten(es)| ==> es != [] && Flatten(es)[i].at <= es[|es| - 1].at
  {
    if es != [] {
      var n := |es| - 1;
      FlattenOrdered(es[..n]);
      if n > 0 { assert es[n - 1].at < es[n].at; }
      var init, last := Flatten(es[..n]), EntryEvents(es[n].at, es[n].ops);
      assert Flatten(es) == init + last;
      assert forall i :: 0 <= i < |last| ==> last[i].at == es[n].at;
    }
  }

  lemma {:induction false} SpilledOwnIds(evs: seq<Event>)
    ensures OwnIds(Spilled(evs))
  {
    if evs != [] { SpilledOwnIds(evs[..|evs| - 1]); }
  }

  lemma SortedOwnIds(s: seq<Pair<IdEvent>>)
    requires OwnIds(s)
    ensures OwnIds(StableSort(s, KeyLe))
  {
    var r := StableSort(s, KeyLe);
    forall i | 0 <= i < |r| && r[i].value.change.Item? ensures r[i].value.change.m.id == r[i].key {
      SortMembers(s, r[i], KeyLe);
    }
  }

  lemma SortedSurvivor(s: seq<Pair<IdEvent>>, preds: seq<PredicateDelete>, x: MemoryId)
    ensures SurvivorOf(StableSort(s, KeyLe), preds, x) == SurvivorOf(s, preds, x)
  {
    KeyLeIsPreorder<IdEvent>();
    SortIsStable(s, KeyLe);
    var probe := Pair(x, IdEvent(0, Gone));
    ClassIsOfKey(s, probe);
    ClassIsOfKey(StableSort(s, KeyLe), probe);
  }

  /** `out` lists what the streaming fold of `evs` leaves, each memory once, ascending by id. */
  ghost predicate Lists(out: seq<StoredMemory>, evs: seq<Event>) {
    && Rising(out)
    && (forall i :: 0 <= i < |out| ==> StreamLive(evs, out[i].id) == Some(out[i]))
    && (forall x: MemoryId :: StreamLive(evs, x).Some? ==> StreamLive(evs, x).value in out)
  }

  /** `out` lists exactly the memories of `docs`, ascending by id. */
  ghost predicate ListsDocs(out: seq<StoredMemory>, docs: Docs) {
    && Rising(out)
    && (forall i :: 0 <= i < |out| ==> out[i].id in docs && docs[out[i].id] == out[i])
    && (forall x :: x in docs ==> docs[x] in out)
  }

  lemma ListsReplay(out: seq<StoredMemory>, evs: seq<Event>)
    requires Lists(out, evs) && StreamsReplay(evs)
    ensures ListsDocs(out, ReplayFrom(map[], evs))
  {
    var docs := ReplayFrom(map[], evs);
    forall x | x in docs ensures docs[x] in out {
      assert StreamLive(evs, x) == Some(docs[x]);
    }
  }

  lemma EmittedLists(out: seq<StoredMemory>, evs: seq<Event>)
    requires Ordered(evs) && EmitsExactly(out, StableSort(Spilled(evs), KeyLe), DeletesOf(evs))
    ensures Lists(out, evs)
  {
    forall x: MemoryId ensures SurvivorOf(StableSort(Spilled(evs), KeyLe), DeletesOf(evs), x) == StreamLive(evs, x) {
      SortedSurvivor(Spilled(evs), DeletesOf(evs), x);
      SurvivorIsStreamLive(evs, x);
    }
  }

  /** Spill, sort, group, resolve: the same memories whatever the buffer size. */
  method FirstBuild(entries: seq<Entry>, cap: nat, size: IdEvent -> nat) returns (out: seq<StoredMemory>)
    requires LogOk(entries)
    ensures Lists(out, Flatten(entries))
    ensures (forall i :: 0 <= i < |Flatten(entries)| ==> PatchKeepsVerdicts(Flatten(entries), i)) ==> ListsDocs(out, Replay(entries))
  {
    var sort := new ExternalSort<IdEvent>(cap, size);
    var preds := SpillLog(entries, sort);
    ghost var evs := Flatten(entries);
    var merge := sort.Finish();
    SpilledOwnIds(evs);
    SortedOwnIds(Spilled(evs));
    KeyLeIsPreorder<IdEvent>();
    SortIsStable(Spilled(evs), KeyLe);
    out := ResolveStream(merge, preds, StableSort(Spilled(evs), KeyLe));
    FlattenOrdered(entries);
    EmittedLists(out, evs);
    if forall i :: 0 <= i < |evs| ==> PatchKeepsVerdicts(evs, i) {
      StreamIsReplay(evs);
      ListsReplay(out, evs);
    }
  }
}

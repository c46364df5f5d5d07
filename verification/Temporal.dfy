/** Entry points spread over a time window (crates/mlake-index/src/temporal.rs:82-133). Similarities are
    any integers: only their order matters. */
module Temporal {
  import opened Memories
  import opened Sorting

  datatype Candidate = Candidate(id: MemoryId, similarity: int, effectiveTs: Option<int>)

  /** A candidate together with the slice of the window it falls into. */
  datatype Placed = Placed(cand: Candidate, slice: nat)

  /** Similarity descending, then id ascending. */
  predicate SimLe(a: Candidate, b: Candidate) {
    a.similarity > b.similarity || (a.similarity == b.similarity && a.id <= b.id)
  }

  /** The slice of `[from, to]` a candidate falls into; undated ones and empty windows use slice 0. */
  function SliceIndex(c: Candidate, from: int, to: int, n: nat): (b: nat)
    requires n >= 1
    ensures b < n
  {
    var span := to - from;
    if c.effectiveTs.None? || span <= 0 || c.effectiveTs.value <= from then 0
    else
      var b := (c.effectiveTs.value - from) * n / span;
      if b < 0 then 0 else if b > n - 1 then n - 1 else b
  }

  /** Whether `c` falls into part `b` of the window cut into `n` equal parts, by its date alone: dates
      before the window count for the first part, later ones for the last; undated candidates, and all
      candidates of an empty window, for the first. */
  ghost predicate InPart(c: Candidate, from: int, to: int, n: nat, b: nat) {
    && b < n
    && if c.effectiveTs.None? || to <= from then b == 0
       else
         var past := (c.effectiveTs.value - from) * n;
         (b == 0 || b * (to - from) <= past) && (b == n - 1 || past < (b + 1) * (to - from))
  }

  lemma MulMono(a: int, b: int, k: nat)
    requires a <= b
    ensures a * k <= b * k
  {
  }

  /** A candidate's slice is the part its date falls into, and no other. */
  lemma SliceIsPart(c: Candidate, from: int, to: int, n: nat, b: nat)
    requires n >= 1
    ensures InPart(c, from, to, n, b) <==> b == SliceIndex(c, from, to, n)
  {
    if c.effectiveTs.Some? && to > from {
      PartOfDate(c.effectiveTs.value - from, to - from, n, b);
    }
  }

  lemma PartOfDate(ahead: int, span: nat, n: nat, b: nat)
    requires n >= 1 && span >= 1
    ensures var q := ahead * n / span;
            var slice := if ahead <= 0 || q < 0 then 0 else if q > n - 1 then n - 1 else q;
            b < n && (b == 0 || b * span <= ahead * n) && (b == n - 1 || ahead * n < (b + 1) * span) <==> b == slice
  {
    var past := ahead * n;
    var q := past / span;
    assert q * span <= past < (q + 1) * span;
    if ahead <= 0 {
      MulMono(ahead, 0, n);
      if b > 0 { MulMono(1, b, span); }
      MulMono(1, b + 1, span);
    } else {
      MulMono(0, ahead, n);
      if b <= q { MulMono(b, q, span); }
      if b < q { MulMono(b + 1, q, span); }
      if b > q { MulMono(q + 1, b, span); }
      if b >= q { MulMono(q + 1, b + 1, span); }
    }
  }

  /** Later dates fall into the same or a later slice. */
  lemma SlicesFollowDates(c: Candidate, d: Candidate, from: int, to: int, n: nat)
    requires n >= 1 && c.effectiveTs.Some? && d.effectiveTs.Some? && c.effectiveTs.value <= d.effectiveTs.value
    ensures SliceIndex(c, from, to, n) <= SliceIndex(d, from, to, n)
  {
    var b, e := SliceIndex(c, from, to, n), SliceIndex(d, from, to, n);
    SliceIsPart(c, from, to, n, b);
    SliceIsPart(d, from, to, n, e);
    if to > from && e < b {
      var span := to - from;
      MulMono(c.effectiveTs.value - from, d.effectiveTs.value - from, n);
      MulMono(e + 1, b, span);
    }
  }

  predicate PlacedLe(a: Placed, b: Placed) {
    SimLe(a.cand, b.cand)
  }

  predicate SliceLe(a: Placed, b: Placed) {
    a.slice <= b.slice
  }

  function Place(s: seq<Candidate>, from: int, to: int, n: nat): (r: seq<Placed>)
    requires n >= 1
    ensures |r| == |s|
    ensures forall i :: 0 <= i < |s| ==> r[i].cand == s[i] && r[i].slice == SliceIndex(s[i], from, to, n) < n
  {
    seq(|s|, i requires 0 <= i < |s| => Placed(s[i], SliceIndex(s[i], from, to, n)))
  }

  function Unplace(s: seq<Placed>): (r: seq<Candidate>)
    ensures |r| == |s| && forall i :: 0 <= i < |s| ==> r[i] == s[i].cand
  {
    seq(|s|, i requires 0 <= i < |s| => s[i].cand)
  }

  /** Every candidate sits in one of `n` slices. */
  ghost predicate Fits(s: seq<Placed>, n: nat) {
    forall i :: 0 <= i < |s| ==> s[i].slice < n
  }

  /** The candidates of slice `b`, in order. */
  function InSlice(s: seq<Placed>, b: nat): seq<Placed> {
    if s == [] then []
    else (if s[0].slice == b then [s[0]] else []) + InSlice(s[1..], b)
  }

  function Prefix(s: seq<Placed>, k: nat): seq<Placed> {
    if k < |s| then s[..k] else s
  }

  /** The element at `tier`, if there is one. */
  function RowOf(bucket: seq<Placed>, tier: nat): seq<Placed> {
    if tier < |bucket| then [bucket[tier]] else []
  }

  /** What each bucket has at `tier`. */
  function RowLists(buckets: seq<seq<Placed>>, tier: nat): (r: seq<seq<Placed>>)
    ensures |r| == |buckets| && forall b :: 0 <= b < |r| ==> r[b] == RowOf(buckets[b], tier)
  {
    seq(|buckets|, b requires 0 <= b < |buckets| => RowOf(buckets[b], tier))
  }

  /** The candidates by slice. */
  function SlicesOf(ranked: seq<Placed>, n: nat): (r: seq<seq<Placed>>)
    ensures |r| == n && forall b :: 0 <= b < n ==> r[b] == InSlice(ranked, b)
  {
    seq(n, b requires 0 <= b < n => InSlice(ranked, b))
  }

  /** The `tier`-th best of every slice that has one, ordered by similarity. */
  function Tier(ranked: seq<Placed>, n: nat, tier: nat): seq<Placed> {
    StableSort(Join(RowLists(SlicesOf(ranked, n), tier)), PlacedLe)
  }

  /** All tiers a pool can have. */
  function AllTiers(ranked: seq<Placed>, n: nat): (ts: seq<seq<Placed>>)
    ensures |ts| == |ranked| && forall i :: 0 <= i < |ts| ==> ts[i] == Tier(ranked, n, i)
  {
    seq(|ranked|, i requires 0 <= i < |ranked| => Tier(ranked, n, i))
  }

  /** Some slice has more than `t` candidates. */
  ghost predicate HasTier(ranked: seq<Placed>, n: nat, t: nat) {
    exists b :: 0 <= b < n && |InSlice(ranked, b)| > t
  }

  // ---- The selection as it runs ------------------------------------------------------------------------

  method FillBuckets(ranked: seq<Placed>, n: nat) returns (buckets: seq<seq<Placed>>)
    requires Fits(ranked, n)
    ensures buckets == SlicesOf(ranked, n)
  {
    buckets := seq(n, _ => []);
    for i := 0 to |ranked|
      invariant buckets == SlicesOf(ranked[..i], n)
    {
      var b := ranked[i].slice;
      assert ranked[..i + 1] == ranked[..i] + [ranked[i]];
      forall c | 0 <= c < n
        ensures InSlice(ranked[..i + 1], c) == InSlice(ranked[..i], c) + if b == c then [ranked[i]] else []
      {
        InSliceConcat(ranked[..i], [ranked[i]], c);
      }
      buckets := buckets[b := buckets[b] + [ranked[i]]];
      assert forall c :: 0 <= c < n ==> buckets[c] == SlicesOf(ranked[..i + 1], n)[c];
    }
    assert ranked[..|ranked|] == ranked;
  }

  /** Some bucket still has a candidate at `tier`. */
  predicate AnyRow(buckets: seq<seq<Placed>>, tier: nat) {
    exists b :: 0 <= b < |buckets| && |buckets[b]| > tier
  }

  lemma AnyRowIsTier(ranked: seq<Placed>, n: nat, tier: nat)
    ensures AnyRow(SlicesOf(ranked, n), tier) <==> HasTier(ranked, n, tier)
  {
    var buckets := SlicesOf(ranked, n);
    if AnyRow(buckets, tier) {
      var b :| 0 <= b < |buckets| && |buckets[b]| > tier;
      assert |InSlice(ranked, b)| > tier;
    }
    if HasTier(ranked, n, tier) {
      var b :| 0 <= b < n && |InSlice(ranked, b)| > tier;
      assert |buckets[b]| > tier;
    }
  }

  method CollectTier(buckets: seq<seq<Placed>>, tier: nat) returns (rows: seq<Placed>)
    ensures rows == Join(RowLists(buckets, tier))
  {
    rows := [];
    ghost var lists := RowLists(buckets, tier);
    for b := 0 to |buckets|
      invariant rows == Join(lists[..b])
    {
      JoinSnoc(lists[..b], lists[b]);
      assert lists[..b + 1] == lists[..b] + [lists[b]];
      if tier < |buckets[b]| {
        rows := rows + [buckets[b][tier]];
      } else {
        assert rows + [] == rows;
      }
    }
    assert lists[..|lists|] == lists;
  }

  method PushRows(selected0: seq<Placed>, rows: seq<Placed>, limit: nat) returns (selected: seq<Placed>)
    requires |selected0| <= limit
    ensures selected == selected0 + Prefix(rows, limit - |selected0|)
  {
    selected := selected0;
    for i := 0 to |rows|
      invariant selected == selected0 + Prefix(rows[..i], limit - |selected0|)
    {
      PrefixSnoc(rows, i, limit - |selected0|);
      if |selected| < limit { selected := selected + [rows[i]]; }
    }
    assert rows[..|rows|] == rows;
  }

  lemma PrefixSnoc(rows: seq<Placed>, i: nat, room: nat)
    requires i < |rows|
    ensures Prefix(rows[..i + 1], room) == Prefix(rows[..i], room) + if i < room then [rows[i]] else []
  {
    if room < i { assert rows[..i + 1][..room] == rows[..i][..room]; }
    if room == i { assert rows[..i + 1][..room] == rows[..i]; }
  }

  lemma PrefixConcat(a: seq<Placed>, b: seq<Placed>, limit: nat)
    requires |a| <= limit
    ensures a + Prefix(b, limit - |a|) == Prefix(a + b, limit)
  {
  }

  /** One tier: collect its rows, order them, take what fits. */
  method TakeTier(buckets: seq<seq<Placed>>, tier: nat, selected0: seq<Placed>, limit: nat,
                  ghost ranked: seq<Placed>, ghost n: nat, ghost ts: seq<seq<Placed>>)
    returns (selected: seq<Placed>)
    requires buckets == SlicesOf(ranked, n) && AnyRow(buckets, tier) && ts == AllTiers(ranked, n)
    requires tier <= |ranked| && |selected0| < limit && selected0 == Prefix(Join(ts[..tier]), limit)
    ensures tier < |ranked|
    ensures |selected| <= limit && selected == Prefix(Join(ts[..tier + 1]), limit)
  {
    AnyRowIsTier(ranked, n, tier);
    TierBelowSize(ranked, n, tier);
    var rows := CollectTier(buckets, tier);
    assert ts[tier] == StableSort(rows, PlacedLe);
    TierStep(selected0, ts, tier, limit);
    selected := PushRows(selected0, StableSort(rows, PlacedLe), limit);
  }

  /** The tier loop: it ends, and a pool larger than the limit fills the limit. */
  method SelectTiers(buckets: seq<seq<Placed>>, limit: nat, ghost ranked: seq<Placed>, ghost n: nat)
    returns (selected: seq<Placed>)
    requires Fits(ranked, n) && |ranked| > limit && buckets == SlicesOf(ranked, n)
    ensures |selected| == limit
    ensures exists t :: 0 <= t <= |ranked| && selected == Prefix(Join(AllTiers(ranked, n)[..t]), limit)
  {
    selected := [];
    var tier := 0;
    ghost var ts := AllTiers(ranked, n);
    while |selected| < limit && AnyRow(buckets, tier)
      invariant tier <= |ranked|
      invariant |selected| <= limit && selected == Prefix(Join(ts[..tier]), limit)
      decreases |ranked| - tier
    {
      selected := TakeTier(buckets, tier, selected, limit, ranked, n, ts);
      tier := tier + 1;
    }
    if |selected| < limit {
      AnyRowIsTier(ranked, n, tier);
      LastTier(selected, ranked, n, tier, limit);
    }
  }

  /** The pool ranked by similarity, each candidate with its slice. */
  function Ranked(pool: seq<Candidate>, from: int, to: int, nBuckets: nat): seq<Placed> {
    Place(StableSort(pool, SimLe), from, to, SliceCount(nBuckets))
  }

  function SliceCount(nBuckets: nat): nat {
    if nBuckets < 1 then 1 else nBuckets
  }

  /** Tier by tier, best first within a tier, until `limit` are taken. */
  method SelectWithCoverage(pool: seq<Candidate>, from: int, to: int, limit: nat, nBuckets: nat) returns (selected: seq<Candidate>)
    ensures |pool| <= limit ==> selected == pool
    ensures |pool| > limit ==>
              var ts := AllTiers(Ranked(pool, from, to, nBuckets), SliceCount(nBuckets));
              && |selected| == limit
              && exists t :: 0 <= t <= |ts| && selected == Unplace(Prefix(Join(ts[..t]), limit))
    ensures |pool| > limit ==>
              forall b, c :: Balanced(Place(selected, from, to, SliceCount(nBuckets)), Ranked(pool, from, to, nBuckets), b, c)
    ensures |pool| > limit ==> (forall c :: c in selected ==> c in pool) && CoversFirst(selected, pool, from, to, SliceCount(nBuckets))
    ensures |pool| > limit ==> TakesTheBest(selected, pool, from, to, SliceCount(nBuckets))
  {
    if |pool| <= limit {
      return pool;
    }
    var n := SliceCount(nBuckets);
    var ranked := Ranked(pool, from, to, nBuckets);
    SortPermutes(pool, SimLe);
    var buckets := FillBuckets(ranked, n);
    var placed := SelectTiers(buckets, limit, ranked, n);
    selected := Unplace(placed);
    PlacedBack(pool, from, to, nBuckets, limit, placed);
    SelectionCoversFirst(pool, from, to, nBuckets, limit, placed);
    SelectionTakesTheBest(pool, from, to, nBuckets, placed, selected);
  }

  /** More similar, or as similar with a smaller or equal id. */
  ghost predicate Outranks(c: Candidate, d: Candidate) {
    c.similarity > d.similarity || (c.similarity == d.similarity && c.id <= d.id)
  }

  /** Of each part of the window, what is taken outranks what is left. */
  ghost predicate TakesTheBest(selected: seq<Candidate>, pool: seq<Candidate>, from: int, to: int, n: nat) {
    forall b, c, d ::
      && c in selected && d in pool && d !in selected && InPart(c, from, to, n, b) && InPart(d, from, to, n, b)
      ==> Outranks(c, d)
  }

  lemma SelectionTakesTheBest(pool: seq<Candidate>, from: int, to: int, nBuckets: nat, placed: seq<Placed>, selected: seq<Candidate>)
    requires selected == Unplace(placed) && Place(selected, from, to, SliceCount(nBuckets)) == placed
    requires forall b, c :: Balanced(placed, Ranked(pool, from, to, nBuckets), b, c)
    ensures TakesTheBest(selected, pool, from, to, SliceCount(nBuckets))
  {
    var n, ranked := SliceCount(nBuckets), Ranked(pool, from, to, nBuckets);
    RankedIsSorted(pool, from, to, nBuckets);
    forall b, c, d | c in selected && d in pool && d !in selected && InPart(c, from, to, n, b) && InPart(d, from, to, n, b)
      ensures Outranks(c, d)
    {
      SliceIsPart(c, from, to, n, b);
      SliceIsPart(d, from, to, n, b);
      PoolIsRanked(pool, from, to, nBuckets, d);
      var i :| 0 <= i < |selected| && selected[i] == c;
      assert placed[i] == Placed(c, b);
      forall y | y in placed ensures y.cand in selected { var k :| 0 <= k < |placed| && placed[k] == y; }
      assert Balanced(placed, ranked, b, b);
      PrefixOutranks(placed, ranked, b, Placed(c, b), Placed(d, b));
    }
  }

  /** What a slice gave comes before what it kept. */
  lemma PrefixOutranks(placed: seq<Placed>, ranked: seq<Placed>, b: nat, x: Placed, y: Placed)
    requires Balanced(placed, ranked, b, b) && Sorted(ranked, PlacedLe)
    requires x in placed && x.slice == b && y in ranked && y !in placed && y.slice == b
    ensures PlacedLe(x, y)
  {
    var slice, given := InSlice(ranked, b), InSlice(placed, b);
    SliceMembers(placed, b, x);
    SliceMembers(placed, b, y);
    SliceMembers(ranked, b, y);
    SlicesAreRanked(ranked, b);
    var i :| 0 <= i < |given| && given[i] == x;
    var j :| 0 <= j < |slice| && slice[j] == y;
    assert forall k :: 0 <= k < |given| ==> slice[k] in given;
    assert slice[i] == x;
  }

  /** Before any part of the window gives a second candidate, every part that holds one in the pool is
      represented. */
  ghost predicate CoversFirst(selected: seq<Candidate>, pool: seq<Candidate>, from: int, to: int, n: nat) {
    forall i, j, b, c, p ::
      && 0 <= i < j < |selected| && InPart(selected[i], from, to, n, b) && InPart(selected[j], from, to, n, b)
      && p in pool && InPart(p, from, to, n, c)
      ==> Represented(selected[..j], from, to, n, c)
  }

  ghost predicate Represented(selected: seq<Candidate>, from: int, to: int, n: nat, c: nat) {
    exists k :: 0 <= k < |selected| && InPart(selected[k], from, to, n, c)
  }

  /** Slice `b` gave its most similar candidates, and `c` is not more than one ahead of it unless `b` is
      used up. */
  ghost predicate Balanced(selected: seq<Placed>, ranked: seq<Placed>, b: nat, c: nat) {
    && InSlice(selected, b) == Prefix(InSlice(ranked, b), Share(selected, b))
    && (Share(selected, c) <= Share(selected, b) + 1 || InSlice(selected, b) == InSlice(ranked, b))
  }

  /** The chosen candidates keep the slices they were ranked with, so the balance of tiers is theirs. */
  lemma PlacedBack(pool: seq<Candidate>, from: int, to: int, nBuckets: nat, limit: nat, placed: seq<Placed>)
    requires var ranked := Ranked(pool, from, to, nBuckets);
             exists t :: 0 <= t <= |ranked| && placed == Prefix(Join(AllTiers(ranked, SliceCount(nBuckets))[..t]), limit)
    ensures Place(Unplace(placed), from, to, SliceCount(nBuckets)) == placed
    ensures forall b, c :: Balanced(placed, Ranked(pool, from, to, nBuckets), b, c)
  {
    var n, ranked := SliceCount(nBuckets), Ranked(pool, from, to, nBuckets);
    var t :| 0 <= t <= |ranked| && placed == Prefix(Join(AllTiers(ranked, n)[..t]), limit);
    forall i | 0 <= i < |placed| ensures placed[i] in ranked {
      ChosenWasRanked(ranked, n, t, placed[i]);
    }
    forall b, c ensures Balanced(placed, ranked, b, c) {
      SelectionIsBalanced(ranked, n, t, limit, b, c);
    }
    var again := Place(Unplace(placed), from, to, n);
    forall i | 0 <= i < |placed| ensures again[i] == placed[i] {
      var j :| 0 <= j < |ranked| && ranked[j] == placed[i];
    }
  }

  lemma SelectionCoversFirst(pool: seq<Candidate>, from: int, to: int, nBuckets: nat, limit: nat, placed: seq<Placed>)
    requires var ranked := Ranked(pool, from, to, nBuckets);
             exists t :: 0 <= t <= |ranked| && placed == Prefix(Join(AllTiers(ranked, SliceCount(nBuckets))[..t]), limit)
    ensures forall c :: c in Unplace(placed) ==> c in pool
    ensures CoversFirst(Unplace(placed), pool, from, to, SliceCount(nBuckets))
  {
    var n, ranked, selected := SliceCount(nBuckets), Ranked(pool, from, to, nBuckets), Unplace(placed);
    var t :| 0 <= t <= |ranked| && placed == Prefix(Join(AllTiers(ranked, n)[..t]), limit);
    forall i | 0 <= i < |placed|
      ensures selected[i] in pool && placed[i].slice == SliceIndex(selected[i], from, to, n)
    {
      ChosenWasRanked(ranked, n, t, placed[i]);
      RankedIsPlaced(pool, from, to, nBuckets, placed[i]);
    }
    forall i, j, b, c, p | 0 <= i < j < |selected| && InPart(selected[i], from, to, n, b) && InPart(selected[j], from, to, n, b) &&
                           p in pool && InPart(p, from, to, n, c)
      ensures Represented(selected[..j], from, to, n, c)
    {
      SliceIsPart(selected[i], from, to, n, b);
      SliceIsPart(selected[j], from, to, n, b);
      SliceIsPart(p, from, to, n, c);
      PoolIsRanked(pool, from, to, nBuckets, p);
      var k := SecondComesLater(ranked, n, t, limit, placed, i, j, b, c, Placed(p, c));
      SliceIsPart(selected[k], from, to, n, c);
      assert selected[..j][k] == selected[k];
    }
  }

  lemma RankedIsPlaced(pool: seq<Candidate>, from: int, to: int, nBuckets: nat, x: Placed)
    requires x in Ranked(pool, from, to, nBuckets)
    ensures x.cand in pool && x.slice == SliceIndex(x.cand, from, to, SliceCount(nBuckets))
  {
    var s := StableSort(pool, SimLe);
    var ranked := Ranked(pool, from, to, nBuckets);
    var i :| 0 <= i < |ranked| && ranked[i] == x;
    SortMembers(pool, s[i], SimLe);
  }

  lemma PoolIsRanked(pool: seq<Candidate>, from: int, to: int, nBuckets: nat, p: Candidate)
    requires p in pool
    ensures Placed(p, SliceIndex(p, from, to, SliceCount(nBuckets))) in Ranked(pool, from, to, nBuckets)
  {
    var s := StableSort(pool, SimLe);
    SortMembers(pool, p, SimLe);
    var i :| 0 <= i < |s| && s[i] == p;
    assert Ranked(pool, from, to, nBuckets)[i] == Placed(p, SliceIndex(p, from, to, SliceCount(nBuckets)));
  }

  /** When slice `b` gives its second candidate at `j`, slice `c` has given one before. */
  lemma SecondComesLater(ranked: seq<Placed>, n: nat, t: nat, limit: nat, placed: seq<Placed>, i: nat, j: nat, b: nat, c: nat, x: Placed)
    returns (k: nat)
    requires Fits(ranked, n) && t <= |ranked| && placed == Prefix(Join(AllTiers(ranked, n)[..t]), limit)
    requires i < j < |placed| && placed[i].slice == b == placed[j].slice && x in ranked && x.slice == c
    ensures k < j && placed[k].slice == c
  {
    if b == c {
      k := i;
    } else {
      var head := placed[..j + 1];
      assert head == Prefix(Join(AllTiers(ranked, n)[..t]), j + 1);
      SelectionIsBalanced(ranked, n, t, j + 1, c, b);
      SliceMembers(ranked, c, x);
      TwoInSlice(head, i, j, b);
      k := BalancedGives(head, ranked, c, b);
    }
  }

  lemma BalancedGives(head: seq<Placed>, ranked: seq<Placed>, c: nat, b: nat) returns (k: nat)
    requires Balanced(head, ranked, c, b) && Share(head, b) >= 2 && InSlice(ranked, c) != []
    ensures k < |head| && head[k].slice == c
  {
    var y := InSlice(head, c)[0];
    SliceMembers(head, c, y);
    k :| 0 <= k < |head| && head[k] == y;
  }

  lemma TwoInSlice(s: seq<Placed>, i: nat, j: nat, b: nat)
    requires i < j < |s| && s[i].slice == b == s[j].slice
    ensures Share(s, b) >= 2
  {
    var pre, post := s[..j], s[j..];
    assert s == pre + post;
    InSliceConcat(pre, post, b);
    SliceMembers(pre, b, s[i]);
    SliceMembers(post, b, s[j]);
    assert pre[i] == s[i] && post[0] == s[j];
  }

  lemma {:induction false} SliceMembers(s: seq<Placed>, b: nat, x: Placed)
    ensures x in InSlice(s, b) <==> x in s && x.slice == b
  {
    if s != [] {
      SliceMembers(s[1..], b, x);
      assert x in s <==> x == s[0] || x in s[1..];
    }
  }

  lemma ChosenWasRanked(ranked: seq<Placed>, n: nat, t: nat, x: Placed)
    requires Fits(ranked, n) && t <= |ranked| && x in Join(AllTiers(ranked, n)[..t])
    ensures x in ranked
  {
    AllTiersAreTiers(ranked, n);
    TiersSlice(AllTiers(ranked, n), ranked, t, x.slice);
    SliceMembers(Join(AllTiers(ranked, n)[..t]), x.slice, x);
    SliceMembers(ranked, x.slice, x);
  }

  lemma TierStep(selected: seq<Placed>, ts: seq<seq<Placed>>, tier: nat, limit: nat)
    requires tier < |ts| && selected == Prefix(Join(ts[..tier]), limit) && |selected| < limit
    ensures selected + Prefix(ts[tier], limit - |selected|) == Prefix(Join(ts[..tier + 1]), limit)
  {
    assert selected == Join(ts[..tier]);
    JoinSnoc(ts[..tier], ts[tier]);
    assert ts[..tier + 1] == ts[..tier] + [ts[tier]];
    PrefixConcat(selected, ts[tier], limit);
  }

  /** A pool larger than the limit fills it. */
  lemma LastTier(selected: seq<Placed>, ranked: seq<Placed>, n: nat, tier: nat, limit: nat)
    requires Fits(ranked, n) && !HasTier(ranked, n, tier) && |ranked| > limit && tier <= |ranked|
    requires selected == Prefix(Join(AllTiers(ranked, n)[..tier]), limit)
    ensures |selected| == limit
  {
    TiersHoldAll(ranked, n, tier);
  }

  // ---- Tiers and slices ----------------------------------------------------------------------------------

  lemma {:induction false} InSliceConcat(x: seq<Placed>, y: seq<Placed>, b: nat)
    ensures InSlice(x + y, b) == InSlice(x, b) + InSlice(y, b)
  {
    if x == [] {
      assert x + y == y;
    } else {
      assert (x + y)[1..] == x[1..] + y;
      InSliceConcat(x[1..], y, b);
      var head := if x[0].slice == b then [x[0]] else [];
      assert InSlice(x + y, b) == head + (InSlice(x[1..], b) + InSlice(y, b));
      Assoc(head, InSlice(x[1..], b), InSlice(y, b));
    }
  }

  lemma {:induction false} SliceSize(s: seq<Placed>, b: nat)
    ensures |InSlice(s, b)| <= |s|
    ensures forall i :: 0 <= i < |InSlice(s, b)| ==> InSlice(s, b)[i].slice == b
  {
    if s != [] { SliceSize(s[1..], b); }
  }

  lemma {:induction false} NoSuchSlice(s: seq<Placed>, n: nat, b: nat)
    requires Fits(s, n) && b >= n
    ensures InSlice(s, b) == []
  {
    if s != [] { NoSuchSlice(s[1..], n, b); }
  }

  lemma TierBelowSize(ranked: seq<Placed>, n: nat, tier: nat)
    requires HasTier(ranked, n, tier)
    ensures tier < |ranked|
  {
    var b :| 0 <= b < n && |InSlice(ranked, b)| > tier;
    SliceSize(ranked, b);
  }

  /** Lists without a candidate of slice `b` join to one without. */
  lemma {:induction false} JoinNone(ts: seq<seq<Placed>>, b: nat)
    requires forall i :: 0 <= i < |ts| ==> InSlice(ts[i], b) == []
    ensures InSlice(Join(ts), b) == []
  {
    if ts != [] {
      JoinNone(ts[1..], b);
      InSliceConcat(ts[0], Join(ts[1..]), b);
    }
  }

  /** Joining lists of which the `i`-th has the `i`-th element of `bucket` in slice `b`. */
  lemma {:induction false} JoinRows(ts: seq<seq<Placed>>, bucket: seq<Placed>, b: nat)
    requires forall i :: 0 <= i < |ts| ==> InSlice(ts[i], b) == RowOf(bucket, i)
    ensures InSlice(Join(ts), b) == Prefix(bucket, |ts|)
    decreases |ts|
  {
    if bucket == [] {
      JoinNone(ts, b);
    } else if ts != [] {
      forall i | 0 <= i < |ts[1..]| ensures InSlice(ts[1..][i], b) == RowOf(bucket[1..], i) {
        assert ts[1..][i] == ts[i + 1];
      }
      JoinRows(ts[1..], bucket[1..], b);
      InSliceConcat(ts[0], Join(ts[1..]), b);
      PrefixCons(bucket, |ts|);
    }
  }

  lemma PrefixCons(s: seq<Placed>, k: nat)
    requires s != [] && k > 0
    ensures Prefix(s, k) == [s[0]] + Prefix(s[1..], k - 1)
  {
  }

  /** Joining lists of which only the `b`-th has candidates of slice `b`. */
  lemma JoinOne(ts: seq<seq<Placed>>, b: nat)
    requires b < |ts| && forall c :: 0 <= c < |ts| && c != b ==> InSlice(ts[c], b) == []
    ensures InSlice(Join(ts), b) == InSlice(ts[b], b)
  {
    var pre, post := ts[..b], ts[b + 1..];
    JoinAround(ts, b);
    JoinNone(pre, b);
    JoinNone(post, b);
    InSliceConcat(Join(pre), ts[b] + Join(post), b);
    InSliceConcat(ts[b], Join(post), b);
  }

  lemma JoinAround(ts: seq<seq<Placed>>, b: nat)
    requires b < |ts|
    ensures Join(ts) == Join(ts[..b]) + (ts[b] + Join(ts[b + 1..]))
  {
    var rest := ts[b..];
    assert ts == ts[..b] + rest;
    JoinConcat(ts[..b], rest);
    assert rest[0] == ts[b] && rest[1..] == ts[b + 1..];
  }

  /** A tier has one row of each slice that reaches it. */
  lemma TierRowsSlice(ranked: seq<Placed>, tier: nat, n: nat, b: nat)
    ensures InSlice(Join(RowLists(SlicesOf(ranked, n), tier)), b) == if b < n then RowOf(InSlice(ranked, b), tier) else []
  {
    var rows := RowLists(SlicesOf(ranked, n), tier);
    forall c | 0 <= c < n ensures InSlice(rows[c], b) == if c == b then RowOf(InSlice(ranked, b), tier) else [] {
      RowSlice(ranked, tier, c, b);
    }
    if b < n {
      JoinOne(rows, b);
    } else {
      JoinNone(rows, b);
    }
  }

  lemma RowSlice(ranked: seq<Placed>, tier: nat, c: nat, b: nat)
    ensures InSlice(RowOf(InSlice(ranked, c), tier), b) == if b == c then RowOf(InSlice(ranked, c), tier) else []
  {
    var bucket := InSlice(ranked, c);
    SliceSize(ranked, c);
    if tier < |bucket| {
      assert bucket[tier].slice == c;
      assert [bucket[tier]][1..] == [];
    }
  }

  lemma {:induction false} InsertSlice(x: Placed, s: seq<Placed>, b: nat)
    ensures multiset(InSlice(Insert(x, s, PlacedLe), b)) == multiset(InSlice([x] + s, b))
  {
    assert ([x] + s)[1..] == s;
    if s != [] && !PlacedLe(x, s[0]) {
      InsertSlice(x, s[1..], b);
      assert ([x] + s[1..])[1..] == s[1..];
      assert Insert(x, s, PlacedLe)[1..] == Insert(x, s[1..], PlacedLe);
    }
  }

  lemma {:induction false} SortSlice(s: seq<Placed>, b: nat)
    ensures multiset(InSlice(StableSort(s, PlacedLe), b)) == multiset(InSlice(s, b))
  {
    if s != [] {
      SortSlice(s[1..], b);
      InsertSlice(s[0], StableSort(s[1..], PlacedLe), b);
      assert ([s[0]] + StableSort(s[1..], PlacedLe))[1..] == StableSort(s[1..], PlacedLe);
    }
  }

  lemma SingleMultiset(s: seq<Placed>, x: Placed)
    requires multiset(s) == multiset{x}
    ensures s == [x]
  {
    assert |s| == |multiset(s)| == 1;
    assert s[0] in multiset(s);
  }

  /** Sorting rows of which slice `b` has at most one keeps that one. */
  lemma SortedRowsSlice(rows: seq<Placed>, b: nat)
    requires |InSlice(rows, b)| <= 1
    ensures InSlice(StableSort(rows, PlacedLe), b) == InSlice(rows, b)
  {
    var r := InSlice(StableSort(rows, PlacedLe), b);
    SortSlice(rows, b);
    if InSlice(rows, b) != [] {
      assert InSlice(rows, b) == [InSlice(rows, b)[0]];
      SingleMultiset(r, InSlice(rows, b)[0]);
    } else {
      assert |r| == |multiset(r)| == 0;
    }
  }

  /** Tier `i` holds the `i`-th best of every slice. */
  ghost predicate AreTiers(ts: seq<seq<Placed>>, ranked: seq<Placed>) {
    forall i, b: nat :: 0 <= i < |ts| ==> InSlice(ts[i], b) == RowOf(InSlice(ranked, b), i)
  }

  lemma AllTiersAreTiers(ranked: seq<Placed>, n: nat)
    requires Fits(ranked, n)
    ensures AreTiers(AllTiers(ranked, n), ranked)
  {
    var ts := AllTiers(ranked, n);
    forall i, b: nat | 0 <= i < |ts| ensures InSlice(ts[i], b) == RowOf(InSlice(ranked, b), i) {
      TierRowsSlice(ranked, i, n, b);
      SortedRowsSlice(Join(RowLists(SlicesOf(ranked, n), i)), b);
      if b >= n { NoSuchSlice(ranked, n, b); }
    }
  }

  lemma PrefixNext(s: seq<Placed>, k: nat)
    ensures Prefix(s, k + 1) == Prefix(s, k) + RowOf(s, k)
  {
  }

  /** The first `t` tiers hold the `t` best of every slice, in order. */
  lemma TiersSlice(ts: seq<seq<Placed>>, ranked: seq<Placed>, t: nat, b: nat)
    requires AreTiers(ts, ranked) && t <= |ts|
    ensures InSlice(Join(ts[..t]), b) == Prefix(InSlice(ranked, b), t)
  {
    JoinRows(ts[..t], InSlice(ranked, b), b);
  }

  lemma {:induction false} ClassIsSlice(s: seq<Placed>, x: Placed)
    ensures Class(s, x, SliceLe) == InSlice(s, x.slice)
  {
    if s != [] { ClassIsSlice(s[1..], x); }
  }

  /** Once no slice is left, the tiers hold as many candidates as the pool. */
  lemma TiersHoldAll(ranked: seq<Placed>, n: nat, t: nat)
    requires Fits(ranked, n) && !HasTier(ranked, n, t) && t <= |ranked|
    ensures |Join(AllTiers(ranked, n)[..t])| == |ranked|
  {
    AllTiersAreTiers(ranked, n);
    var all := Join(AllTiers(ranked, n)[..t]);
    SortIsStable(all, SliceLe);
    SortIsStable(ranked, SliceLe);
    forall x ensures Class(StableSort(all, SliceLe), x, SliceLe) == Class(StableSort(ranked, SliceLe), x, SliceLe) {
      ClassIsSlice(all, x);
      ClassIsSlice(ranked, x);
      TiersSlice(AllTiers(ranked, n), ranked, t, x.slice);
      if x.slice >= n { NoSuchSlice(ranked, n, x.slice); }
    }
    StableUnique(StableSort(all, SliceLe), StableSort(ranked, SliceLe), SliceLe);
    SortPermutes(all, SliceLe);
    SortPermutes(ranked, SliceLe);
  }

  // ---- What the selection guarantees ------------------------------------------------------------------------

  /** `got` is the `level` best of `bucket`, or one more. */
  ghost predicate AtLevel(got: seq<Placed>, bucket: seq<Placed>, level: nat) {
    got == Prefix(bucket, level) || got == Prefix(bucket, level + 1)
  }

  /** A cut keeps the whole tiers before it and a part of the one it falls into. */
  lemma {:induction false} CutForm(ts: seq<seq<Placed>>, t: nat, limit: nat) returns (c: nat)
    requires 0 < t <= |ts|
    ensures c < t && |Join(ts[..c])| <= limit
    ensures Prefix(Join(ts[..t]), limit) == Join(ts[..c]) + Prefix(ts[c], limit - |Join(ts[..c])|)
  {
    assert ts[..t] == ts[..t - 1] + [ts[t - 1]];
    JoinSnoc(ts[..t - 1], ts[t - 1]);
    if limit < |Join(ts[..t - 1])| {
      c := CutForm(ts, t - 1, limit);
      SamePrefix(Join(ts[..t - 1]), ts[t - 1], limit);
    } else {
      c := t - 1;
      PrefixConcat(Join(ts[..c]), ts[c], limit);
    }
  }

  /** Any part of a tier adds at most the slice's next best. */
  lemma PartialTier(ts: seq<seq<Placed>>, ranked: seq<Placed>, tier: nat, k: nat, b: nat)
    requires AreTiers(ts, ranked) && tier < |ts|
    ensures AtLevel(InSlice(Join(ts[..tier]) + Prefix(ts[tier], k), b), InSlice(ranked, b), tier)
  {
    var bucket := InSlice(ranked, b);
    var part := Prefix(ts[tier], k);
    var rest := PrefixSplit(ts[tier], k);
    TiersSlice(ts, ranked, tier, b);
    InSliceConcat(part, rest, b);
    InSliceConcat(Join(ts[..tier]), part, b);
    PartOfOne(InSlice(part, b), InSlice(rest, b), RowOf(bucket, tier));
    PrefixNext(bucket, tier);
  }

  lemma SamePrefix(a: seq<Placed>, b: seq<Placed>, limit: nat)
    requires limit <= |a|
    ensures Prefix(a + b, limit) == Prefix(a, limit)
  {
  }

  lemma PrefixSplit(s: seq<Placed>, k: nat) returns (rest: seq<Placed>)
    ensures s == Prefix(s, k) + rest
  {
    rest := if k < |s| then s[k..] else [];
  }

  /** A part of at most one element is none or all of it. */
  lemma PartOfOne(part: seq<Placed>, rest: seq<Placed>, one: seq<Placed>)
    requires part + rest == one && |one| <= 1
    ensures part == [] || part == one
  {
    if part != [] { assert rest == []; }
  }

  /** How many of the selection come from slice `b`. */
  function Share(selected: seq<Placed>, b: nat): nat {
    |InSlice(selected, b)|
  }

  lemma LevelsBalance(selected: seq<Placed>, ranked: seq<Placed>, b: nat, c: nat, level: nat)
    requires AtLevel(InSlice(selected, b), InSlice(ranked, b), level)
    requires AtLevel(InSlice(selected, c), InSlice(ranked, c), level)
    ensures InSlice(selected, b) == Prefix(InSlice(ranked, b), Share(selected, b))
    ensures Share(selected, c) <= Share(selected, b) + 1 || InSlice(selected, b) == InSlice(ranked, b)
  {
  }

  /** From each slice the selection takes its most similar candidates, and no slice is more than one
      ahead of another that still has candidates left. */
  lemma SelectionIsBalanced(ranked: seq<Placed>, n: nat, t: nat, limit: nat, b: nat, c: nat)
    requires Fits(ranked, n) && t <= |ranked|
    ensures Balanced(Prefix(Join(AllTiers(ranked, n)[..t]), limit), ranked, b, c)
  {
    AllTiersAreTiers(ranked, n);
    CutIsBalanced(AllTiers(ranked, n), ranked, t, limit, b, c);
  }

  lemma CutIsBalanced(ts: seq<seq<Placed>>, ranked: seq<Placed>, t: nat, limit: nat, b: nat, c: nat)
    requires AreTiers(ts, ranked) && t <= |ts|
    ensures Balanced(Prefix(Join(ts[..t]), limit), ranked, b, c)
  {
    var selected := Prefix(Join(ts[..t]), limit);
    if t == 0 {
      assert selected == [];
    } else {
      var cut := CutForm(ts, t, limit);
      var k := limit - |Join(ts[..cut])|;
      PartialTier(ts, ranked, cut, k, b);
      PartialTier(ts, ranked, cut, k, c);
      LevelsBalance(selected, ranked, b, c, cut);
    }
  }

  /** Within a slice the ranked list runs by similarity, so a prefix is its most similar part. */
  lemma {:induction false} SlicesAreRanked(s: seq<Placed>, b: nat)
    requires Sorted(s, PlacedLe)
    ensures Sorted(InSlice(s, b), PlacedLe)
    ensures forall c :: c in InSlice(s, b) <==> c in s && c.slice == b
  {
    if s != [] {
      SlicesAreRanked(s[1..], b);
      var rest := InSlice(s[1..], b);
      forall c | c in rest ensures PlacedLe(s[0], c) { HeadIsLeast(s, c, PlacedLe); }
      if s[0].slice == b {
        SortedCons(s[0], rest, PlacedLe);
      } else {
        assert InSlice(s, b) == rest;
      }
      assert forall c :: c in s <==> c == s[0] || c in s[1..];
    }
  }

  /** The ranked pool is in similarity order. */
  lemma RankedIsSorted(pool: seq<Candidate>, from: int, to: int, nBuckets: nat)
    ensures Sorted(Ranked(pool, from, to, nBuckets), PlacedLe)
    ensures var r := Ranked(pool, from, to, nBuckets);
            forall i, j :: 0 <= i < j < |r| ==> Outranks(r[i].cand, r[j].cand)
    ensures Fits(Ranked(pool, from, to, nBuckets), SliceCount(nBuckets))
  {
    SortIsStable(pool, SimLe);
    var r, s := Ranked(pool, from, to, nBuckets), StableSort(pool, SimLe);
    forall i, j | 0 <= i < j < |r| ensures PlacedLe(r[i], r[j]) {
      assert SimLe(s[i], s[j]);
    }
  }
}

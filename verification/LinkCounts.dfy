/** The sliding-window sweep that counts temporal links from a time histogram
    (crates/mlake-index/src/query_node.rs:1003-1015). */
module LinkCounts {

  const WINDOW_MS: int := 24 * 60 * 60 * 1000
  const MAX_LINKS: nat := 20

  datatype Bucket = Bucket(ts: int, count: nat)

  /** Ascending times, every bucket occupied. */
  ghost predicate Histogram(b: seq<Bucket>) {
    && (forall i, j :: 0 <= i < j < |b| ==> b[i].ts < b[j].ts)
    && (forall i :: 0 <= i < |b| ==> b[i].count > 0)
  }

  function Min(a: nat, b: nat): nat {
    if a < b then a else b
  }

  predicate Close(a: int, b: int) {
    b - WINDOW_MS <= a <= b + WINDOW_MS
  }

  // ---- The quadratic definition, over memories ------------------------------------------------------

  /** One time per memory. */
  function Times(b: seq<Bucket>): seq<int> {
    if b == [] then []
    else
      var n := |b| - 1;
      Times(b[..n]) + seq(b[n].count, _ => b[n].ts)
  }

  /** How many of the first `n` memories other than `a` are within the window of `a`. */
  function OthersClose(times: seq<int>, a: nat, n: nat): nat
    requires a < |times| && n <= |times|
  {
    if n == 0 then 0
    else OthersClose(times, a, n - 1) + if n - 1 != a && Close(times[n - 1], times[a]) then 1 else 0
  }

  /** Capped links of the first `n` memories. */
  function Links(times: seq<int>, n: nat): nat
    requires n <= |times|
  {
    if n == 0 then 0
    else Links(times, n - 1) + Min(OthersClose(times, n - 1, |times|), MAX_LINKS)
  }

  function TemporalLinks(times: seq<int>): nat {
    Links(times, |times|)
  }

  // ---- Window sums over buckets -----------------------------------------------------------------------

  function Sum(b: seq<Bucket>): nat {
    if b == [] then 0 else Sum(b[..|b| - 1]) + b[|b| - 1].count
  }

  function Near(b: seq<Bucket>, t: int): nat {
    if b == [] then 0
    else
      var n := |b| - 1;
      Near(b[..n], t) + if Close(b[n].ts, t) then b[n].count else 0
  }

  lemma {:induction false} SumGrows(b: seq<Bucket>, i: nat, j: nat)
    requires i <= j <= |b|
    ensures Sum(b[..i]) <= Sum(b[..j])
    ensures i < j ==> Sum(b[..i + 1]) == Sum(b[..i]) + b[i].count && Sum(b[..i + 1]) <= Sum(b[..j])
    decreases j - i
  {
    if i < j {
      assert b[..i + 1][..i] == b[..i];
      SumGrows(b, i + 1, j);
    }
  }

  /** Buckets `lo..hi` are exactly those within the window of `t`. */
  ghost predicate WindowAt(b: seq<Bucket>, t: int, lo: nat, hi: nat) {
    && lo <= hi <= |b|
    && forall k :: 0 <= k < |b| ==> (Close(b[k].ts, t) <==> lo <= k < hi)
  }

  lemma {:induction false} WindowSum(b: seq<Bucket>, t: int, lo: nat, hi: nat)
    requires WindowAt(b, t, lo, hi)
    ensures Sum(b[..lo]) + Near(b, t) == Sum(b[..hi])
  {
    if b != [] {
      var n := |b| - 1;
      var init := b[..n];
      if hi <= n {
        WindowSum(init, t, lo, hi);
        assert init[..lo] == b[..lo] && init[..hi] == b[..hi];
      } else if lo <= n {
        WindowSum(init, t, lo, n);
        assert init[..lo] == b[..lo] && init[..n] == b[..n] && b[..hi] == b;
      } else {
        assert forall k :: 0 <= k < n ==> !Close(init[k].ts, t);
        WindowSum(init, t, n, n);
        assert init[..n] == b[..n];
      }
    }
  }

  /** Bucket-level count over the first `n` buckets. */
  function BucketLinks(b: seq<Bucket>, n: nat): nat
    requires n <= |b| && Histogram(b)
  {
    if n == 0 then 0
    else
      OccupiedWindow(b, n - 1);
      BucketLinks(b, n - 1) + Weighted(b[n - 1].count, Near(b, b[n - 1].ts))
  }

  /** What the memories of one bucket contribute, given the sum over their window. */
  function Weighted(count: nat, windowSum: nat): nat
    requires windowSum >= 1
  {
    count * Min(windowSum - 1, MAX_LINKS)
  }

  /** A memory is in its own window, so the sum there is at least its bucket's count. */
  lemma {:induction false} OccupiedWindow(b: seq<Bucket>, i: nat)
    requires i < |b|
    ensures Near(b, b[i].ts) >= b[i].count
  {
    if i < |b| - 1 { OccupiedWindow(b[..|b| - 1], i); }
  }

  // ---- The sweep ----------------------------------------------------------------------------------------

  method Sweep(b: seq<Bucket>) returns (temporal: nat)
    requires Histogram(b)
    ensures temporal == BucketLinks(b, |b|)
  {
    var lo: nat, hi: nat, windowSum: nat := 0, 0, 0;
    temporal := 0;
    for i := 0 to |b|
      invariant lo <= i <= hi <= |b|
      invariant Sum(b[..lo]) + windowSum == Sum(b[..hi])
      invariant forall k :: 0 <= k < lo && i < |b| ==> b[k].ts < b[i].ts - WINDOW_MS
      invariant forall k :: 0 <= k < hi && i < |b| ==> b[k].ts <= b[i].ts + WINDOW_MS
      invariant temporal == BucketLinks(b, i)
    {
      var ts := b[i].ts;
      lo, windowSum := DropOld(b, i, lo, hi, windowSum);
      hi, windowSum := TakeNew(b, i, lo, hi, windowSum);
      assert WindowAt(b, ts, lo, hi);
      WindowSum(b, ts, lo, hi);
      OccupiedWindow(b, i);
      temporal := temporal + Weighted(b[i].count, windowSum);
    }
  }

  method DropOld(b: seq<Bucket>, i: nat, lo0: nat, hi: nat, sum0: nat) returns (lo: nat, windowSum: nat)
    requires Histogram(b) && i < |b| && lo0 <= i <= hi <= |b|
    requires Sum(b[..lo0]) + sum0 == Sum(b[..hi])
    requires forall k :: 0 <= k < lo0 ==> b[k].ts < b[i].ts - WINDOW_MS
    ensures lo <= i && Sum(b[..lo]) + windowSum == Sum(b[..hi])
    ensures forall k :: 0 <= k < |b| ==> (b[k].ts < b[i].ts - WINDOW_MS <==> k < lo)
  {
    lo, windowSum := lo0, sum0;
    while b[lo].ts < b[i].ts - WINDOW_MS
      invariant lo <= i && Sum(b[..lo]) + windowSum == Sum(b[..hi])
      invariant forall k :: 0 <= k < lo ==> b[k].ts < b[i].ts - WINDOW_MS
      decreases i - lo
    {
      SumGrows(b, lo, hi);
      windowSum := windowSum - b[lo].count;
      lo := lo + 1;
    }
  }

  method TakeNew(b: seq<Bucket>, i: nat, lo: nat, hi0: nat, sum0: nat) returns (hi: nat, windowSum: nat)
    requires Histogram(b) && i < |b| && lo <= i <= hi0 <= |b|
    requires Sum(b[..lo]) + sum0 == Sum(b[..hi0])
    requires forall k :: 0 <= k < hi0 ==> b[k].ts <= b[i].ts + WINDOW_MS
    ensures i < hi <= |b| && Sum(b[..lo]) + windowSum == Sum(b[..hi])
    ensures forall k :: 0 <= k < |b| ==> (b[k].ts <= b[i].ts + WINDOW_MS <==> k < hi)
  {
    hi, windowSum := hi0, sum0;
    while hi < |b| && b[hi].ts <= b[i].ts + WINDOW_MS
      invariant hi0 <= hi <= |b| && Sum(b[..lo]) + windowSum == Sum(b[..hi])
      invariant forall k :: 0 <= k < hi ==> b[k].ts <= b[i].ts + WINDOW_MS
    {
      SumGrows(b, hi, hi + 1);
      windowSum := windowSum + b[hi].count;
      hi := hi + 1;
    }
  }

  // ---- Buckets and memories ---------------------------------------------------------------------------------

  function Within(times: seq<int>, t: int): nat {
    if times == [] then 0
    else
      var n := |times| - 1;
      Within(times[..n], t) + if Close(times[n], t) then 1 else 0
  }

  lemma {:induction false} WithinConcat(a: seq<int>, b: seq<int>, t: int)
    ensures Within(a + b, t) == Within(a, t) + Within(b, t)
    decreases |b|
  {
    if b == [] {
      assert a + b == a;
    } else {
      assert (a + b)[..|a + b| - 1] == a + b[..|b| - 1];
      WithinConcat(a, b[..|b| - 1], t);
    }
  }

  lemma {:induction false} WithinRepeat(n: nat, ts: int, t: int)
    ensures Within(seq(n, _ => ts), t) == if Close(ts, t) then n else 0
  {
    if n > 0 {
      assert seq(n, _ => ts)[..n - 1] == seq(n - 1, _ => ts);
      WithinRepeat(n - 1, ts, t);
    }
  }

  lemma {:induction false} WithinIsNear(b: seq<Bucket>, t: int)
    ensures Within(Times(b), t) == Near(b, t)
  {
    if b != [] {
      var n := |b| - 1;
      WithinIsNear(b[..n], t);
      WithinConcat(Times(b[..n]), seq(b[n].count, _ => b[n].ts), t);
      WithinRepeat(b[n].count, b[n].ts, t);
    }
  }

  lemma {:induction false} OthersAreWithin(times: seq<int>, a: nat, n: nat)
    requires a < |times| && n <= |times|
    ensures OthersClose(times, a, n) + (if a < n then 1 else 0) == Within(times[..n], times[a])
  {
    if n > 0 {
      OthersAreWithin(times, a, n - 1);
      assert times[..n][..n - 1] == times[..n - 1];
    }
  }

  /** `c` equal memories contribute `c` times the same capped count. */
  lemma {:induction false} LinksOfEqual(times: seq<int>, i: nat, c: nat, each: nat)
    requires i + c <= |times|
    requires forall a :: i <= a < i + c ==> Min(OthersClose(times, a, |times|), MAX_LINKS) == each
    ensures Links(times, i + c) == Links(times, i) + c * each
  {
    if c > 0 {
      LinksOfEqual(times, i, c - 1, each);
      OneMore(c - 1, each);
    }
  }

  lemma OneMore(c: nat, each: nat)
    ensures (c + 1) * each == c * each + each
  {
  }

  lemma {:induction false} TimesPrefix(b: seq<Bucket>, n: nat)
    requires n <= |b|
    ensures |Times(b[..n])| <= |Times(b)| && Times(b)[..|Times(b[..n])|] == Times(b[..n])
  {
    if n == |b| {
      assert b[..n] == b;
    } else {
      var m := |b| - 1;
      TimesPrefix(b[..m], n);
      assert b[..m][..n] == b[..n];
    }
  }

  lemma OthersAreNear(b: seq<Bucket>, a: nat)
    requires a < |Times(b)|
    ensures OthersClose(Times(b), a, |Times(b)|) + 1 == Near(b, Times(b)[a])
  {
    var times := Times(b);
    OthersAreWithin(times, a, |times|);
    assert times[..|times|] == times;
    WithinIsNear(b, times[a]);
  }

  /** The memories of bucket `n - 1` follow those of the buckets before it and contribute its weight. */
  lemma BucketStep(b: seq<Bucket>, n: nat)
    requires Histogram(b) && 0 < n <= |b|
    ensures |Times(b[..n - 1])| <= |Times(b[..n])| <= |Times(b)|
    ensures Near(b, b[n - 1].ts) >= 1
    ensures Links(Times(b), |Times(b[..n])|) ==
            Links(Times(b), |Times(b[..n - 1])|) + Weighted(b[n - 1].count, Near(b, b[n - 1].ts))
  {
    var times := Times(b);
    var ts, c := b[n - 1].ts, b[n - 1].count;
    TimesPrefix(b, n);
    assert b[..n][..n - 1] == b[..n - 1];
    var i := |Times(b[..n - 1])|;
    assert Times(b[..n]) == Times(b[..n - 1]) + seq(c, _ => ts);
    OccupiedWindow(b, n - 1);
    forall a | i <= a < i + c
      ensures Min(OthersClose(times, a, |times|), MAX_LINKS) == Min(Near(b, ts) - 1, MAX_LINKS)
    {
      assert times[a] == times[..i + c][a] == ts;
      OthersAreNear(b, a);
    }
    LinksOfEqual(times, i, c, Min(Near(b, ts) - 1, MAX_LINKS));
  }

  lemma {:induction false} BucketsAreMemories(b: seq<Bucket>, n: nat)
    requires Histogram(b) && n <= |b|
    ensures |Times(b[..n])| <= |Times(b)|
    ensures Links(Times(b), |Times(b[..n])|) == BucketLinks(b, n)
  {
    if n > 0 {
      BucketsAreMemories(b, n - 1);
      BucketStep(b, n);
    }
  }

  /** The sweep's bucket-level total is the quadratic definition over memories: for each one, the number
      of other memories within the window, capped. */
  lemma SweepIsQuadratic(b: seq<Bucket>)
    requires Histogram(b)
    ensures BucketLinks(b, |b|) == TemporalLinks(Times(b))
  {
    BucketsAreMemories(b, |b|);
    assert b[..|b|] == b;
  }

  method CountTemporalLinks(b: seq<Bucket>) returns (temporal: nat)
    requires Histogram(b)
    ensures temporal == TemporalLinks(Times(b))
  {
    temporal := Sweep(b);
    SweepIsQuadratic(b);
  }
}

/** Cluster summaries and the pruning they allow (crates/mlake-index/src/indexer.rs:972-992,
    generation.rs:204-226, query_node.rs:1744-1780; crates/mlake-core/src/tags.rs:100-156). */
module Summary {
  import opened Tags
  import opened Memories

  const I64_MAX: int := 0x7FFF_FFFF_FFFF_FFFF
  const I64_MIN: int := -0x8000_0000_0000_0000

  /** `updatedRange` is absent only in summaries written before the field existed. */
  datatype ClusterSummary = ClusterSummary(tags: seq<string>, hasUntagged: bool, updatedRange: Option<(int, int)>) {

    /** Whether a member could fall inside the window. */
    predicate AdmitsWindow(w: UpdatedWindow) {
      !w.IsNoop() && updatedRange.Some? ==>
      var (lo, hi) := updatedRange.value;
      && lo <= hi
      && (w.from.Some? ==> hi > w.from.value)
      && (w.to.Some? ==> lo < w.to.value)
    }
  }

  datatype UpdatedWindow = UpdatedWindow(from: Option<int>, to: Option<int>) {
    predicate IsNoop() {
      from.None? && to.None?
    }

    predicate Admits(updatedAt: Option<int>) {
      !IsNoop() ==>
      && updatedAt.Some?
      && (from.Some? ==> updatedAt.value > from.value)
      && (to.Some? ==> updatedAt.value < to.value)
    }
  }

  /** Write times fit the machine's integers. */
  predicate TimesFit(cluster: seq<StoredMemory>) {
    forall m :: m in cluster && m.timestamps.updatedAt.Some? ==> I64_MIN <= m.timestamps.updatedAt.value <= I64_MAX
  }

  ghost predicate CarriesTag(cluster: seq<StoredMemory>, t: string) {
    exists m :: m in cluster && t in m.tags
  }

  ghost predicate WrittenAt(cluster: seq<StoredMemory>, u: int) {
    exists m :: m in cluster && m.timestamps.updatedAt == Some(u)
  }

  /** `lo` and `hi` are the earliest and latest write time, and cross when there is none. */
  ghost predicate IsSpan(cluster: seq<StoredMemory>, lo: int, hi: int) {
    && (forall u :: WrittenAt(cluster, u) ==> lo <= u <= hi)
    && (lo <= hi ==> WrittenAt(cluster, lo) && WrittenAt(cluster, hi))
  }

  /** The union of tags, the untagged flag and the span of write times of `cluster`. */
  ghost predicate Summarizes(s: ClusterSummary, cluster: seq<StoredMemory>) {
    && (forall t :: t in s.tags <==> CarriesTag(cluster, t))
    && (s.hasUntagged <==> exists m :: m in cluster && m.tags == [])
    && (s.updatedRange.Some? ==> IsSpan(cluster, s.updatedRange.value.0, s.updatedRange.value.1))
  }

  // ---- Building a summary ---------------------------------------------------------------------------------

  lemma WrittenSnoc(cluster: seq<StoredMemory>, m: StoredMemory, u: int)
    ensures WrittenAt(cluster + [m], u) <==> WrittenAt(cluster, u) || m.timestamps.updatedAt == Some(u)
  {
    assert forall x :: x in cluster + [m] <==> x in cluster || x == m;
  }

  /** The span so far, or the crossed bounds it starts from. */
  ghost predicate SpanSoFar(cluster: seq<StoredMemory>, lo: int, hi: int) {
    && I64_MIN <= lo <= I64_MAX && I64_MIN <= hi <= I64_MAX
    && (forall u :: WrittenAt(cluster, u) ==> lo <= u <= hi)
    && if exists u :: WrittenAt(cluster, u) then WrittenAt(cluster, lo) && WrittenAt(cluster, hi)
       else lo == I64_MAX && hi == I64_MIN
  }

  lemma SpanStep(cluster: seq<StoredMemory>, lo: int, hi: int, m: StoredMemory)
    requires SpanSoFar(cluster, lo, hi)
    requires m.timestamps.updatedAt.Some? ==> I64_MIN <= m.timestamps.updatedAt.value <= I64_MAX
    ensures var at := m.timestamps.updatedAt;
            if at.None? then SpanSoFar(cluster + [m], lo, hi)
            else SpanSoFar(cluster + [m], if at.value < lo then at.value else lo, if at.value > hi then at.value else hi)
  {
    forall u ensures WrittenAt(cluster + [m], u) <==> WrittenAt(cluster, u) || m.timestamps.updatedAt == Some(u) {
      WrittenSnoc(cluster, m, u);
    }
    var at := m.timestamps.updatedAt;
    if at.Some? {
      assert WrittenAt(cluster + [m], at.value);
    }
  }

  method RangeOf(cluster: seq<StoredMemory>) returns (lo: int, hi: int)
    requires TimesFit(cluster)
    ensures IsSpan(cluster, lo, hi)
  {
    lo, hi := I64_MAX, I64_MIN;
    for i := 0 to |cluster|
      invariant SpanSoFar(cluster[..i], lo, hi)
    {
      SpanStep(cluster[..i], lo, hi, cluster[i]);
      assert cluster[..i + 1] == cluster[..i] + [cluster[i]];
      var at := cluster[i].timestamps.updatedAt;
      if at.Some? {
        lo := if at.value < lo then at.value else lo;
        hi := if at.value > hi then at.value else hi;
      }
    }
    assert cluster[..|cluster|] == cluster;
  }

  /** The distinct elements of `more` after those of `tags`. */
  method AddTags(tags: seq<string>, more: seq<string>) returns (r: seq<string>)
    ensures forall t :: t in r <==> t in tags || t in more
  {
    r := tags;
    for i := 0 to |more|
      invariant forall t :: t in r <==> t in tags || t in more[..i]
    {
      assert forall t :: t in more[..i + 1] <==> t in more[..i] || t == more[i];
      if more[i] !in r { r := r + [more[i]]; }
    }
    assert more[..|more|] == more;
  }

  method Summarize(cluster: seq<StoredMemory>) returns (s: ClusterSummary)
    requires TimesFit(cluster)
    ensures Summarizes(s, cluster) && s.updatedRange.Some?
  {
    var tags: seq<string>, hasUntagged := [], false;
    for i := 0 to |cluster|
      invariant forall t :: t in tags <==> CarriesTag(cluster[..i], t)
      invariant hasUntagged <==> exists m :: m in cluster[..i] && m.tags == []
    {
      ghost var init := cluster[..i];
      assert forall m :: m in cluster[..i + 1] <==> m in init || m == cluster[i];
      forall t ensures CarriesTag(cluster[..i + 1], t) <==> CarriesTag(init, t) || t in cluster[i].tags {
        if CarriesTag(init, t) {
          var m :| m in init && t in m.tags;
          assert m in cluster[..i + 1];
        }
        assert cluster[i] in cluster[..i + 1];
      }
      if cluster[i].tags == [] {
        hasUntagged := true;
      } else {
        tags := AddTags(tags, cluster[i].tags);
      }
    }
    assert cluster[..|cluster|] == cluster;
    var lo, hi := RangeOf(cluster);
    s := ClusterSummary(tags, hasUntagged, Some((lo, hi)));
  }

  // ---- Pruning is sound --------------------------------------------------------------------------------------

  /** No mode prunes the tags of a cluster with a passing member. */
  lemma TagPruningIsSound(s: ClusterSummary, cluster: seq<StoredMemory>, f: TagFilter, m: StoredMemory)
    requires Summarizes(s, cluster) && m in cluster && f.Matches(m.tags)
    ensures f.ClusterAdmits(s.tags, s.hasUntagged)
  {
    assert forall t :: t in m.tags ==> CarriesTag(cluster, t);
  }

  lemma WindowPruningIsSound(s: ClusterSummary, cluster: seq<StoredMemory>, w: UpdatedWindow, m: StoredMemory)
    requires Summarizes(s, cluster) && m in cluster && w.Admits(m.timestamps.updatedAt)
    ensures s.AdmitsWindow(w)
  {
    if !w.IsNoop() {
      assert WrittenAt(cluster, m.timestamps.updatedAt.value);
    }
  }

  /** Whether a summary keeps its cluster in the probe set. */
  predicate Admitted(s: ClusterSummary, f: TagFilter, w: UpdatedWindow) {
    (f.IsNoop() || f.ClusterAdmits(s.tags, s.hasUntagged)) && s.AdmitsWindow(w)
  }

  /** A cluster with a member that passes filter and window is never pruned. */
  lemma PruningIsSound(s: ClusterSummary, cluster: seq<StoredMemory>, f: TagFilter, w: UpdatedWindow, m: StoredMemory)
    requires Summarizes(s, cluster) && m in cluster
    requires f.Matches(m.tags) && w.Admits(m.timestamps.updatedAt)
    ensures Admitted(s, f, w)
  {
    TagPruningIsSound(s, cluster, f, m);
    WindowPruningIsSound(s, cluster, w, m);
  }

  /** A memory the summary allows: untagged only if it says so, tagged from its union. */
  ghost predicate Allowed(s: ClusterSummary, tags: seq<string>) {
    (tags == [] ==> s.hasUntagged) && forall t :: t in tags ==> t in s.tags
  }

  /** The summary test is the best there is: in every mode a non-empty cluster is admitted if and only if
      some memory that the summary allows would match. */
  lemma PruningIsOptimal(s: ClusterSummary, f: TagFilter)
    requires s.hasUntagged || s.tags != []
    ensures f.ClusterAdmits(s.tags, s.hasUntagged) <==> exists tags :: Allowed(s, tags) && f.Matches(tags)
  {
    if f.ClusterAdmits(s.tags, s.hasUntagged) {
      var tags := AllowedMatch(s, f);
    }
  }

  lemma AllowedMatch(s: ClusterSummary, f: TagFilter) returns (tags: seq<string>)
    requires (s.hasUntagged || s.tags != []) && f.ClusterAdmits(s.tags, s.hasUntagged)
    ensures Allowed(s, tags) && f.Matches(tags)
  {
    if f.tags == [] {
      tags := if s.hasUntagged then [] else [s.tags[0]];
    } else if s.hasUntagged && (f.mode.Any? || f.mode.All?) {
      tags := [];
    } else if f.mode.Any? || f.mode.AnyStrict? {
      var t :| t in f.tags && t in s.tags;
      tags := [t];
      assert t in tags;
    } else {
      tags := f.tags;
    }
  }

  /** For the overlap modes and the untagged scope the summary test is also exact. */
  lemma OverlapPruningIsExact(s: ClusterSummary, cluster: seq<StoredMemory>, f: TagFilter)
    requires Summarizes(s, cluster) && cluster != []
    requires f.tags == [] || f.mode.Any? || f.mode.AnyStrict?
    ensures f.ClusterAdmits(s.tags, s.hasUntagged) <==> exists m :: m in cluster && f.Matches(m.tags)
  {
    assert cluster[0] in cluster;
    if f.ClusterAdmits(s.tags, s.hasUntagged) {
      if f.tags == [] && !f.mode.Exact? {
        assert f.Matches(cluster[0].tags);
      } else if s.hasUntagged && !f.mode.AnyStrict? {
        var m :| m in cluster && m.tags == [];
        assert f.Matches(m.tags);
      } else {
        var t :| t in f.tags && t in s.tags;
        var m :| m in cluster && t in m.tags;
        assert f.Matches(m.tags);
      }
    }
    if exists m :: m in cluster && f.Matches(m.tags) {
      var m :| m in cluster && f.Matches(m.tags);
      TagPruningIsSound(s, cluster, f, m);
    }
  }

  /** A window with one bound is decided exactly by the span. */
  lemma OneSidedWindowIsExact(s: ClusterSummary, cluster: seq<StoredMemory>, w: UpdatedWindow)
    requires Summarizes(s, cluster) && s.updatedRange.Some?
    requires w.from.Some? <==> w.to.None?
    ensures s.AdmitsWindow(w) <==> exists m :: m in cluster && w.Admits(m.timestamps.updatedAt)
  {
    var (lo, hi) := s.updatedRange.value;
    if s.AdmitsWindow(w) {
      var u := if w.from.Some? then hi else lo;
      assert WrittenAt(cluster, u);
      var m :| m in cluster && m.timestamps.updatedAt == Some(u);
      assert w.Admits(m.timestamps.updatedAt);
    }
    if exists m :: m in cluster && w.Admits(m.timestamps.updatedAt) {
      var m :| m in cluster && w.Admits(m.timestamps.updatedAt);
      WindowPruningIsSound(s, cluster, w, m);
    }
  }

  // ---- Choosing the clusters to probe --------------------------------------------------------------------------

  /** Clusters of the distance-ordered `probe` that the summaries admit; one without a summary is kept. */
  function Admissible(probe: seq<nat>, summaries: seq<ClusterSummary>, f: TagFilter, w: UpdatedWindow): seq<nat> {
    if probe == [] then []
    else
      var c := probe[0];
      (if c >= |summaries| || Admitted(summaries[c], f, w) then [c] else [])
      + Admissible(probe[1..], summaries, f, w)
  }

  function Cap(nprobe: nat): nat {
    nprobe * 4
  }

  function SelectClusters(probe: seq<nat>, nprobe: nat, summaries: seq<ClusterSummary>, f: TagFilter, w: UpdatedWindow): seq<nat> {
    if (f.IsNoop() && w.IsNoop()) || summaries == [] then
      if nprobe < |probe| then probe[..nprobe] else probe
    else
      var all := Admissible(probe, summaries, f, w);
      if Cap(nprobe) < |all| then all[..Cap(nprobe)] else all
  }

  lemma {:induction false} AdmissibleFacts(probe: seq<nat>, summaries: seq<ClusterSummary>, f: TagFilter, w: UpdatedWindow, c: nat)
    ensures c in Admissible(probe, summaries, f, w) <==>
            c in probe && (c >= |summaries| || Admitted(summaries[c], f, w))
  {
    if probe != [] {
      AdmissibleFacts(probe[1..], summaries, f, w, c);
      assert c in probe <==> c == probe[0] || c in probe[1..];
    }
  }

  /** Unless the cap cuts it, a filtered probe reads every cluster that holds a passing member. */
  lemma FilteredProbeMissesNothing(probe: seq<nat>, nprobe: nat, summaries: seq<ClusterSummary>, clusters: seq<seq<StoredMemory>>,
                                   f: TagFilter, w: UpdatedWindow, c: nat, m: StoredMemory)
    requires |clusters| == |summaries| && forall i :: 0 <= i < |clusters| ==> Summarizes(summaries[i], clusters[i])
    requires !(f.IsNoop() && w.IsNoop())
    requires |Admissible(probe, summaries, f, w)| <= Cap(nprobe)
    requires c in probe && c < |clusters| && m in clusters[c]
    requires f.Matches(m.tags) && w.Admits(m.timestamps.updatedAt)
    ensures c in SelectClusters(probe, nprobe, summaries, f, w)
  {
    PruningIsSound(summaries[c], clusters[c], f, w, m);
    AdmissibleFacts(probe, summaries, f, w, c);
  }

  /** A cluster stays in a filtered probe unless its summary rules it out. */
  predicate Passing(c: nat, summaries: seq<ClusterSummary>, f: TagFilter, w: UpdatedWindow) {
    c >= |summaries| || Admitted(summaries[c], f, w)
  }

  ghost predicate DistinctNats(s: seq<nat>) {
    forall i, j :: 0 <= i < j < |s| ==> s[i] != s[j]
  }

  /** `r` lists some of `probe` in the order of `probe`. */
  ghost predicate InProbeOrder(r: seq<nat>, probe: seq<nat>) {
    forall a, b :: 0 <= a < b < |r| ==> Before(r[a], r[b], probe)
  }

  ghost predicate Before(c: nat, d: nat, probe: seq<nat>) {
    exists i, j :: 0 <= i < j < |probe| && probe[i] == c && probe[j] == d
  }

  lemma BeforeCons(c: nat, d: nat, probe: seq<nat>)
    requires probe != []
    ensures Before(c, d, probe[1..]) || (c == probe[0] && d in probe[1..]) ==> Before(c, d, probe)
  {
    if Before(c, d, probe[1..]) {
      var i, j :| 0 <= i < j < |probe[1..]| && probe[1..][i] == c && probe[1..][j] == d;
      assert probe[i + 1] == c && probe[j + 1] == d;
    } else if c == probe[0] && d in probe[1..] {
      var j :| 0 <= j < |probe[1..]| && probe[1..][j] == d;
      assert probe[0] == c && probe[j + 1] == d;
    }
  }

  lemma {:induction false} AdmissibleKeepsOrder(probe: seq<nat>, summaries: seq<ClusterSummary>, f: TagFilter, w: UpdatedWindow)
    ensures InProbeOrder(Admissible(probe, summaries, f, w), probe)
  {
    if probe != [] {
      AdmissibleKeepsOrder(probe[1..], summaries, f, w);
      var r, rest := Admissible(probe, summaries, f, w), Admissible(probe[1..], summaries, f, w);
      forall a, b | 0 <= a < b < |r| ensures Before(r[a], r[b], probe) {
        if Passing(probe[0], summaries, f, w) {
          assert r == [probe[0]] + rest;
          AdmissibleFacts(probe[1..], summaries, f, w, r[b]);
          assert r[b] == rest[b - 1];
          if a > 0 { assert Before(rest[a - 1], rest[b - 1], probe[1..]); }
        } else {
          assert r == rest;
        }
        BeforeCons(r[a], r[b], probe);
      }
    }
  }

  /** Without a filter the nearest `nprobe` clusters are probed, nearest first. */
  lemma PlainProbeIsNearest(probe: seq<nat>, nprobe: nat, summaries: seq<ClusterSummary>, f: TagFilter, w: UpdatedWindow)
    requires (f.IsNoop() && w.IsNoop()) || summaries == []
    ensures var r := SelectClusters(probe, nprobe, summaries, f, w);
            && |r| == (if nprobe < |probe| then nprobe else |probe|)
            && forall i :: 0 <= i < |r| ==> r[i] == probe[i]
  {
  }

  /** With one, as many admissible clusters as four times `nprobe` allows, in order of distance, and none of
      them farther than an admissible one left out. */
  lemma FilteredProbeIsNearest(probe: seq<nat>, nprobe: nat, summaries: seq<ClusterSummary>, f: TagFilter, w: UpdatedWindow)
    requires !(f.IsNoop() && w.IsNoop()) && summaries != [] && DistinctNats(probe)
    ensures var r := SelectClusters(probe, nprobe, summaries, f, w);
            && InProbeOrder(r, probe) && |r| <= 4 * nprobe
            && (forall c :: c in r ==> c in probe && Passing(c, summaries, f, w))
            && (forall c :: c in probe && Passing(c, summaries, f, w) && c !in r ==>
                  |r| == 4 * nprobe && forall d :: d in r ==> Before(d, c, probe))
  {
    var all, r := Admissible(probe, summaries, f, w), SelectClusters(probe, nprobe, summaries, f, w);
    AdmissibleKeepsOrder(probe, summaries, f, w);
    forall c ensures c in all <==> c in probe && Passing(c, summaries, f, w) {
      AdmissibleFacts(probe, summaries, f, w, c);
    }
    assert forall i :: 0 <= i < |r| ==> r[i] == all[i];
    forall c, d | c in all && c !in r && d in r ensures Before(d, c, probe) {
      var j :| 0 <= j < |all| && all[j] == c;
      var i :| 0 <= i < |r| && r[i] == d;
      assert forall k :: 0 <= k < |r| ==> all[k] in r;
    }
  }

  /** Either way no cluster is probed twice, and none that is not there. */
  lemma SelectedAreDistinct(probe: seq<nat>, nprobe: nat, summaries: seq<ClusterSummary>, f: TagFilter, w: UpdatedWindow)
    requires DistinctNats(probe)
    ensures DistinctNats(SelectClusters(probe, nprobe, summaries, f, w))
    ensures forall c :: c in SelectClusters(probe, nprobe, summaries, f, w) ==> c in probe
  {
    var r := SelectClusters(probe, nprobe, summaries, f, w);
    if !((f.IsNoop() && w.IsNoop()) || summaries == []) {
      FilteredProbeIsNearest(probe, nprobe, summaries, f, w);
      forall a, b | 0 <= a < b < |r| ensures r[a] != r[b] {
        assert Before(r[a], r[b], probe);
      }
    }
  }
}

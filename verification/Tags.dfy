/** Tag filters (crates/mlake-core/src/tags.rs): the flat five-mode filter, the cluster-level
    superset test used to prune clusters, and the boolean tag trees. */
module Tags {

  datatype TagsMatch = Any | All | AnyStrict | AllStrict | Exact

  /** The flat half of a tag filter. The compound `groups` half never prunes. */
  datatype TagFilter = TagFilter(tags: seq<string>, mode: TagsMatch) {

    predicate IsNoop() {
      tags == [] && !mode.Exact?
    }

    /** Whether a memory carrying `memoryTags` passes the filter. */
    predicate Matches(memoryTags: seq<string>) {
      if tags == [] then
        mode.Exact? ==> memoryTags == []
      else
        match mode
        case Any => memoryTags == [] || Overlaps(memoryTags, tags)
        case All => memoryTags == [] || ContainsAll(memoryTags, tags)
        case AnyStrict => memoryTags != [] && Overlaps(memoryTags, tags)
        case AllStrict => memoryTags != [] && ContainsAll(memoryTags, tags)
        case Exact => memoryTags != [] && SetEq(memoryTags, tags)
    }

    /** Leaf form used inside a tag tree: an empty request is a literal set condition here. */
    predicate LeafMatches(memoryTags: seq<string>) {
      if mode.Exact? && tags == [] then
        memoryTags == []
      else
        match mode
        case Any => memoryTags == [] || Overlaps(memoryTags, tags)
        case All => memoryTags == [] || ContainsAll(memoryTags, tags)
        case AnyStrict => memoryTags != [] && Overlaps(memoryTags, tags)
        case AllStrict => memoryTags != [] && ContainsAll(memoryTags, tags)
        case Exact => memoryTags != [] && SetEq(memoryTags, tags)
    }

    /** Whether a cluster with this tag union could hold a passing memory. */
    predicate ClusterAdmits(clusterTags: seq<string>, hasUntagged: bool) {
      if tags == [] then
        mode.Exact? ==> hasUntagged
      else
        match mode
        case Any => hasUntagged || Overlaps(clusterTags, tags)
        case All => hasUntagged || ContainsAll(clusterTags, tags)
        case AnyStrict => Overlaps(clusterTags, tags)
        case AllStrict => ContainsAll(clusterTags, tags)
        case Exact => ContainsAll(clusterTags, tags)
    }
  }

  predicate Overlaps(memoryTags: seq<string>, req: seq<string>) {
    exists t :: t in req && t in memoryTags
  }

  predicate ContainsAll(memoryTags: seq<string>, req: seq<string>) {
    forall t :: t in req ==> t in memoryTags
  }

  predicate SetEq(memoryTags: seq<string>, req: seq<string>) {
    ContainsAll(memoryTags, req) && ContainsAll(req, memoryTags)
  }

  /** A boolean tree over a memory's tags. */
  datatype TagPredicate =
    | Leaf(filter: TagFilter)
    | AllOf(children: seq<TagPredicate>)
    | AnyOf(children: seq<TagPredicate>)
    | Not(child: TagPredicate)
  {
    predicate Matches(memoryTags: seq<string>) {
      match this
      case Leaf(f) => f.LeafMatches(memoryTags)
      case AllOf(cs) => forall c <- cs :: c.Matches(memoryTags)
      case AnyOf(cs) => exists c <- cs :: c.Matches(memoryTags)
      case Not(c) => !c.Matches(memoryTags)
    }
  }

  // ---- What the modes mean --------------------------------------------------------------------------

  function TagSet(tags: seq<string>): set<string> {
    set t | t in tags
  }

  lemma TagSetEmpty(tags: seq<string>)
    ensures TagSet(tags) == {} <==> tags == []
  {
    if tags != [] { assert tags[0] in TagSet(tags); }
  }

  /** Each mode as a relation between the memory's tag set and the requested one. */
  ghost predicate Relates(mode: TagsMatch, carried: set<string>, asked: set<string>) {
    match mode
    case Any => carried == {} || !(carried !! asked)
    case All => carried == {} || asked <= carried
    case AnyStrict => !(carried !! asked)
    case AllStrict => asked <= carried && carried != {}
    case Exact => carried == asked
  }

  /** A filter with tags relates the sets; without, it lets everything pass, except for the untagged
      scope, which lets the untagged pass. */
  lemma FilterRelatesSets(f: TagFilter, memoryTags: seq<string>)
    ensures f.tags != [] ==> (f.Matches(memoryTags) <==> Relates(f.mode, TagSet(memoryTags), TagSet(f.tags)))
    ensures f.tags == [] && !f.mode.Exact? ==> f.Matches(memoryTags)
    ensures f.tags == [] && f.mode.Exact? ==> (f.Matches(memoryTags) <==> TagSet(memoryTags) == {})
  {
    SetsRelate(f, memoryTags);
  }

  /** A leaf relates the sets as they are, also when nothing is asked. */
  lemma LeafRelatesSets(f: TagFilter, memoryTags: seq<string>)
    ensures f.LeafMatches(memoryTags) <==> Relates(f.mode, TagSet(memoryTags), TagSet(f.tags))
  {
    SetsRelate(f, memoryTags);
  }

  lemma SetsRelate(f: TagFilter, memoryTags: seq<string>)
    ensures TagSet(memoryTags) == {} <==> memoryTags == []
    ensures TagSet(f.tags) == {} <==> f.tags == []
    ensures Overlaps(memoryTags, f.tags) <==> !(TagSet(memoryTags) !! TagSet(f.tags))
    ensures ContainsAll(memoryTags, f.tags) <==> TagSet(f.tags) <= TagSet(memoryTags)
    ensures SetEq(memoryTags, f.tags) <==> TagSet(memoryTags) == TagSet(f.tags)
  {
    TagSetEmpty(memoryTags);
    TagSetEmpty(f.tags);
    var carried, asked := TagSet(memoryTags), TagSet(f.tags);
    assert forall t :: t in memoryTags <==> t in carried;
    assert forall t :: t in f.tags <==> t in asked;
    if Overlaps(memoryTags, f.tags) {
      var t :| t in f.tags && t in memoryTags;
      assert t in carried && t in asked;
    }
    if !(carried !! asked) {
      var t :| t in carried && t in asked;
      assert t in memoryTags && t in f.tags;
    }
  }

  /** A tree is the boolean formula it spells: over any tags, a conjunction holds when all children do, a
      disjunction when some child does, a negation when its child does not. */
  lemma TreeIsFormula(p: TagPredicate, memoryTags: seq<string>)
    ensures p.AllOf? ==> (p.Matches(memoryTags) <==> forall i :: 0 <= i < |p.children| ==> p.children[i].Matches(memoryTags))
    ensures p.AnyOf? ==> (p.Matches(memoryTags) <==> exists i :: 0 <= i < |p.children| && p.children[i].Matches(memoryTags))
    ensures p.Not? ==> (p.Matches(memoryTags) <==> !p.child.Matches(memoryTags))
    ensures p.Leaf? ==> (p.Matches(memoryTags) <==> Relates(p.filter.mode, TagSet(memoryTags), TagSet(p.filter.tags)))
  {
    if p.Leaf? { LeafRelatesSets(p.filter, memoryTags); }
    if p.AnyOf? && exists i :: 0 <= i < |p.children| && p.children[i].Matches(memoryTags) {
      var i :| 0 <= i < |p.children| && p.children[i].Matches(memoryTags);
      assert p.children[i] in p.children;
    }
  }

  function Negated(cs: seq<TagPredicate>): (r: seq<TagPredicate>)
    ensures |r| == |cs| && forall i :: 0 <= i < |cs| ==> r[i] == Not(cs[i])
  {
    seq(|cs|, i requires 0 <= i < |cs| => Not(cs[i]))
  }

  /** De Morgan: negating a conjunction is the disjunction of the negations. */
  lemma NotAllIsAnyNot(cs: seq<TagPredicate>, memoryTags: seq<string>)
    ensures Not(AllOf(cs)).Matches(memoryTags) <==> AnyOf(Negated(cs)).Matches(memoryTags)
  {
    TreeIsFormula(AllOf(cs), memoryTags);
    TreeIsFormula(Not(AllOf(cs)), memoryTags);
    TreeIsFormula(AnyOf(Negated(cs)), memoryTags);
    forall i | 0 <= i < |cs| ensures Negated(cs)[i].Matches(memoryTags) <==> !cs[i].Matches(memoryTags) {
      TreeIsFormula(Not(cs[i]), memoryTags);
    }
    if Not(AllOf(cs)).Matches(memoryTags) {
      var i :| 0 <= i < |cs| && !cs[i].Matches(memoryTags);
      assert Negated(cs)[i].Matches(memoryTags);
    }
  }

  /** Order and repetition of a memory's tags never matter, however deep the tree. */
  lemma {:induction false} TreeReadsTheSet(p: TagPredicate, a: seq<string>, b: seq<string>)
    requires TagSet(a) == TagSet(b)
    ensures p.Matches(a) <==> p.Matches(b)
    decreases p
  {
    TreeIsFormula(p, a);
    TreeIsFormula(p, b);
    match p
    case Leaf(_) =>
    case Not(c) => TreeReadsTheSet(c, a, b);
    case AllOf(cs) => forall i | 0 <= i < |cs| ensures cs[i].Matches(a) <==> cs[i].Matches(b) { TreeReadsTheSet(cs[i], a, b); }
    case AnyOf(cs) => forall i | 0 <= i < |cs| ensures cs[i].Matches(a) <==> cs[i].Matches(b) { TreeReadsTheSet(cs[i], a, b); }
  }
}

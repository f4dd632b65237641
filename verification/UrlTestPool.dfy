/** The pool of a URL-test outbound: how it is filled, and what a start and a callback make of it. */
module UrlTestPool {
  import opened Nodes
  import opened GroupPool
  import opened UrlTest

  datatype UrlTestConfig = UrlTestConfig(
    deps: seq<string>,
    providerTags: seq<string>,
    filter: NodeFilter,
    group: GroupConfig)

  datatype UrlTestState = UrlTestState(tags: seq<string>, cache: Lists, group: GroupState)

  datatype Filtering = MissingOutbound | NilDereference | Nodes(tags: seq<string>, outbounds: seq<Outbound>)

  function StaticList(resolve: string -> Option<Outbound>, deps: seq<string>): (r: seq<Outbound>)
    requires StaticsResolve(resolve, deps)
    ensures |r| == |deps| && forall i :: 0 <= i < |deps| ==> resolve(deps[i]) == Some(r[i])
  {
    seq(|deps|, i requires 0 <= i < |deps| => resolve(deps[i]).value)
  }

  /** The static outbounds, then the nodes; an empty pool falls back to "Compatible", which is used without
      checking that it resolved. */
  function PoolNodes(resolve: string -> Option<Outbound>, deps: seq<string>, nodes: seq<Outbound>): Filtering {
    if !StaticsResolve(resolve, deps) then MissingOutbound
    else if deps + Tags(nodes) != [] then Nodes(deps + Tags(nodes), StaticList(resolve, deps) + nodes)
    else if resolve(COMPATIBLE_TAG).None? then NilDereference
    else Nodes([resolve(COMPATIBLE_TAG).value.tag], [resolve(COMPATIBLE_TAG).value])
  }

  function FilterPool(c: UrlTestConfig, cache: Lists, around: Surroundings, updated: string): (Filtering, Lists) {
    if !StaticsResolve(around.resolve, c.deps) then (MissingOutbound, cache)
    else
      var (nodes, cache') := Gather(c.filter, c.providerTags, cache, around.contents, updated);
      (PoolNodes(around.resolve, c.deps, nodes), cache')
  }

  datatype Started = StartError | StartCrash | Running(s: UrlTestState)

  function UrlTestStartState(c: UrlTestConfig, around: Surroundings, history: Histories): Started {
    if |c.deps| + |c.providerTags| == 0 then StartError
    else if exists i :: 0 <= i < |c.providerTags| && c.providerTags[i] !in around.contents then StartError
    else
      var (r, cache) := FilterPool(c, map[], around, "");
      match r
      case MissingOutbound => StartError
      case NilDereference => StartCrash
      case Nodes(tags, outbounds) =>
        if c.group.interval > c.group.idleTimeout then StartError
        else Running(UrlTestState(tags, cache, GroupState(outbounds, history, None, None, false, [])))
  }

  /** A provider's callback, and whether it crashes: refilter, hand the pool to the group and check it. A filtering
      that misses a static outbound empties the pool. */
  function CallbackState(c: UrlTestConfig, s: UrlTestState, around: Surroundings, updated: string,
                         probe: Probe)
    : (UrlTestState, bool)
  {
    if updated !in c.providerTags then (s, false)
    else
      var (r, cache) := FilterPool(c, s.cache, around, updated);
      if r.NilDereference? then (s.(cache := cache), true)
      else
        var tags, outbounds := if r.Nodes? then r.tags else [], if r.Nodes? then r.outbounds else [];
        var group := CheckState(c.group, s.group.(outbounds := outbounds), false, t => around.resolve(t).Some?, probe);
        (UrlTestState(tags, cache, group), false)
  }

  /** What a group with these static tags and nodes shows: the static tags with the objects they resolve to, then
      the nodes; for want of either, the "Compatible" outbound. */
  ghost predicate ShowsPool(resolve: string -> Option<Outbound>, deps: seq<string>, nodes: seq<Outbound>,
                            tags: seq<string>, outbounds: seq<Outbound>)
  {
    if deps == [] && nodes == [] then
      resolve(COMPATIBLE_TAG).Some? && outbounds == [resolve(COMPATIBLE_TAG).value] && tags == [outbounds[0].tag]
    else
      && tags == deps + Tags(nodes) && |outbounds| == |deps| + |nodes|
      && (forall i :: 0 <= i < |deps| ==> resolve(deps[i]) == Some(outbounds[i]))
      && outbounds[|deps|..] == nodes
  }

  /** The three outcomes of a filtering, exactly. */
  lemma PoolOutcomes(resolve: string -> Option<Outbound>, deps: seq<string>, nodes: seq<Outbound>)
    ensures var r := PoolNodes(resolve, deps, nodes);
      && (r.MissingOutbound? <==> !StaticsResolve(resolve, deps))
      && (r.NilDereference? <==> deps == [] && nodes == [] && resolve(COMPATIBLE_TAG).None?)
      && (r.Nodes? ==> ShowsPool(resolve, deps, nodes, r.tags, r.outbounds))
  {
    var r := PoolNodes(resolve, deps, nodes);
    assert deps + Tags(nodes) == [] <==> deps == [] && nodes == [] by {
      assert |deps + Tags(nodes)| == |deps| + |nodes|;
    }
    if r.Nodes? && deps + Tags(nodes) != [] {
      assert r.outbounds[|deps|..] == nodes;
    }
  }

  /** What a callback of an own provider does to cache and pool when the static outbounds resolve. */
  lemma CallbackRefills(c: UrlTestConfig, s: UrlTestState, around: Surroundings, p: string, probe: Probe)
    requires p in c.providerTags && StaticsResolve(around.resolve, c.deps)
    requires forall q :: q in c.providerTags ==> q in around.contents
    ensures var (s', crashed) := CallbackState(c, s, around, p, probe);
      && (forall q :: q in c.providerTags ==>
            Get(s'.cache, q) == Contribution(c.filter, s.cache, around.contents, p, q))
      && (crashed <==> c.deps == [] && Flatten(c.providerTags, s'.cache) == [] && around.resolve(COMPATIBLE_TAG).None?)
      && (!crashed ==>
            ShowsPool(around.resolve, c.deps, Flatten(c.providerTags, s'.cache), s'.tags, s'.group.outbounds))
  {
    GatherClosedForm(c.filter, c.providerTags, s.cache, around.contents, p);
    PoolOutcomes(around.resolve, c.deps, Gather(c.filter, c.providerTags, s.cache, around.contents, p).0);
  }
}

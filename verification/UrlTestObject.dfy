/** The URL-test outbound and its group as the objects the program holds. */
module UrlTestObject {
  import opened Nodes
  import opened Interrupt
  import opened GroupPool
  import opened UrlTest
  import opened UrlTestPool

  class UrlTestGroup {
    const c: GroupConfig
    const interruptGroup: Group
    var outbounds: seq<Outbound>
    var history: Histories
    var selectedOutboundTCP: Option<Outbound>
    var selectedOutboundUDP: Option<Outbound>
    var checking: bool

    ghost function View(): GroupState
      reads this, interruptGroup
    {
      GroupState(outbounds, history, selectedOutboundTCP, selectedOutboundUDP, checking, interruptGroup.connections)
    }

    constructor (facts: Facts, tolerance: uint16, interval: nat, idleTimeout: nat, interruptExternal: bool,
                 history: Histories)
      ensures var actual := if tolerance == 0 then 50 else tolerance;
        c == GroupConfig(facts, actual, interval, idleTimeout, interruptExternal)
      ensures fresh(interruptGroup) && interruptGroup.Valid()
      ensures View() == GroupState([], history, None, None, false, [])
    {
      c := GroupConfig(facts, if tolerance == 0 then 50 else tolerance, interval, idleTimeout, interruptExternal);
      outbounds, this.history := [], history;
      selectedOutboundTCP, selectedOutboundUDP, checking := None, None, false;
      interruptGroup := new Group();
    }

    method Select(net: Network) returns (outbound: Option<Outbound>, known: bool)
      ensures var selected := if net.TCP? then selectedOutboundTCP else selectedOutboundUDP;
        (outbound, known) == SelectOf(c.facts, history, c.tolerance, net, selected, outbounds)
    {
      var minDelay: uint16, minOutbound: Option<Outbound> := 0, None;
      var selected := if net.TCP? then selectedOutboundTCP else selectedOutboundUDP;
      if selected.Some? && c.facts.realTag(selected.value) in history {
        minOutbound := selected;
        minDelay := history[c.facts.realTag(selected.value)].delay;
      }
      minDelay, minOutbound := PickFastest(net, minDelay, minOutbound);
      if minOutbound.Some? {
        return minOutbound, true;
      }
      outbound := FindSupporting(net);
      known := false;
    }

    method FindSupporting(net: Network) returns (outbound: Option<Outbound>)
      ensures outbound == FirstSupporting(c.facts, net, outbounds)
    {
      for i := 0 to |outbounds|
        invariant FirstSupporting(c.facts, net, outbounds) == FirstSupporting(c.facts, net, outbounds[i..])
      {
        if c.facts.supports(outbounds[i], net) {
          return Some(outbounds[i]);
        }
      }
      outbound := None;
    }

    /** The least delay by the c.tolerance rule, from the given start. */
    method PickFastest(net: Network, startDelay: uint16, startOutbound: Option<Outbound>)
      returns (minDelay: uint16, minOutbound: Option<Outbound>)
      ensures (minDelay, minOutbound) ==
        Pick(c.facts, history, c.tolerance, net, (startDelay, startOutbound), outbounds)
    {
      minDelay, minOutbound := startDelay, startOutbound;
      for i := 0 to |outbounds|
        invariant (minDelay, minOutbound) ==
          Pick(c.facts, history, c.tolerance, net, (startDelay, startOutbound), outbounds[..i])
      {
        var detour := outbounds[i];
        assert outbounds[..i + 1][..i] == outbounds[..i];
        if !c.facts.supports(detour, net) {
          continue;
        }
        if c.facts.realTag(detour) !in history {
          continue;
        }
        var delay := history[c.facts.realTag(detour)].delay;
        if minDelay == 0 || minDelay > (delay + c.tolerance) % WORD {
          minDelay := delay;
          minOutbound := Some(detour);
        }
      }
      assert outbounds[..|outbounds|] == outbounds;
    }

    /** One network is selected anew. A selection that is not known to be better only fills an empty place. */
    method Reselect(net: Network) returns (replaced: bool)
      modifies `selectedOutboundTCP, `selectedOutboundUDP
      ensures net.TCP? ==> selectedOutboundUDP == old(selectedOutboundUDP) &&
                           (selectedOutboundTCP, replaced) ==
                             Updated(c.facts, history, c.tolerance, TCP, old(selectedOutboundTCP), outbounds)
      ensures net.UDP? ==> selectedOutboundTCP == old(selectedOutboundTCP) &&
                           (selectedOutboundUDP, replaced) ==
                             Updated(c.facts, history, c.tolerance, UDP, old(selectedOutboundUDP), outbounds)
    {
      var selected := if net.TCP? then selectedOutboundTCP else selectedOutboundUDP;
      var outbound, exists_ := Select(net);
      replaced := false;
      if outbound.Some? && (selected.None? || (exists_ && outbound != selected)) {
        if selected.Some? {
          replaced := true;
        }
        if net.TCP? {
          selectedOutboundTCP := outbound;
        } else {
          selectedOutboundUDP := outbound;
        }
      }
    }

    /** Both networks are selected anew; the tracked connections are interrupted once if either replaced an
        earlier selection. */
    method PerformUpdateCheck()
      requires interruptGroup.Valid()
      modifies `selectedOutboundTCP, `selectedOutboundUDP, interruptGroup
      ensures interruptGroup.Valid() && View() == UpdateState(c, old(View()))
    {
      var tcpReplaced := Reselect(TCP);
      var udpReplaced := Reselect(UDP);
      if tcpReplaced || udpReplaced {
        interruptGroup.Interrupt(c.interruptExternal);
      }
    }

    /** One check: probe what is due, each history tag once, then update the selection unless cancelled. */
    method CheckOutbounds(force: bool, resolves: string -> bool, probe: Probe) returns (ran: bool)
      requires interruptGroup.Valid()
      modifies this, interruptGroup
      ensures interruptGroup.Valid() && View() == CheckState(c, old(View()), force, resolves, probe)
      ensures ran <==> !old(checking)
    {
      if checking {
        return false;
      }
      checking := true;
      var tags := CollectDue(force, probe.now, resolves);
      history := Probed(history, tags, probe.now, probe.measure);
      if !probe.cancelled {
        PerformUpdateCheck();
      }
      checking := false;
      ran := true;
    }

    /** The tags to probe; `checked` keeps a second outbound of the same history from being considered again. */
    method CollectDue(force: bool, now: nat, resolves: string -> bool) returns (tags: set<string>)
      ensures tags == ProbedTags(c.facts, history, force, now, c.interval, resolves, outbounds)
    {
      var checked: set<string> := {};
      tags := {};
      for i := 0 to |outbounds|
        invariant tags == ProbedTags(c.facts, history, force, now, c.interval, resolves, outbounds[..i])
        invariant forall t :: t in checked ==> Due(history, force, now, c.interval, t) && (resolves(t) ==> t in tags)
      {
        var realTag := c.facts.realTag(outbounds[i]);
        assert outbounds[..i + 1] == outbounds[..i] + [outbounds[i]];
        assert forall o :: o in outbounds[..i + 1] <==> o in outbounds[..i] || o == outbounds[i];
        if realTag in checked {
          continue;
        }
        if !force && realTag in history && now - history[realTag].time < c.interval {
          continue;
        }
        checked := checked + {realTag};
        if !resolves(realTag) {
          continue;
        }
        tags := tags + {realTag};
      }
      assert outbounds[..|outbounds|] == outbounds;
    }
  }

  class UrlTestOutbound {
    const c: UrlTestConfig
    const group: UrlTestGroup
    var tags: seq<string>
    var outboundsCache: Lists

    ghost function View(): UrlTestState
      reads this, group, group.interruptGroup
    {
      UrlTestState(tags, outboundsCache, group.View())
    }

    constructor (deps: seq<string>, providerTags: seq<string>, filter: NodeFilter, group: UrlTestGroup)
      ensures c == UrlTestConfig(deps, providerTags, filter, group.c) && this.group == group
      ensures tags == deps && outboundsCache == map[]
    {
      c := UrlTestConfig(deps, providerTags, filter, group.c);
      this.group := group;
      tags, outboundsCache := deps, map[];
    }

    method FilterNodes(nodes: seq<Outbound>) returns (kept: seq<Outbound>, keptTags: seq<string>)
      ensures kept == Filtered(c.filter, nodes) && keptTags == Tags(kept)
    {
      kept, keptTags := [], [];
      for i := 0 to |nodes|
        invariant kept == Filtered(c.filter, nodes[..i]) && keptTags == Tags(kept)
      {
        var tag := nodes[i].tag;
        assert nodes[..i + 1] == nodes[..i] + [nodes[i]];
        FilteredAppend(c.filter, nodes[..i], nodes[i]);
        if c.filter.excluding.Some? && c.filter.excluding.value(tag) {
          continue;
        }
        if c.filter.including.Some? && !c.filter.including.value(tag) {
          continue;
        }
        keptTags := keptTags + [tag];
        kept := kept + [nodes[i]];
      }
      assert nodes[..|nodes|] == nodes;
    }

    /** The provider loop, through the cache, exactly as the selector's. */
    method GatherProviders(contents: Lists, updated: string) returns (nodes: seq<Outbound>, nodeTags: seq<string>)
      requires forall p :: p in c.providerTags ==> p in contents
      modifies `outboundsCache
      ensures (nodes, outboundsCache) == Gather(c.filter, c.providerTags, old(outboundsCache), contents, updated)
      ensures nodeTags == Tags(nodes)
    {
      nodes, nodeTags := [], [];
      for i := 0 to |c.providerTags|
        invariant (nodes, outboundsCache) ==
          Gather(c.filter, c.providerTags[..i], old(outboundsCache), contents, updated)
        invariant nodeTags == Tags(nodes)
      {
        var p := c.providerTags[i];
        assert c.providerTags[..i + 1][..i] == c.providerTags[..i];
        if p != updated && p in outboundsCache && outboundsCache[p] != [] {
          TagsConcat(nodes, outboundsCache[p]);
          nodeTags := nodeTags + Tags(outboundsCache[p]);
          nodes := nodes + outboundsCache[p];
          continue;
        }
        var kept, keptTags := FilterNodes(contents[p]);
        TagsConcat(nodes, kept);
        nodeTags := nodeTags + keptTags;
        nodes := nodes + kept;
        outboundsCache := outboundsCache[p := kept];
      }
      assert c.providerTags[..|c.providerTags|] == c.providerTags;
    }

    /** A missing static outbound gives up before the cache is touched. */
    method FilterOutbounds(around: Surroundings, updated: string) returns (r: Filtering)
      requires forall p :: p in c.providerTags ==> p in around.contents
      modifies `outboundsCache
      ensures (r, outboundsCache) == FilterPool(c, old(outboundsCache), around, updated)
    {
      var statics := ResolveStatics(around.resolve);
      if statics.None? {
        return MissingOutbound;
      }
      var nodes, nodeTags := GatherProviders(around.contents, updated);
      var allTags := c.deps + nodeTags;
      if |allTags| == 0 {
        var detour := around.resolve(COMPATIBLE_TAG);
        if detour.None? {
          return NilDereference;
        }
        return Nodes([detour.value.tag], [detour.value]);
      }
      r := Nodes(allTags, statics.value + nodes);
    }

    method ResolveStatics(resolve: string -> Option<Outbound>) returns (statics: Option<seq<Outbound>>)
      ensures statics.None? <==> !StaticsResolve(resolve, c.deps)
      ensures statics.Some? ==> StaticsResolve(resolve, c.deps) && statics.value == StaticList(resolve, c.deps)
    {
      var found: seq<Outbound> := [];
      for i := 0 to |c.deps|
        invariant |found| == i && forall j :: 0 <= j < i ==> resolve(c.deps[j]) == Some(found[j])
      {
        var detour := resolve(c.deps[i]);
        if detour.None? {
          return None;
        }
        found := found + [detour.value];
      }
      assert StaticsResolve(resolve, c.deps) && found == StaticList(resolve, c.deps);
      statics := Some(found);
    }

    /** A start: the providers must be known, the filtering must succeed, and the intervals must fit. */
    method Start(around: Surroundings) returns (ok: bool, crashed: bool)
      requires outboundsCache == map[] && c.group == group.c
      requires group.View() == GroupState([], group.history, None, None, false, [])
      modifies this, group
      ensures crashed <==> UrlTestStartState(c, around, old(group.history)).StartCrash?
      ensures ok <==> UrlTestStartState(c, around, old(group.history)).Running?
      ensures ok ==> View() == UrlTestStartState(c, around, old(group.history)).s
    {
      ok, crashed := false, false;
      for i := 0 to |c.providerTags|
        invariant forall j :: 0 <= j < i ==> c.providerTags[j] in around.contents
      {
        if c.providerTags[i] !in around.contents {
          return;
        }
      }
      if |c.deps| + |c.providerTags| == 0 {
        return;
      }
      var r := FilterOutbounds(around, "");
      match r {
        case NilDereference => return false, true;
        case MissingOutbound => return;
        case Nodes(t, o) =>
          tags := t;
          if group.c.interval > group.c.idleTimeout {
            return;
          }
          group.outbounds := o;
      }
      ok := true;
    }

    /** A provider's callback: refilter, hand the pool to the group and check it. Even a filtering that found a
        static outbound missing empties the pool; an unresolved fallback crashes. */
    method OnProviderUpdated(around: Surroundings, updated: string, probe: Probe) returns (ok: bool, crashed: bool)
      requires forall p :: p in c.providerTags ==> p in around.contents
      requires group.interruptGroup.Valid() && c.group == group.c
      modifies this, group, group.interruptGroup
      ensures group.interruptGroup.Valid()
      ensures (View(), crashed) == CallbackState(c, old(View()), around, updated, probe)
      ensures ok <==> updated in c.providerTags && !crashed
    {
      if updated !in c.providerTags {
        return false, false;
      }
      var r := FilterOutbounds(around, updated);
      match r {
        case NilDereference => return false, true;
        case MissingOutbound => tags, group.outbounds := [], [];
        case Nodes(t, o) => tags, group.outbounds := t, o;
      }
      var _ := group.CheckOutbounds(false, t => around.resolve(t).Some?, probe);
      return true, false;
    }
  }
}

/** The selector as the object the program holds. */
module SelectorObject {
  import opened Nodes
  import opened Interrupt
  import opened GroupPool
  import opened Selector

  class SelectorGroup {
    const c: SelectorConfig
    const interruptGroup: Group
    var tags: seq<string>
    var outbounds: map<string, Outbound>
    var outboundsCache: Lists
    var selected: Option<Outbound>
    var stored: string

    ghost function View(): SelectorState
      reads this, interruptGroup
    {
      SelectorState(tags, outbounds, outboundsCache, selected, stored, interruptGroup.connections,
        interruptGroup.nextHandle)
    }

    constructor (c: SelectorConfig, stored: string)
      ensures this.c == c && this.stored == stored && outboundsCache == map[] && outbounds == map[] && tags == c.deps
      ensures selected == None
      ensures fresh(interruptGroup) && interruptGroup.Valid() && interruptGroup.connections == []
      ensures interruptGroup.nextHandle == 0
    {
      this.c := c;
      this.stored := stored;
      tags, outbounds, outboundsCache, selected := c.deps, map[], map[], None;
      interruptGroup := new Group();
    }

    method FilterNodes(nodes: seq<Outbound>) returns (r: seq<Outbound>)
      ensures r == Filtered(c.filter, nodes)
    {
      r := [];
      for i := 0 to |nodes|
        invariant r == Filtered(c.filter, nodes[..i])
      {
        var tag := nodes[i].tag;
        assert nodes[..i + 1] == nodes[..i] + [nodes[i]];
        FilteredAppend(c.filter, nodes[..i], nodes[i]);
        if c.filter.excluding.Some? && c.filter.excluding.value(tag) {
          continue;
        }
        if c.filter.including.Some? && !c.filter.including.value(tag) {
          continue;
        }
        r := r + [nodes[i]];
      }
      assert nodes[..|nodes|] == nodes;
    }

    /** The provider loop, through the cache. */
    method GatherProviders(contents: Lists, updated: string) returns (nodes: seq<Outbound>)
      modifies `outboundsCache
      ensures (nodes, outboundsCache) == Gather(c.filter, c.providerTags, old(outboundsCache), contents, updated)
    {
      nodes := [];
      for i := 0 to |c.providerTags|
        invariant (nodes, outboundsCache) ==
          Gather(c.filter, c.providerTags[..i], old(outboundsCache), contents, updated)
      {
        var p := c.providerTags[i];
        assert c.providerTags[..i + 1][..i] == c.providerTags[..i];
        if p != updated && p in outboundsCache && outboundsCache[p] != [] {
          nodes := nodes + outboundsCache[p];
          continue;
        }
        if p !in contents {
          assert nodes + [] == nodes;
          continue;
        }
        var kept := FilterNodes(contents[p]);
        nodes := nodes + kept;
        outboundsCache := outboundsCache[p := kept];
      }
      assert c.providerTags[..|c.providerTags|] == c.providerTags;
    }

    /** The static part of the pool; nothing if one of the outbounds or the default is missing. */
    method ResolveStatics(resolve: string -> Option<Outbound>) returns (statics: Option<map<string, Outbound>>)
      ensures statics.None? <==> FilterFails(c, resolve)
      ensures statics.Some? ==> StaticsResolve(resolve, c.deps) && statics.value == StaticMap(resolve, c.deps)
    {
      var byTag: map<string, Outbound> := map[];
      for i := 0 to |c.deps|
        invariant StaticsResolve(resolve, c.deps[..i])
        invariant byTag == StaticMap(resolve, c.deps[..i])
      {
        var detour := resolve(c.deps[i]);
        if detour.None? {
          return None;
        }
        assert forall t :: t in c.deps[..i + 1] <==> t in c.deps[..i] || t == c.deps[i];
        byTag := byTag[c.deps[i] := detour.value];
      }
      assert c.deps[..|c.deps|] == c.deps;
      if c.defaultTag != "" && c.defaultTag !in byTag {
        return None;
      }
      statics := Some(byTag);
    }

    method LayOver(statics: map<string, Outbound>, nodes: seq<Outbound>)
      returns (tags: seq<string>, byTag: map<string, Outbound>)
      ensures tags == c.deps + Tags(nodes) && byTag == Overlay(statics, nodes)
    {
      tags, byTag := c.deps, statics;
      for i := 0 to |nodes|
        invariant tags == c.deps + Tags(nodes[..i])
        invariant byTag == Overlay(statics, nodes[..i])
      {
        assert nodes[..i + 1] == nodes[..i] + [nodes[i]];
        OverlayAppend(statics, nodes[..i], nodes[i]);
        assert Tags(nodes[..i + 1]) == Tags(nodes[..i]) + [nodes[i].tag];
        tags := tags + [nodes[i].tag];
        byTag := byTag[nodes[i].tag := nodes[i]];
      }
      assert nodes[..|nodes|] == nodes;
    }

    method FilterOutbounds(around: Surroundings, updated: string) returns (pool: Pool)
      modifies `outboundsCache
      ensures (pool, outboundsCache) == FilterPool(c, old(outboundsCache), around, updated)
    {
      var statics := ResolveStatics(around.resolve);
      if statics.None? {
        return Failed;
      }
      var nodes := GatherProviders(around.contents, updated);
      var tags, byTag := LayOver(statics.value, nodes);
      if |tags| == 0 {
        var detour := around.resolve(COMPATIBLE_TAG);
        if detour.Some? {
          return Filled([detour.value.tag], map[detour.value.tag := detour.value]);
        }
      }
      pool := Filled(tags, byTag);
    }

    method OutboundSelect() returns (detour: Option<Outbound>)
      ensures detour == Choose(c, stored, tags, outbounds)
    {
      if c.tag != "" && c.hasCacheFile && stored != "" && stored in outbounds {
        return Some(outbounds[stored]);
      }
      if c.defaultTag != "" {
        return if c.defaultTag in outbounds then Some(outbounds[c.defaultTag]) else None;
      }
      if |tags| == 0 {
        return None;
      }
      detour := if tags[0] in outbounds then Some(outbounds[tags[0]]) else None;
    }

    method Start(around: Surroundings) returns (ok: bool)
      requires outboundsCache == map[] && interruptGroup.connections == [] && interruptGroup.nextHandle == 0
      modifies this
      ensures ok <==> SelectorStartState(c, around, old(stored)).Some?
      ensures ok ==> View() == SelectorStartState(c, around, old(stored)).value
    {
      for i := 0 to |c.providerTags|
        invariant forall j :: 0 <= j < i ==> c.providerTags[j] in around.contents
      {
        if c.providerTags[i] !in around.contents {
          return false;
        }
      }
      if |c.deps| + |c.providerTags| == 0 {
        return false;
      }
      var pool := FilterOutbounds(around, "");
      if pool.Failed? {
        return false;
      }
      tags, outbounds := pool.tags, pool.byTag;
      selected := OutboundSelect();
      ok := selected.Some?;
    }

    /** A provider's callback: refilter, choose again, and interrupt if the choice is another object. */
    method OnProviderUpdated(around: Surroundings, updated: string) returns (ok: bool)
      requires interruptGroup.Valid()
      modifies this, interruptGroup
      ensures interruptGroup.Valid()
      ensures View() == CallbackState(c, old(View()), around, updated)
      ensures ok <==> updated in c.providerTags
    {
      if updated !in c.providerTags {
        return false;
      }
      var pool := FilterOutbounds(around, updated);
      match pool {
        case Failed => tags, outbounds := [], map[];
        case Filled(t, m) => tags, outbounds := t, m;
      }
      var detour := OutboundSelect();
      var previous := selected;
      selected := detour;
      if previous != detour {
        interruptGroup.Interrupt(c.interruptExternal);
      }
      ok := true;
    }

    method SelectOutbound(tag: string, saves: bool) returns (ok: bool)
      requires interruptGroup.Valid()
      modifies this, interruptGroup
      ensures interruptGroup.Valid()
      ensures View() == SelectState(c, old(View()), tag, saves)
      ensures ok <==> tag in old(outbounds)
    {
      if tag !in outbounds {
        return false;
      }
      var detour := Some(outbounds[tag]);
      var previous := selected;
      selected := detour;
      if previous == detour {
        return true;
      }
      if c.tag != "" && c.hasCacheFile && saves {
        stored := tag;
      }
      interruptGroup.Interrupt(c.interruptExternal);
      ok := true;
    }

    /** `DialContext` and `ListenPacket`. */
    method Dial(id: nat, isExternal: bool, succeeds: bool) returns (crashed: bool, handle: Option<nat>)
      requires interruptGroup.Valid()
      modifies interruptGroup
      ensures interruptGroup.Valid()
      ensures View() == DialState(old(View()), id, isExternal, succeeds)
      ensures crashed <==> selected.None?
      ensures handle.Some? <==> selected.Some? && succeeds
    {
      if selected.None? {
        return true, None;
      }
      if !succeeds {
        return false, None;
      }
      var h := interruptGroup.NewConn(Conn(id, selected.value), isExternal);
      return false, Some(h);
    }
  }
}

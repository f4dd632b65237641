/** The selector group: its pool, the rule that picks from it, and the connections it keeps consistent. */
module Selector {
  import opened Nodes
  import opened Interrupt
  import opened GroupPool

  datatype SelectorConfig = SelectorConfig(
    tag: string,
    deps: seq<string>,
    defaultTag: string,
    providerTags: seq<string>,
    filter: NodeFilter,
    interruptExternal: bool,
    hasCacheFile: bool)

  /** `stored` is the group's entry in the cache file, empty when there is none. */
  datatype SelectorState = SelectorState(
    tags: seq<string>,
    outbounds: map<string, Outbound>,
    cache: Lists,
    selected: Option<Outbound>,
    stored: string,
    connections: seq<Item>,
    nextHandle: nat)

  // ---------------------------------------------------------------------------
  // The pool
  // ---------------------------------------------------------------------------

  datatype Pool = Failed | Filled(tags: seq<string>, byTag: map<string, Outbound>)

  function StaticMap(resolve: string -> Option<Outbound>, deps: seq<string>): (r: map<string, Outbound>)
    requires StaticsResolve(resolve, deps)
    ensures r.Keys == set t | t in deps
    ensures forall t :: t in r ==> resolve(t) == Some(r[t])
  {
    map t | t in deps :: resolve(t).value
  }

  /** The nodes laid over a map in order, each under its own tag. */
  function Overlay(m: map<string, Outbound>, nodes: seq<Outbound>): map<string, Outbound> {
    if nodes == [] then m else Overlay(m, nodes[..|nodes| - 1])[nodes[|nodes| - 1].tag := nodes[|nodes| - 1]]
  }

  lemma OverlayAppend(m: map<string, Outbound>, nodes: seq<Outbound>, o: Outbound)
    ensures Overlay(m, nodes + [o]) == Overlay(m, nodes)[o.tag := o]
  {
    assert (nodes + [o])[..|nodes|] == nodes;
  }

  lemma {:induction false} OverlayKeys(m: map<string, Outbound>, nodes: seq<Outbound>)
    ensures Overlay(m, nodes).Keys == m.Keys + TagSet(nodes)
    ensures forall t :: t in Overlay(m, nodes) ==>
      (t in m && Overlay(m, nodes)[t] == m[t]) || (Overlay(m, nodes)[t] in nodes && Overlay(m, nodes)[t].tag == t)
  {
    if nodes != [] {
      var init, last := nodes[..|nodes| - 1], nodes[|nodes| - 1];
      assert nodes == init + [last];
      TagSetAppend(init, last);
      OverlayKeys(m, init);
    }
  }

  function PoolOf(c: SelectorConfig, resolve: string -> Option<Outbound>, nodes: seq<Outbound>): Pool
    requires StaticsResolve(resolve, c.deps)
  {
    var tags := c.deps + Tags(nodes);
    if tags == [] && resolve(COMPATIBLE_TAG).Some? then
      var detour := resolve(COMPATIBLE_TAG).value;
      Filled([detour.tag], map[detour.tag := detour])
    else Filled(tags, Overlay(StaticMap(resolve, c.deps), nodes))
  }

  predicate FilterFails(c: SelectorConfig, resolve: string -> Option<Outbound>) {
    !StaticsResolve(resolve, c.deps) || (c.defaultTag != "" && c.defaultTag !in c.deps)
  }

  function FilterPool(c: SelectorConfig, cache: Lists, around: Surroundings, updated: string): (Pool, Lists) {
    if FilterFails(c, around.resolve) then (Failed, cache)
    else
      var (nodes, cache') := Gather(c.filter, c.providerTags, cache, around.contents, updated);
      (PoolOf(c, around.resolve, nodes), cache')
  }

  /** The map of a filled pool has exactly its tags as keys. */
  lemma PoolKeys(c: SelectorConfig, resolve: string -> Option<Outbound>, nodes: seq<Outbound>)
    requires StaticsResolve(resolve, c.deps)
    ensures var pool := PoolOf(c, resolve, nodes);
      pool.byTag.Keys == (set t | t in pool.tags) && forall t :: t in c.deps ==> t in pool.byTag
  {
    OverlayKeys(StaticMap(resolve, c.deps), nodes);
    TagsAreTagSet(nodes);
    assert forall t :: t in c.deps + Tags(nodes) <==> t in c.deps || t in Tags(nodes);
  }

  lemma TagsAreTagSet(nodes: seq<Outbound>)
    ensures forall t :: t in Tags(nodes) <==> t in TagSet(nodes)
  {
    forall t | t in TagSet(nodes) ensures t in Tags(nodes) {
      var o :| o in nodes && o.tag == t;
      var i :| 0 <= i < |nodes| && nodes[i] == o;
      assert Tags(nodes)[i] == t;
    }
  }

  // ---------------------------------------------------------------------------
  // The rule
  // ---------------------------------------------------------------------------

  /** Stored choice if the pool has it, else the default, else the first. */
  function Choose(c: SelectorConfig, stored: string, tags: seq<string>, byTag: map<string, Outbound>): Option<Outbound>
  {
    if c.tag != "" && c.hasCacheFile && stored != "" && stored in byTag then Some(byTag[stored])
    else if c.defaultTag != "" then (if c.defaultTag in byTag then Some(byTag[c.defaultTag]) else None)
    else if tags == [] then None
    else if tags[0] in byTag then Some(byTag[tags[0]]) else None
  }

  // ---------------------------------------------------------------------------
  // Steps
  // ---------------------------------------------------------------------------

  function Interrupted(c: SelectorConfig, s: SelectorState): SelectorState {
    s.(connections := SparedOf(s.connections, c.interruptExternal))
  }

  /** The callback of a provider; one that is not the selector's own is turned away. */
  function CallbackState(c: SelectorConfig, s: SelectorState, around: Surroundings, updated: string): SelectorState {
    if updated !in c.providerTags then s
    else
      var (pool, cache) := FilterPool(c, s.cache, around, updated);
      var tags, byTag := if pool.Failed? then [] else pool.tags, if pool.Failed? then map[] else pool.byTag;
      var detour := Choose(c, s.stored, tags, byTag);
      var s1 := s.(tags := tags, outbounds := byTag, cache := cache, selected := detour);
      if s.selected != detour then Interrupted(c, s1) else s1
  }

  function SelectState(c: SelectorConfig, s: SelectorState, tag: string, saves: bool): SelectorState {
    if tag !in s.outbounds || s.selected == Some(s.outbounds[tag]) then s
    else
      var stored := if c.tag != "" && c.hasCacheFile && saves then tag else s.stored;
      Interrupted(c, s.(selected := Some(s.outbounds[tag]), stored := stored))
  }

  /** A dial through the selected outbound; with none selected the program dereferences nil, and tracks nothing. */
  function DialState(s: SelectorState, id: nat, isExternal: bool, succeeds: bool): SelectorState {
    if s.selected.None? || !succeeds then s
    else
      s.(connections := s.connections + [Item(s.nextHandle, Conn(id, s.selected.value), isExternal)],
         nextHandle := s.nextHandle + 1)
  }

  /** A start that finds every provider; it fails on an empty configuration, a failed filtering or an empty choice. */
  function SelectorStartState(c: SelectorConfig, around: Surroundings, stored: string): Option<SelectorState> {
    if |c.deps| + |c.providerTags| == 0 then None
    else if exists i :: 0 <= i < |c.providerTags| && c.providerTags[i] !in around.contents then None
    else
      var (pool, cache) := FilterPool(c, map[], around, "");
      if pool.Failed? then None
      else
        var detour := Choose(c, stored, pool.tags, pool.byTag);
        if detour.None? then None
        else Some(SelectorState(pool.tags, pool.byTag, cache, detour, stored, [], 0))
  }

  datatype SelectorStep =
    | Callback(around: Surroundings, updated: string)
    | Select(tag: string, saves: bool)
    | Dial(id: nat, isExternal: bool, succeeds: bool)
    | CloseConn(handle: nat)

  function ApplySelector(c: SelectorConfig, s: SelectorState, step: SelectorStep): SelectorState {
    match step
    case Callback(around, updated) => CallbackState(c, s, around, updated)
    case Select(tag, saves) => SelectState(c, s, tag, saves)
    case Dial(id, isExternal, succeeds) => DialState(s, id, isExternal, succeeds)
    case CloseConn(handle) => s.(connections := DropHandle(s.connections, handle))
  }

  function RunSelector(c: SelectorConfig, s: SelectorState, steps: seq<SelectorStep>): SelectorState {
    if steps == [] then s else ApplySelector(c, RunSelector(c, s, steps[..|steps| - 1]), steps[|steps| - 1])
  }

  // ---------------------------------------------------------------------------
  // Invariants
  // ---------------------------------------------------------------------------

  /** The map's keys are exactly the tags, and the selected outbound is one of its values, or none exactly when
      the pool is empty. */
  ghost predicate SelectionSound(s: SelectorState) {
    && s.outbounds.Keys == (set t | t in s.tags)
    && (s.selected.None? <==> s.tags == [])
    && (s.selected.Some? ==> s.selected.value in s.outbounds.Values)
  }

  /** Every tracked connection the interrupt policy covers was dialled through the selected outbound object. */
  ghost predicate CoveredUseSelected(c: SelectorConfig, s: SelectorState) {
    forall x :: x in s.connections && Covered(x, c.interruptExternal) ==> Some(x.conn.via) == s.selected
  }

  ghost predicate TrackedOnce(s: SelectorState) {
    DistinctHandles(s.connections) && forall x :: x in s.connections ==> x.handle < s.nextHandle
  }

  ghost predicate SelectorInvariant(c: SelectorConfig, s: SelectorState) {
    SelectionSound(s) && CoveredUseSelected(c, s) && TrackedOnce(s)
  }

  lemma FilteredPoolSound(c: SelectorConfig, cache: Lists, around: Surroundings, updated: string, stored: string)
    ensures var pool := FilterPool(c, cache, around, updated).0;
      pool.Filled? ==>
        var detour := Choose(c, stored, pool.tags, pool.byTag);
        && pool.byTag.Keys == (set t | t in pool.tags)
        && (detour.None? <==> pool.tags == [])
        && (detour.Some? ==> detour.value in pool.byTag.Values)
  {
    if !FilterFails(c, around.resolve) {
      var (nodes, cache') := Gather(c.filter, c.providerTags, cache, around.contents, updated);
      var pool := PoolOf(c, around.resolve, nodes);
      PoolKeys(c, around.resolve, nodes);
      if pool.tags != [] { assert pool.tags[0] in pool.byTag; }
      if c.defaultTag != "" { assert c.defaultTag in pool.byTag && c.deps != []; }
    }
  }

  lemma SparedKeepsOrder(items: seq<Item>, all: bool)
    requires DistinctHandles(items)
    ensures DistinctHandles(SparedOf(items, all))
  {
    DropCoveredLeavesSpared(items, all);
    DropAllMembers(items, CoveredOf(items, all));
  }

  lemma InterruptedSound(c: SelectorConfig, s: SelectorState)
    requires TrackedOnce(s)
    ensures TrackedOnce(Interrupted(c, s)) && CoveredUseSelected(c, Interrupted(c, s))
  {
    SparedKeepsOrder(s.connections, c.interruptExternal);
    SplitMembers(s.connections, c.interruptExternal);
  }

  lemma CallbackKeeps(c: SelectorConfig, s: SelectorState, around: Surroundings, updated: string)
    requires SelectorInvariant(c, s)
    ensures SelectorInvariant(c, CallbackState(c, s, around, updated))
  {
    if updated in c.providerTags {
      FilteredPoolSound(c, s.cache, around, updated, s.stored);
      var (pool, cache) := FilterPool(c, s.cache, around, updated);
      var tags, byTag := if pool.Failed? then [] else pool.tags, if pool.Failed? then map[] else pool.byTag;
      var detour := Choose(c, s.stored, tags, byTag);
      var s1 := s.(tags := tags, outbounds := byTag, cache := cache, selected := detour);
      assert SelectionSound(s1);
      InterruptedSound(c, s1);
    }
  }

  /** The tags of a group with these nodes, up to the "Compatible" fallback of an empty one. */
  ghost predicate ShowsNodes(c: SelectorConfig, tags: seq<string>, nodes: seq<Outbound>) {
    tags == c.deps + Tags(nodes) || (c.deps + Tags(nodes) == [] && tags == [COMPATIBLE_TAG])
  }

  /** The registry answers a tag with an outbound of that tag. */
  ghost predicate ResolvesByTag(resolve: string -> Option<Outbound>) {
    forall t :: resolve(t).Some? ==> resolve(t).value.tag == t
  }

  /** What a callback whose filtering succeeds does to the cache and the shown tags. */
  lemma CallbackRefills(c: SelectorConfig, s: SelectorState, around: Surroundings, p: string)
    requires p in c.providerTags && !FilterFails(c, around.resolve) && ResolvesByTag(around.resolve)
    requires forall q :: q in c.providerTags ==> q in around.contents
    ensures var s' := CallbackState(c, s, around, p);
      && s'.cache == Gather(c.filter, c.providerTags, s.cache, around.contents, p).1
      && (forall q :: q in c.providerTags ==>
            Get(s'.cache, q) == Contribution(c.filter, s.cache, around.contents, p, q))
      && ShowsNodes(c, s'.tags, Flatten(c.providerTags, s'.cache))
  {
    GatherClosedForm(c.filter, c.providerTags, s.cache, around.contents, p);
  }

  /** Each outbound of the map is filed under its own tag, and is a static one, the fallback, or a node the selector
      remembers. */
  ghost predicate Originates(c: SelectorConfig, outbounds: map<string, Outbound>, cache: Lists) {
    forall t :: t in outbounds ==>
      outbounds[t].tag == t && (t in c.deps || t == COMPATIBLE_TAG || Remembered(c, cache, outbounds[t]))
  }

  ghost predicate Remembered(c: SelectorConfig, cache: Lists, x: Outbound) {
    exists q :: q in c.providerTags && x in Get(cache, q)
  }

  lemma {:induction false} FlattenMembers(providerTags: seq<string>, cache: Lists, x: Outbound)
    requires x in Flatten(providerTags, cache)
    ensures exists p :: p in providerTags && x in Get(cache, p)
  {
    var init, last := providerTags[..|providerTags| - 1], providerTags[|providerTags| - 1];
    assert providerTags == init + [last];
    if x in Get(cache, last) {
      assert last in providerTags;
    } else {
      FlattenMembers(init, cache, x);
    }
  }

  /** Every outbound of a filled pool was answered by the registry or gathered. */
  lemma PoolSources(c: SelectorConfig, cache: Lists, around: Surroundings, updated: string, key: string)
    ensures var pool := FilterPool(c, cache, around, updated).0;
      pool.Filled? && key in pool.byTag ==>
        || around.resolve(key) == Some(pool.byTag[key]) || around.resolve(COMPATIBLE_TAG) == Some(pool.byTag[key])
        || pool.byTag[key] in Gather(c.filter, c.providerTags, cache, around.contents, updated).0
  {
    if !FilterFails(c, around.resolve) {
      var nodes := Gather(c.filter, c.providerTags, cache, around.contents, updated).0;
      OverlayKeys(StaticMap(around.resolve, c.deps), nodes);
    }
  }

  lemma PoolOriginates(c: SelectorConfig, cache: Lists, around: Surroundings, updated: string)
    requires ResolvesByTag(around.resolve) && forall q :: q in c.providerTags ==> q in around.contents
    ensures var (pool, cache') := FilterPool(c, cache, around, updated);
      pool.Filled? ==> Originates(c, pool.byTag, cache')
  {
    var (pool, cache') := FilterPool(c, cache, around, updated);
    if pool.Filled? {
      var nodes := Gather(c.filter, c.providerTags, cache, around.contents, updated).0;
      GatherClosedForm(c.filter, c.providerTags, cache, around.contents, updated);
      OverlayKeys(StaticMap(around.resolve, c.deps), nodes);
      forall t | t in pool.byTag
        ensures pool.byTag[t].tag == t
        ensures t in c.deps || t == COMPATIBLE_TAG || Remembered(c, cache', pool.byTag[t])
      {
        if pool.byTag[t] in nodes { FlattenMembers(c.providerTags, cache', pool.byTag[t]); }
      }
    }
  }

  lemma SelectKeeps(c: SelectorConfig, s: SelectorState, tag: string, saves: bool)
    requires SelectorInvariant(c, s)
    ensures SelectorInvariant(c, SelectState(c, s, tag, saves))
  {
    if tag in s.outbounds && s.selected != Some(s.outbounds[tag]) {
      var stored := if c.tag != "" && c.hasCacheFile && saves then tag else s.stored;
      var s1 := s.(selected := Some(s.outbounds[tag]), stored := stored);
      assert SelectionSound(s1);
      InterruptedSound(c, s1);
    }
  }

  lemma DialKeeps(c: SelectorConfig, s: SelectorState, id: nat, isExternal: bool, succeeds: bool)
    requires SelectorInvariant(c, s)
    ensures SelectorInvariant(c, DialState(s, id, isExternal, succeeds))
  {
    var items := DialState(s, id, isExternal, succeeds).connections;
    assert forall i :: 0 <= i < |s.connections| ==> s.connections[i] in s.connections;
  }

  lemma StepKeepsSelector(c: SelectorConfig, s: SelectorState, step: SelectorStep)
    requires SelectorInvariant(c, s)
    ensures SelectorInvariant(c, ApplySelector(c, s, step))
  {
    match step
    case Callback(around, updated) => CallbackKeeps(c, s, around, updated);
    case Select(tag, saves) => SelectKeeps(c, s, tag, saves);
    case Dial(id, isExternal, succeeds) => DialKeeps(c, s, id, isExternal, succeeds);
    case CloseConn(handle) => DropHandleMembers(s.connections, handle);
  }

  /** Selecting, dialling and closing connections leave the pool alone. */
  lemma UseKeepsPool(c: SelectorConfig, s: SelectorState, step: SelectorStep)
    requires !step.Callback?
    ensures var s' := ApplySelector(c, s, step);
      s'.tags == s.tags && s'.outbounds == s.outbounds && s'.cache == s.cache
  {
  }

  /** Over every run after a successful start: the selection is sound, and every covered connection goes through
      the outbound object now selected. */
  lemma {:induction false} RunKeepsSelector(c: SelectorConfig, around: Surroundings, stored: string,
                                            steps: seq<SelectorStep>)
    requires SelectorStartState(c, around, stored).Some?
    ensures SelectorInvariant(c, RunSelector(c, SelectorStartState(c, around, stored).value, steps))
  {
    if steps == [] {
      FilteredPoolSound(c, map[], around, "", stored);
    } else {
      RunKeepsSelector(c, around, stored, steps[..|steps| - 1]);
      var before := RunSelector(c, SelectorStartState(c, around, stored).value, steps[..|steps| - 1]);
      StepKeepsSelector(c, before, steps[|steps| - 1]);
    }
  }

  // ---------------------------------------------------------------------------
  // The stored choice
  // ---------------------------------------------------------------------------

  lemma {:induction false} StoredSurvives(c: SelectorConfig, s: SelectorState, steps: seq<SelectorStep>)
    requires forall x :: x in steps ==> !x.Select?
    ensures RunSelector(c, s, steps).stored == s.stored
  {
    if steps != [] {
      assert steps[|steps| - 1] in steps;
      StoredSurvives(c, s, steps[..|steps| - 1]);
    }
  }

  /** A stored choice that left the pool is selected again as soon as an update brings it back, whatever
      happened in between short of another selection. */
  lemma ReturningChoiceIsSelected(c: SelectorConfig, s: SelectorState, steps: seq<SelectorStep>, around: Surroundings,
                                  updated: string)
    requires c.tag != "" && c.hasCacheFile && s.stored != ""
    requires forall x :: x in steps ==> !x.Select?
    requires updated in c.providerTags
    ensures var s' := CallbackState(c, RunSelector(c, s, steps), around, updated);
      s.stored in s'.outbounds ==> s'.selected == Some(s'.outbounds[s.stored])
  {
    StoredSurvives(c, s, steps);
  }

  /** A successful selection is remembered exactly when it changes the selected outbound, or names what was
      remembered already. */
  lemma SelectionRememberedExactly(c: SelectorConfig, s: SelectorState, tag: string)
    requires c.tag != "" && c.hasCacheFile && tag in s.outbounds
    ensures SelectState(c, s, tag, true).stored == tag <==> s.selected != Some(s.outbounds[tag]) || s.stored == tag
  {
  }

  /** So confirming the outbound in use while an older choice is missing does not stick: when the older choice
      returns it takes over. */
  lemma ConfirmedChoiceIsOverruled(c: SelectorConfig, s: SelectorState, tag: string, around: Surroundings,
                                   updated: string)
    requires c.tag != "" && c.hasCacheFile && s.stored != "" && s.stored != tag
    requires tag in s.outbounds && s.selected == Some(s.outbounds[tag])
    requires updated in c.providerTags
    ensures var s' := CallbackState(c, SelectState(c, s, tag, true), around, updated);
      s.stored in s'.outbounds ==> s'.selected == Some(s'.outbounds[s.stored])
  {
    assert SelectState(c, s, tag, true) == s;
    ReturningChoiceIsSelected(c, s, [], around, updated);
  }
}

/** What single operations of the selector and the filters behind it mean. */
module SelectorLaws {
  import opened Nodes
  import opened Interrupt
  import opened GroupPool
  import opened Selector

  // ---------------------------------------------------------------------------
  // Filters
  // ---------------------------------------------------------------------------

  lemma {:induction false} FilteredConcat(f: NodeFilter, a: seq<Outbound>, b: seq<Outbound>)
    ensures Filtered(f, a + b) == Filtered(f, a) + Filtered(f, b)
  {
    if b == [] {
      assert a + b == a;
    } else {
      var init, last := b[..|b| - 1], b[|b| - 1];
      FilteredConcat(f, a, init);
      assert a + b == (a + init) + [last];
      FilteredAppend(f, a + init, last);
    }
  }

  /** One node is kept exactly when the exclude pattern, if any, does not match its tag and the include pattern, if
      any, does. A match of both excludes it. */
  lemma FilterKeepsExactly(f: NodeFilter, o: Outbound)
    ensures Filtered(f, [o]) == [o] <==>
      && (f.excluding.Some? ==> !f.excluding.value(o.tag))
      && (f.including.Some? ==> f.including.value(o.tag))
    ensures Filtered(f, [o]) != [o] ==> Filtered(f, [o]) == []
  {
    FilteredAppend(f, [], o);
    assert [] + [o] == [o];
  }

  /** Filtering a list is filtering its nodes one by one, in order. */
  lemma {:induction false} FilterWorksNodewise(f: NodeFilter, nodes: seq<Outbound>, i: nat)
    requires i < |nodes|
    ensures Filtered(f, nodes) == Filtered(f, nodes[..i]) + Filtered(f, [nodes[i]]) + Filtered(f, nodes[i + 1..])
  {
    assert nodes == (nodes[..i] + [nodes[i]]) + nodes[i + 1..];
    FilteredConcat(f, nodes[..i] + [nodes[i]], nodes[i + 1..]);
    FilteredConcat(f, nodes[..i], [nodes[i]]);
  }

  // ---------------------------------------------------------------------------
  // Interruptions
  // ---------------------------------------------------------------------------

  lemma {:induction false} SplitConcat(a: seq<Item>, b: seq<Item>, all: bool)
    ensures SparedOf(a + b, all) == SparedOf(a, all) + SparedOf(b, all)
    ensures CoveredOf(a + b, all) == CoveredOf(a, all) + CoveredOf(b, all)
  {
    if b == [] {
      assert a + b == a;
    } else {
      var init, last := b[..|b| - 1], b[|b| - 1];
      SplitConcat(a, init, all);
      assert b == init + [last] && a + b == (a + init) + [last];
      SplitAppend(a + init, last, all);
      SplitAppend(init, last, all);
    }
  }

  /** An interruption spares exactly the external connections, and those only when external ones are not to be
      interrupted; so with that option on it spares none. */
  lemma InterruptionSparesExactly(items: seq<Item>, all: bool)
    ensures forall x :: x in SparedOf(items, all) <==> x in items && x.isExternal && !all
    ensures forall x :: x in CoveredOf(items, all) <==> x in items && (!x.isExternal || all)
    ensures all ==> SparedOf(items, all) == []
  {
    SplitMembers(items, all);
    var spared := SparedOf(items, all);
    assert spared != [] ==> spared[0] in spared;
  }

  /** The spared and the covered connections keep their order. */
  lemma InterruptionKeepsOrder(items: seq<Item>, all: bool, i: nat)
    requires i < |items|
    ensures var spared := items[i].isExternal && !all;
      && SparedOf(items, all) ==
         SparedOf(items[..i], all) + (if spared then [items[i]] else []) + SparedOf(items[i + 1..], all)
      && CoveredOf(items, all) ==
         CoveredOf(items[..i], all) + (if spared then [] else [items[i]]) + CoveredOf(items[i + 1..], all)
  {
    assert items == (items[..i] + [items[i]]) + items[i + 1..];
    SplitConcat(items[..i] + [items[i]], items[i + 1..], all);
    SplitAppend(items[..i], items[i], all);
  }

  /** Closed connections are reported in the order of their elements. */
  lemma {:induction false} ConnsInOrder(items: seq<Item>)
    ensures |ConnsOf(items)| == |items| && forall i :: 0 <= i < |items| ==> ConnsOf(items)[i] == items[i].conn
  {
    if items != [] {
      ConnsInOrder(items[..|items| - 1]);
    }
  }

  // ---------------------------------------------------------------------------
  // The pool
  // ---------------------------------------------------------------------------

  /** Under a tag that nodes have, the pool's map holds the last of them. */
  lemma {:induction false} LastNodeWins(m: map<string, Outbound>, nodes: seq<Outbound>, i: nat)
    requires i < |nodes| && forall j :: i < j < |nodes| ==> nodes[j].tag != nodes[i].tag
    ensures nodes[i].tag in Overlay(m, nodes) && Overlay(m, nodes)[nodes[i].tag] == nodes[i]
  {
    if i < |nodes| - 1 {
      LastNodeWins(m, nodes[..|nodes| - 1], i);
      assert nodes[|nodes| - 1].tag != nodes[i].tag;
    }
  }

  /** Under any other tag it holds what it held before. */
  lemma {:induction false} StaticsShowThrough(m: map<string, Outbound>, nodes: seq<Outbound>, t: string)
    requires t !in TagSet(nodes)
    ensures t in Overlay(m, nodes) <==> t in m
    ensures t in m ==> Overlay(m, nodes)[t] == m[t]
  {
    if nodes != [] {
      var init, last := nodes[..|nodes| - 1], nodes[|nodes| - 1];
      assert nodes == init + [last];
      TagSetAppend(init, last);
      StaticsShowThrough(m, init, t);
    }
  }

  /** Where a static tag or the fallback is not also a node's tag, the pool answers it as the registry does. */
  lemma PoolAnswersStatics(c: SelectorConfig, cache: Lists, around: Surroundings, updated: string, t: string)
    requires !FilterFails(c, around.resolve)
    ensures var (pool, _) := FilterPool(c, cache, around, updated);
      var nodes := Gather(c.filter, c.providerTags, cache, around.contents, updated).0;
      && (t in c.deps && t !in TagSet(nodes) ==> t in pool.byTag && around.resolve(t) == Some(pool.byTag[t]))
      && (c.deps == [] && nodes == [] && around.resolve(COMPATIBLE_TAG).Some? ==>
            var detour := around.resolve(COMPATIBLE_TAG).value;
            pool.tags == [detour.tag] && pool.byTag == map[detour.tag := detour])
      && (c.deps == [] && nodes == [] && around.resolve(COMPATIBLE_TAG).None? ==> pool.tags == [])
  {
    var nodes := Gather(c.filter, c.providerTags, cache, around.contents, updated).0;
    if t !in TagSet(nodes) { StaticsShowThrough(StaticMap(around.resolve, c.deps), nodes, t); }
    assert c.deps + Tags(nodes) == [] <==> |c.deps + Tags(nodes)| == 0;
  }

  // ---------------------------------------------------------------------------
  // Starting and updating
  // ---------------------------------------------------------------------------

  /** A start succeeds exactly when something is configured, every provider is known, every static outbound resolves,
      the default is one of them, and the pool is not empty. */
  lemma StartSucceedsExactly(c: SelectorConfig, around: Surroundings, stored: string)
    ensures SelectorStartState(c, around, stored).Some? <==>
      && (c.deps != [] || c.providerTags != [])
      && (forall q :: q in c.providerTags ==> q in around.contents)
      && (forall d :: d in c.deps ==> around.resolve(d).Some?)
      && (c.defaultTag == "" || c.defaultTag in c.deps)
      && (c.deps != [] || Gather(c.filter, c.providerTags, map[], around.contents, "").0 != []
          || around.resolve(COMPATIBLE_TAG).Some?)
  {
    FilteredPoolSound(c, map[], around, "", stored);
    var nodes := Gather(c.filter, c.providerTags, map[], around.contents, "").0;
    assert c.deps + Tags(nodes) == [] <==> |c.deps + Tags(nodes)| == 0;
    assert (forall q :: q in c.providerTags ==> q in around.contents) <==>
      !(exists i :: 0 <= i < |c.providerTags| && c.providerTags[i] !in around.contents);
    assert StaticsResolve(around.resolve, c.deps) <==> forall d :: d in c.deps ==> around.resolve(d).Some?;
  }

  /** What is chosen from a pool: the stored choice while it counts and is there, else the default when one is
      configured, else the first tag's outbound, and nothing from an empty pool. */
  ghost predicate ChosenByRule(c: SelectorConfig, s: SelectorState) {
    if c.tag != "" && c.hasCacheFile && s.stored != "" && s.stored in s.outbounds
    then s.selected == Some(s.outbounds[s.stored])
    else if c.defaultTag != "" && s.tags != []
    then c.defaultTag in s.outbounds && s.selected == Some(s.outbounds[c.defaultTag])
    else if s.tags != [] then s.tags[0] in s.outbounds && s.selected == Some(s.outbounds[s.tags[0]])
    else s.selected.None?
  }

  lemma StartChoosesByRule(c: SelectorConfig, around: Surroundings, stored: string)
    requires SelectorStartState(c, around, stored).Some?
    ensures var s := SelectorStartState(c, around, stored).value;
      ChosenByRule(c, s) && s.stored == stored && s.connections == []
  {
    FilteredPoolSound(c, map[], around, "", stored);
    var pool := FilterPool(c, map[], around, "").0;
    PoolKeysOf(c, map[], around, "");
  }

  lemma PoolKeysOf(c: SelectorConfig, cache: Lists, around: Surroundings, updated: string)
    ensures var pool := FilterPool(c, cache, around, updated).0;
      pool.Filled? ==>
        && (pool.tags != [] ==> pool.tags[0] in pool.byTag)
        && (c.defaultTag != "" ==> c.defaultTag in pool.byTag)
  {
    if !FilterFails(c, around.resolve) {
      var nodes := Gather(c.filter, c.providerTags, cache, around.contents, updated).0;
      PoolKeys(c, around.resolve, nodes);
      var pool := PoolOf(c, around.resolve, nodes);
      if pool.tags != [] { assert pool.tags[0] in set t | t in pool.tags; }
    }
  }

  /** A callback from outside the group changes nothing. One of its own chooses by the rule; where the choice is the
      object selected before, every connection stays, otherwise exactly the spared ones do. When a static outbound or
      the default is missing, the pool and the selection are emptied and the cache stays. */
  lemma CallbackExactly(c: SelectorConfig, s: SelectorState, around: Surroundings, p: string)
    ensures var s' := CallbackState(c, s, around, p);
      && (p !in c.providerTags ==> s' == s)
      && s'.stored == s.stored && s'.nextHandle == s.nextHandle
      && (p in c.providerTags ==>
            && ChosenByRule(c, s')
            && s'.connections == (if s'.selected == s.selected then s.connections
                                  else SparedOf(s.connections, c.interruptExternal))
            && (FilterFails(c, around.resolve) ==>
                  s'.tags == [] && s'.outbounds == map[] && s'.selected.None? && s'.cache == s.cache))
  {
    PoolKeysOf(c, s.cache, around, p);
    if p in c.providerTags && !FilterFails(c, around.resolve) {
      FilteredPoolSound(c, s.cache, around, p, s.stored);
    }
  }

  // ---------------------------------------------------------------------------
  // Selecting and dialling
  // ---------------------------------------------------------------------------

  /** Selecting a tag of the pool selects its outbound. When that is another object, the covered connections go and the
      choice is stored if there is a cache file to take it; otherwise nothing else moves. A tag outside the pool does
      nothing. */
  lemma SelectExactly(c: SelectorConfig, s: SelectorState, tag: string, saves: bool)
    ensures var s' := SelectState(c, s, tag, saves);
      var changes := tag in s.outbounds && s.selected != Some(s.outbounds[tag]);
      && s'.selected == (if tag in s.outbounds then Some(s.outbounds[tag]) else s.selected)
      && s'.stored == (if changes && c.tag != "" && c.hasCacheFile && saves then tag else s.stored)
      && (forall x :: x in s'.connections <==>
            x in s.connections && (changes ==> x.isExternal && !c.interruptExternal))
      && (!changes ==> s'.connections == s.connections)
      && s'.tags == s.tags && s'.outbounds == s.outbounds && s'.cache == s.cache && s'.nextHandle == s.nextHandle
  {
    InterruptionSparesExactly(s.connections, c.interruptExternal);
  }

  /** The items that dials through one outbound append, from the first free handle on. */
  function DialledItems(steps: seq<SelectorStep>, via: Outbound, next: nat): (seq<Item>, nat) {
    if steps == [] then ([], next)
    else
      var (items, n) := DialledItems(steps[..|steps| - 1], via, next);
      var last := steps[|steps| - 1];
      if last.Dial? && last.succeeds then (items + [Item(n, Conn(last.id, via), last.isExternal)], n + 1)
      else (items, n)
  }

  /** What was selected stays selected through dials and closed connections, and every connection that turns up goes
      through it; while none is closed, exactly the successful dials are tracked, each as what it was, in order. */
  lemma {:induction false} SelectionStays(c: SelectorConfig, s: SelectorState, tag: string, saves: bool,
                                          steps: seq<SelectorStep>)
    requires tag in s.outbounds && TrackedOnce(s)
    requires forall x :: x in steps ==> x.Dial? || x.CloseConn?
    ensures var s0 := SelectState(c, s, tag, saves);
      var s' := RunSelector(c, s0, steps);
      var (items, next) := DialledItems(steps, s.outbounds[tag], s0.nextHandle);
      && s'.selected == Some(s.outbounds[tag]) && s'.outbounds == s.outbounds && TrackedOnce(s')
      && s'.nextHandle == next
      && (forall x :: x in s'.connections ==> x in s0.connections || x in items)
      && ((forall x :: x in steps ==> x.Dial?) ==> s'.connections == s0.connections + items)
      && forall x :: x in items ==> x.conn.via == s.outbounds[tag]
  {
    var s0 := SelectState(c, s, tag, saves);
    if steps == [] {
      InterruptedSound(c, s);
      SelectTracksOnce(c, s, tag, saves);
      assert s0.connections + [] == s0.connections;
    } else {
      var init, last := steps[..|steps| - 1], steps[|steps| - 1];
      assert steps == init + [last];
      SelectionStays(c, s, tag, saves, init);
      var before := RunSelector(c, s0, init);
      assert last in steps;
      if last.Dial? {
        DialTracksOnce(before, last.id, last.isExternal, last.succeeds);
      } else {
        DropHandleMembers(before.connections, last.handle);
      }
    }
  }

  lemma SelectTracksOnce(c: SelectorConfig, s: SelectorState, tag: string, saves: bool)
    requires TrackedOnce(s)
    ensures TrackedOnce(SelectState(c, s, tag, saves))
  {
    SparedKeepsOrder(s.connections, c.interruptExternal);
    InterruptionSparesExactly(s.connections, c.interruptExternal);
  }

  lemma DialTracksOnce(s: SelectorState, id: nat, isExternal: bool, succeeds: bool)
    requires TrackedOnce(s)
    ensures TrackedOnce(DialState(s, id, isExternal, succeeds))
  {
    assert forall i :: 0 <= i < |s.connections| ==> s.connections[i] in s.connections;
  }
}

/** What Selector and URLTest share: gathering the nodes of their providers through a per-provider cache. */
module GroupPool {
  import opened Nodes

  const COMPATIBLE_TAG := "Compatible"

  /** The exclude and include patterns, as the predicates on tags they denote. */
  datatype NodeFilter = NodeFilter(excluding: Option<string -> bool>, including: Option<string -> bool>)

  predicate Passes(f: NodeFilter, tag: string) {
    !(f.excluding.Some? && f.excluding.value(tag)) && (f.including.Some? ==> f.including.value(tag))
  }

  function Filtered(f: NodeFilter, nodes: seq<Outbound>): seq<Outbound> {
    if nodes == [] then []
    else Filtered(f, nodes[..|nodes| - 1]) + if Passes(f, nodes[|nodes| - 1].tag) then [nodes[|nodes| - 1]] else []
  }

  lemma {:induction false} FilteredMembers(f: NodeFilter, nodes: seq<Outbound>, o: Outbound)
    ensures o in Filtered(f, nodes) <==> o in nodes && Passes(f, o.tag)
  {
    if nodes != [] {
      assert nodes == nodes[..|nodes| - 1] + [nodes[|nodes| - 1]];
      FilteredMembers(f, nodes[..|nodes| - 1], o);
    }
  }

  lemma FilteredAppend(f: NodeFilter, nodes: seq<Outbound>, o: Outbound)
    ensures Filtered(f, nodes + [o]) == Filtered(f, nodes) + if Passes(f, o.tag) then [o] else []
  {
    assert (nodes + [o])[..|nodes|] == nodes;
  }

  /** Lists of outbounds by provider tag: what each provider lists now, or what the group remembers of it. */
  type Lists = map<string, seq<Outbound>>

  /** What a filtering reads of its surroundings: the registry's answers and each provider's present list. */
  datatype Surroundings = Surroundings(resolve: string -> Option<Outbound>, contents: Lists)

  predicate StaticsResolve(resolve: string -> Option<Outbound>, deps: seq<string>) {
    forall i :: 0 <= i < |deps| ==> resolve(deps[i]).Some?
  }

  /** The nodes a provider contributes when its list is filtered afresh. */
  function FreshOf(f: NodeFilter, contents: Lists, p: string): seq<Outbound> {
    if p in contents then Filtered(f, contents[p]) else []
  }

  /** What the group's nodes should be: every provider's list, filtered afresh, in order. */
  function FreshNodes(f: NodeFilter, providerTags: seq<string>, contents: Lists): seq<Outbound> {
    if providerTags == [] then []
    else
      var k := |providerTags| - 1;
      FreshNodes(f, providerTags[..k], contents) + FreshOf(f, contents, providerTags[k])
  }

  // ---------------------------------------------------------------------------
  // Gathering through the cache
  // ---------------------------------------------------------------------------

  /** One iteration of the provider loop: the remembered list unless it is empty or `updated` names the provider. */
  function GatherOne(f: NodeFilter, cache: Lists, contents: Lists, updated: string, p: string): (seq<Outbound>, Lists) {
    if p != updated && Get(cache, p) != [] then (Get(cache, p), cache)
    else if p !in contents then ([], cache)
    else (Filtered(f, contents[p]), cache[p := Filtered(f, contents[p])])
  }

  function Gather(f: NodeFilter, providerTags: seq<string>, cache: Lists, contents: Lists,
                  updated: string)
    : (seq<Outbound>, Lists)
  {
    if providerTags == [] then ([], cache)
    else
      var k := |providerTags| - 1;
      var (nodes, cache1) := Gather(f, providerTags[..k], cache, contents, updated);
      var (more, cache2) := GatherOne(f, cache1, contents, updated, providerTags[k]);
      (nodes + more, cache2)
  }

  /** A provider's contribution, judged on the cache before the loop. */
  function Contribution(f: NodeFilter, cache: Lists, contents: Lists, updated: string, p: string): seq<Outbound> {
    if p != updated && Get(cache, p) != [] then Get(cache, p) else FreshOf(f, contents, p)
  }

  /** The remembered lists laid end to end. */
  function Flatten(providerTags: seq<string>, cache: Lists): seq<Outbound> {
    if providerTags == [] then []
    else Flatten(providerTags[..|providerTags| - 1], cache) + Get(cache, providerTags[|providerTags| - 1])
  }

  lemma FlattenSame(providerTags: seq<string>, a: Lists, b: Lists)
    requires forall p :: p in providerTags ==> Get(a, p) == Get(b, p)
    ensures Flatten(providerTags, a) == Flatten(providerTags, b)
  {
    if providerTags != [] {
      var init, last := providerTags[..|providerTags| - 1], providerTags[|providerTags| - 1];
      assert providerTags == init + [last];
      FlattenSame(init, a, b);
    }
  }

  /** The loop in closed form: afterwards the cache remembers each provider's contribution, and the nodes are
      the remembered lists in order. */
  lemma {:induction false} GatherClosedForm(f: NodeFilter, providerTags: seq<string>, cache: Lists, contents: Lists,
                                            updated: string)
    requires forall p :: p in providerTags ==> p in contents
    ensures var (nodes, cache') := Gather(f, providerTags, cache, contents, updated);
      && nodes == Flatten(providerTags, cache')
      && (forall p :: p in providerTags ==> Get(cache', p) == Contribution(f, cache, contents, updated, p))
      && (forall p :: p !in providerTags ==> Get(cache', p) == Get(cache, p))
  {
    if providerTags != [] {
      var init, last := providerTags[..|providerTags| - 1], providerTags[|providerTags| - 1];
      assert providerTags == init + [last];
      GatherClosedForm(f, init, cache, contents, updated);
      var (nodes, cache1) := Gather(f, init, cache, contents, updated);
      var (more, cache2) := GatherOne(f, cache1, contents, updated, last);
      assert Get(cache1, last) ==
        if last in init then Contribution(f, cache, contents, updated, last) else Get(cache, last);
      assert more == Contribution(f, cache, contents, updated, last) == Get(cache2, last);
      FlattenSame(init, cache1, cache2);
    }
  }

  lemma {:induction false} FlattenFresh(f: NodeFilter, providerTags: seq<string>, cache: Lists, contents: Lists)
    requires forall p :: p in providerTags ==> Get(cache, p) == FreshOf(f, contents, p)
    ensures Flatten(providerTags, cache) == FreshNodes(f, providerTags, contents)
  {
    if providerTags != [] {
      var init, last := providerTags[..|providerTags| - 1], providerTags[|providerTags| - 1];
      assert providerTags == init + [last];
      FlattenFresh(f, init, cache, contents);
    }
  }

  // ---------------------------------------------------------------------------
  // Interleavings of provider changes and callbacks
  // ---------------------------------------------------------------------------

  /** `resolved` says whether the last filtering found every static outbound; `dirty` collects the providers that
      changed since the last successful filtering on their behalf. */
  datatype PoolState = PoolState(
    cache: Lists,
    contents: Lists,
    nodes: seq<Outbound>,
    resolved: bool,
    dirty: set<string>)

  datatype PoolStep =
    | Change(p: string, nodes: seq<Outbound>)
    | Callback(p: string, staticsResolve: bool)

  function StartPool(f: NodeFilter, providerTags: seq<string>, contents: Lists): PoolState {
    var (nodes, cache) := Gather(f, providerTags, map[], contents, "");
    PoolState(cache, contents, nodes, true, {})
  }

  /** The group is called back by its own providers only. A filtering whose static outbounds do not all resolve
      gives up before it reaches them. */
  function ApplyPool(f: NodeFilter, providerTags: seq<string>, s: PoolState, step: PoolStep): PoolState {
    match step
    case Change(p, nodes) =>
      if p in s.contents then s.(contents := s.contents[p := nodes], dirty := s.dirty + {p}) else s
    case Callback(p, staticsResolve) =>
      if p !in providerTags then s
      else if !staticsResolve then s.(nodes := [], resolved := false)
      else
        var (nodes, cache) := Gather(f, providerTags, s.cache, s.contents, p);
        s.(nodes := nodes, cache := cache, resolved := true, dirty := s.dirty - {p})
  }

  function RunPool(f: NodeFilter, providerTags: seq<string>, s: PoolState, steps: seq<PoolStep>): PoolState {
    if steps == [] then s
    else ApplyPool(f, providerTags, RunPool(f, providerTags, s, steps[..|steps| - 1]), steps[|steps| - 1])
  }

  ghost predicate Coherent(f: NodeFilter, providerTags: seq<string>, s: PoolState) {
    && (forall p :: p in providerTags ==> p in s.contents)
    && (forall p :: p in providerTags && p !in s.dirty ==> Get(s.cache, p) == FreshOf(f, s.contents, p))
    && (s.resolved ==> s.nodes == Flatten(providerTags, s.cache))
  }

  lemma StepKeepsCoherent(f: NodeFilter, providerTags: seq<string>, s: PoolState, step: PoolStep)
    requires Coherent(f, providerTags, s)
    ensures Coherent(f, providerTags, ApplyPool(f, providerTags, s, step))
  {
    if step.Callback? && step.p in providerTags && step.staticsResolve {
      GatherClosedForm(f, providerTags, s.cache, s.contents, step.p);
    }
  }

  lemma {:induction false} RunKeepsCoherent(f: NodeFilter, providerTags: seq<string>, contents: Lists,
                                            steps: seq<PoolStep>)
    requires forall p :: p in providerTags ==> p in contents
    ensures Coherent(f, providerTags, RunPool(f, providerTags, StartPool(f, providerTags, contents), steps))
  {
    if steps == [] {
      GatherClosedForm(f, providerTags, map[], contents, "");
    } else {
      RunKeepsCoherent(f, providerTags, contents, steps[..|steps| - 1]);
      var before := RunPool(f, providerTags, StartPool(f, providerTags, contents), steps[..|steps| - 1]);
      StepKeepsCoherent(f, providerTags, before, steps[|steps| - 1]);
    }
  }

  /** Under any interleaving of changes and callbacks of different providers, whenever no change is waiting for
      a successful callback and the last filtering resolved, the nodes are every provider's list filtered afresh. */
  lemma CacheAgreesWithRecomputation(f: NodeFilter, providerTags: seq<string>, contents: Lists, steps: seq<PoolStep>)
    requires forall p :: p in providerTags ==> p in contents
    ensures var s := RunPool(f, providerTags, StartPool(f, providerTags, contents), steps);
      s.resolved && (forall p :: p in providerTags ==> p !in s.dirty) ==>
        s.nodes == FreshNodes(f, providerTags, s.contents)
  {
    RunKeepsCoherent(f, providerTags, contents, steps);
    var s := RunPool(f, providerTags, StartPool(f, providerTags, contents), steps);
    if s.resolved && forall p :: p in providerTags ==> p !in s.dirty {
      FlattenFresh(f, providerTags, s.cache, s.contents);
    }
  }

  /** While every filtering resolves, a provider is dirty only if its last change came after its last callback. */
  lemma {:induction false} CallbackClearsDirt(f: NodeFilter, providerTags: seq<string>, s: PoolState,
                                              steps: seq<PoolStep>, p: string)
    requires p in providerTags && forall c :: c in steps && c.Callback? ==> c.staticsResolve
    requires forall c :: c in steps ==> !(c.Change? && c.p == p)
    ensures var s' := RunPool(f, providerTags, s, steps);
      p in s'.dirty <==> p in s.dirty && Callback(p, true) !in steps
  {
    if steps != [] {
      var init, last := steps[..|steps| - 1], steps[|steps| - 1];
      assert steps == init + [last];
      CallbackClearsDirt(f, providerTags, s, init, p);
    }
  }

  ghost predicate RemembersFresh(f: NodeFilter, providerTags: seq<string>, cache: Lists, contents: Lists) {
    forall q :: q in providerTags ==> Get(cache, q) == FreshOf(f, contents, q)
  }

  /** No provider but `p` is remembered by a list that is out of date; an empty one is never relied on. */
  ghost predicate OnlyStaleFor(f: NodeFilter, providerTags: seq<string>, cache: Lists, contents: Lists, p: string) {
    forall q :: q in providerTags && q != p && Get(cache, q) != [] ==> Get(cache, q) == FreshOf(f, contents, q)
  }

  /** The exact condition for a resolving callback to leave the whole cache right, and with it the nodes. */
  lemma CallbackRefreshesExactly(f: NodeFilter, providerTags: seq<string>, s: PoolState, p: string)
    requires p in providerTags && forall q :: q in providerTags ==> q in s.contents
    ensures var s' := ApplyPool(f, providerTags, s, Callback(p, true));
      && (RemembersFresh(f, providerTags, s'.cache, s'.contents) <==>
        OnlyStaleFor(f, providerTags, s.cache, s.contents, p))
      && (RemembersFresh(f, providerTags, s'.cache, s'.contents) ==>
        s'.nodes == FreshNodes(f, providerTags, s'.contents))
  {
    GatherClosedForm(f, providerTags, s.cache, s.contents, p);
    var s' := ApplyPool(f, providerTags, s, Callback(p, true));
    if RemembersFresh(f, providerTags, s'.cache, s'.contents) {
      FlattenFresh(f, providerTags, s'.cache, s'.contents);
    }
  }

  lemma TwoProviders(f: NodeFilter, p: string, q: string, cache: Lists, contents: Lists)
    ensures Flatten([p, q], cache) == Get(cache, p) + Get(cache, q)
    ensures FreshNodes(f, [p, q], contents) == FreshOf(f, contents, p) + FreshOf(f, contents, q)
  {
    var ps := [p, q];
    assert ps[..1] == [p] && ps[..1][..0] == [];
    assert [] + Get(cache, p) == Get(cache, p) && [] + FreshOf(f, contents, p) == FreshOf(f, contents, p);
    assert Flatten(ps[..1], cache) == Get(cache, p);
    assert FreshNodes(f, ps[..1], contents) == FreshOf(f, contents, p);
  }

  const ALL_PASS := NodeFilter(None, None)

  lemma AllPass(o: Outbound)
    ensures Filtered(ALL_PASS, [o]) == [o]
  {
    FilteredAppend(ALL_PASS, [], o);
    assert [] + [o] == [o];
  }

  /** A group of two providers `p` and `q`, the first listing `x`, after the first changed to `y` and its callback met
      a missing static outbound. */
  lemma AfterFailedCallback(p: string, q: string, x: Outbound, y: Outbound)
    requires p != q
    ensures var start := StartPool(ALL_PASS, [p, q], map[p := [x], q := []]);
      var s := RunPool(ALL_PASS, [p, q], start, [Change(p, [y])] + [Callback(p, false)]);
      Get(s.cache, p) == [x] && Get(s.cache, q) == [] && s.contents == map[p := [y], q := []]
  {
    var f, ps := ALL_PASS, [p, q];
    var contents: Lists := map[p := [x], q := []];
    var s0 := StartPool(f, ps, contents);
    assert Get(s0.cache, p) == [x] && Get(s0.cache, q) == [] by {
      AllPass(x);
      assert p in ps && q in ps && p in contents && q in contents;
      GatherClosedForm(f, ps, map[], contents, "");
    }
    var c1, c2 := Change(p, [y]), Callback(p, false);
    RunPoolAppend(f, ps, s0, [], c1);
    assert [] + [c1] == [c1];
    RunPoolAppend(f, ps, s0, [c1], c2);
  }

  lemma OtherCallbackLeavesStale(s: PoolState, p: string, q: string, x: Outbound, y: Outbound)
    requires p != q && x != y
    requires Get(s.cache, p) == [x] && Get(s.cache, q) == [] && s.contents == map[p := [y], q := []]
    ensures var s' := ApplyPool(ALL_PASS, [p, q], s, Callback(q, true));
      && s'.resolved && !RemembersFresh(ALL_PASS, [p, q], s'.cache, s'.contents)
      && s'.nodes == [x] && FreshNodes(ALL_PASS, [p, q], s'.contents) == [y]
  {
    var f, ps := ALL_PASS, [p, q];
    var s' := ApplyPool(f, ps, s, Callback(q, true));
    assert p in ps && q in ps;
    AllPass(y);
    assert !RemembersFresh(f, ps, s'.cache, s'.contents) by {
      CallbackRefreshesExactly(f, ps, s, q);
      assert !OnlyStaleFor(f, ps, s.cache, s.contents, q);
    }
    assert Get(s'.cache, p) == [x] && Get(s'.cache, q) == [] && s'.nodes == Flatten(ps, s'.cache) by {
      GatherClosedForm(f, ps, s.cache, s.contents, q);
    }
    TwoProviders(f, p, q, s'.cache, s'.contents);
    assert [x] + [] == [x] && [y] + [] == [y];
  }

  /** Without the condition on static outbounds the promise fails: provider `p` changes while a static outbound is
      missing, so its callback is spent on a failed filtering; when provider `q` next calls back the static one is
      there again, but the group still shows the old node of `p`. */
  lemma FailedFilteringLosesUpdate(p: string, q: string, x: Outbound, y: Outbound)
    requires p != q && x != y
    ensures var start := StartPool(ALL_PASS, [p, q], map[p := [x], q := []]);
      var steps := [Change(p, [y])] + [Callback(p, false)] + [Callback(q, true)];
      var s := RunPool(ALL_PASS, [p, q], start, steps);
      && s.resolved && !RemembersFresh(ALL_PASS, [p, q], s.cache, s.contents)
      && s.nodes == [x] && FreshNodes(ALL_PASS, [p, q], s.contents) == [y]
  {
    var s0 := StartPool(ALL_PASS, [p, q], map[p := [x], q := []]);
    var steps := [Change(p, [y])] + [Callback(p, false)];
    AfterFailedCallback(p, q, x, y);
    RunPoolAppend(ALL_PASS, [p, q], s0, steps, Callback(q, true));
    OtherCallbackLeavesStale(RunPool(ALL_PASS, [p, q], s0, steps), p, q, x, y);
  }

  lemma RunPoolAppend(f: NodeFilter, providerTags: seq<string>, s: PoolState, steps: seq<PoolStep>, step: PoolStep)
    ensures RunPool(f, providerTags, s, steps + [step]) ==
      ApplyPool(f, providerTags, RunPool(f, providerTags, s, steps), step)
  {
    assert (steps + [step])[..|steps|] == steps;
  }
}

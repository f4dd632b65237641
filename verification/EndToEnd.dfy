/** From a provider's refresh to the selector that shows its nodes. */
module EndToEnd {
  import opened Nodes
  import opened OutboundManager
  import opened ProviderRefresh
  import opened ProviderWorld
  import opened Interrupt
  import opened GroupPool
  import opened Selector

  /** What a selector reads of the world. */
  function Around(cfg: Config, w: World): Surroundings {
    Surroundings(t => Lookup(cfg, w.m, t), map q | q in w.providers :: w.providers[q].outbounds)
  }

  // ---------------------------------------------------------------------------
  // The whole system
  // ---------------------------------------------------------------------------

  /** `pending` collects the providers whose list changed since the last successful filtering on their behalf;
      `resolved` says whether the last filtering succeeded. */
  datatype System = System(w: World, s: SelectorState, pending: set<string>, resolved: bool)

  /** Providers refresh and close, static outbounds come and go, the selector's own providers call it back, users
      select, and connections are dialled and closed, in any order. */
  datatype SystemStep =
    | Provide(step: WorldStep)
    | Notify(p: string)
    | Use(use: SelectorStep)

  function Changed(step: WorldStep): set<string> {
    match step
    case Refresh(p, _, _) => {p}
    case CloseProvider(p) => {p}
    case Static(_) => {}
  }

  function ApplySystem(cfg: Config, c: SelectorConfig, sys: System, step: SystemStep): System {
    match step
    case Provide(ws) => sys.(w := ApplyWorld(cfg, sys.w, ws), pending := sys.pending + Changed(ws))
    case Notify(p) =>
      var around := Around(cfg, sys.w);
      if p !in c.providerTags then sys
      else
        var fails := FilterFails(c, around.resolve);
        sys.(s := CallbackState(c, sys.s, around, p),
             pending := if fails then sys.pending else sys.pending - {p},
             resolved := !fails)
    case Use(use) => if use.Callback? then sys else sys.(s := ApplySelector(c, sys.s, use))
  }

  function RunSystem(cfg: Config, c: SelectorConfig, sys: System, steps: seq<SystemStep>): System {
    if steps == [] then sys else ApplySystem(cfg, c, RunSystem(cfg, c, sys, steps[..|steps| - 1]), steps[|steps| - 1])
  }

  /** Where a run from the selector's successful start leads. */
  function Reached(cfg: Config, w: World, c: SelectorConfig, stored: string, steps: seq<SystemStep>): System
    requires SelectorStartState(c, Around(cfg, w), stored).Some?
  {
    RunSystem(cfg, c, System(w, SelectorStartState(c, Around(cfg, w), stored).value, {}, true), steps)
  }

  /** No change of the selector's own providers is waiting. */
  ghost predicate Settled(c: SelectorConfig, sys: System) {
    forall q :: q in c.providerTags ==> q !in sys.pending
  }

  // ---------------------------------------------------------------------------
  // What every run keeps, however refreshes turn out
  // ---------------------------------------------------------------------------

  ghost predicate CleanAreFresh(cfg: Config, c: SelectorConfig, sys: System) {
    forall q :: q in c.providerTags && q !in sys.pending ==>
      Get(sys.s.cache, q) == FreshOf(c.filter, Around(cfg, sys.w).contents, q)
  }

  ghost predicate PoolInvariant(cfg: Config, c: SelectorConfig, sys: System) {
    && FiledByTag(sys.w.m)
    && (forall q :: q in c.providerTags ==> q in sys.w.providers)
    && SelectorInvariant(c, sys.s)
    && CleanAreFresh(cfg, c, sys)
    && Originates(c, sys.s.outbounds, sys.s.cache)
    && (sys.resolved ==> ShowsNodes(c, sys.s.tags, Flatten(c.providerTags, sys.s.cache)))
  }

  lemma LookupResolvesByTag(cfg: Config, w: World)
    requires FiledByTag(w.m)
    ensures ResolvesByTag(Around(cfg, w).resolve)
  {
  }

  lemma NotifyKeepsPool(cfg: Config, c: SelectorConfig, sys: System, p: string)
    requires PoolInvariant(cfg, c, sys)
    ensures PoolInvariant(cfg, c, ApplySystem(cfg, c, sys, Notify(p)))
  {
    var around := Around(cfg, sys.w);
    if p in c.providerTags {
      LookupResolvesByTag(cfg, sys.w);
      var s' := CallbackState(c, sys.s, around, p);
      assert SelectorInvariant(c, s') by { CallbackKeeps(c, sys.s, around, p); }
      assert Originates(c, s'.outbounds, s'.cache) by { PoolOriginates(c, sys.s.cache, around, p); }
      if !FilterFails(c, around.resolve) { CallbackRefills(c, sys.s, around, p); }
    }
  }

  lemma ProvideKeepsPool(cfg: Config, c: SelectorConfig, sys: System, ws: WorldStep)
    requires PoolInvariant(cfg, c, sys)
    ensures PoolInvariant(cfg, c, ApplySystem(cfg, c, sys, Provide(ws)))
  {
    WorldKeepsFiling(cfg, sys.w, ws);
    var w' := ApplyWorld(cfg, sys.w, ws);
    forall q | q in c.providerTags && q !in sys.pending + Changed(ws)
      ensures Get(sys.s.cache, q) == FreshOf(c.filter, Around(cfg, w').contents, q)
    {
      assert w'.providers[q] == sys.w.providers[q];
    }
  }

  lemma UseKeepsPool(cfg: Config, c: SelectorConfig, sys: System, use: SelectorStep)
    requires PoolInvariant(cfg, c, sys)
    ensures PoolInvariant(cfg, c, ApplySystem(cfg, c, sys, Use(use)))
  {
    if !use.Callback? {
      StepKeepsSelector(c, sys.s, use);
      Selector.UseKeepsPool(c, sys.s, use);
      var sys' := ApplySystem(cfg, c, sys, Use(use));
      assert CleanAreFresh(cfg, c, sys') && Originates(c, sys'.s.outbounds, sys'.s.cache);
    }
  }

  lemma StepKeepsPool(cfg: Config, c: SelectorConfig, sys: System, step: SystemStep)
    requires PoolInvariant(cfg, c, sys)
    ensures PoolInvariant(cfg, c, ApplySystem(cfg, c, sys, step))
  {
    match step
    case Provide(ws) => ProvideKeepsPool(cfg, c, sys, ws);
    case Notify(p) => NotifyKeepsPool(cfg, c, sys, p);
    case Use(use) => UseKeepsPool(cfg, c, sys, use);
  }

  lemma StartFindsProviders(cfg: Config, w: World, c: SelectorConfig, stored: string)
    requires SelectorStartState(c, Around(cfg, w), stored).Some?
    ensures forall q :: q in c.providerTags ==> q in w.providers
  {
    forall q | q in c.providerTags ensures q in w.providers {
      var i :| 0 <= i < |c.providerTags| && c.providerTags[i] == q;
      assert c.providerTags[i] in Around(cfg, w).contents;
    }
  }

  lemma StartEstablishesPool(cfg: Config, w: World, c: SelectorConfig, stored: string)
    requires FiledByTag(w.m) && SelectorStartState(c, Around(cfg, w), stored).Some?
    ensures PoolInvariant(cfg, c, Reached(cfg, w, c, stored, []))
  {
    StartFindsProviders(cfg, w, c, stored);
    LookupResolvesByTag(cfg, w);
    GatherClosedForm(c.filter, c.providerTags, map[], Around(cfg, w).contents, "");
    PoolOriginates(c, map[], Around(cfg, w), "");
    RunKeepsSelector(c, Around(cfg, w), stored, []);
  }

  /** Over every run from a successful start, whatever options the refreshes bring and however they turn out: the
      selection stays sound, every covered connection goes through the selected object, the selector remembers of
      every own provider without a pending change that provider's list filtered afresh, and it offers nothing but
      static outbounds, the fallback and what it remembers. */
  lemma {:induction false} RunKeepsPool(cfg: Config, w: World, c: SelectorConfig, stored: string,
                                        steps: seq<SystemStep>)
    requires FiledByTag(w.m) && SelectorStartState(c, Around(cfg, w), stored).Some?
    ensures PoolInvariant(cfg, c, Reached(cfg, w, c, stored, steps))
  {
    if steps == [] {
      StartEstablishesPool(cfg, w, c, stored);
    } else {
      RunKeepsPool(cfg, w, c, stored, steps[..|steps| - 1]);
      StepKeepsPool(cfg, c, Reached(cfg, w, c, stored, steps[..|steps| - 1]), steps[|steps| - 1]);
    }
  }

  /** After any such run that leaves no change of the selector's own providers without a successful callback and
      whose last filtering resolved, the selector shows the static tags followed by every such provider's present
      outbounds, filtered afresh and in order. */
  lemma SystemShowsPresentNodes(cfg: Config, w: World, c: SelectorConfig, stored: string, steps: seq<SystemStep>)
    requires FiledByTag(w.m) && SelectorStartState(c, Around(cfg, w), stored).Some?
    ensures var sys := Reached(cfg, w, c, stored, steps);
      sys.resolved && Settled(c, sys) ==>
        ShowsNodes(c, sys.s.tags, FreshNodes(c.filter, c.providerTags, Around(cfg, sys.w).contents))
  {
    RunKeepsPool(cfg, w, c, stored, steps);
    var sys := Reached(cfg, w, c, stored, steps);
    if Settled(c, sys) {
      FlattenFresh(c.filter, c.providerTags, sys.s.cache, Around(cfg, sys.w).contents);
    }
  }

  /** Some own provider lists this outbound at present. */
  ghost predicate Listed(c: SelectorConfig, w: World, o: Outbound) {
    exists q :: q in c.providerTags && q in w.providers && o in w.providers[q].outbounds
  }

  lemma SelectedOriginates(cfg: Config, c: SelectorConfig, sys: System, o: Outbound)
    requires PoolInvariant(cfg, c, sys) && Settled(c, sys) && sys.s.selected == Some(o)
    ensures o.tag in c.deps || o.tag == COMPATIBLE_TAG || Listed(c, sys.w, o)
  {
    var t :| t in sys.s.outbounds && sys.s.outbounds[t] == o;
    if t !in c.deps && t != COMPATIBLE_TAG {
      var q :| q in c.providerTags && o in Get(sys.s.cache, q);
      FilteredMembers(c.filter, sys.w.providers[q].outbounds, o);
    }
  }

  /** After any such run with no change waiting, what is selected is a static outbound, the fallback, or an outbound
      that one of the selector's own providers lists at present; and covered connections go through it. */
  lemma SelectedIsPresent(cfg: Config, w: World, c: SelectorConfig, stored: string, steps: seq<SystemStep>, o: Outbound)
    requires FiledByTag(w.m) && SelectorStartState(c, Around(cfg, w), stored).Some?
    requires var sys := Reached(cfg, w, c, stored, steps); Settled(c, sys) && sys.s.selected == Some(o)
    ensures var sys := Reached(cfg, w, c, stored, steps);
      && (o.tag in c.deps || o.tag == COMPATIBLE_TAG || Listed(c, sys.w, o))
      && forall x :: x in sys.s.connections && Covered(x, c.interruptExternal) ==> x.conn.via == o
  {
    RunKeepsPool(cfg, w, c, stored, steps);
    SelectedOriginates(cfg, c, Reached(cfg, w, c, stored, steps), o);
  }

  // ---------------------------------------------------------------------------
  // Refreshes as the providers make them
  // ---------------------------------------------------------------------------

  /** What happens between two moments at which nothing is under way: a provider refreshes and then calls back, as an
      applied fetch and a file change do; a static outbound comes or goes; the selector is used. */
  datatype Event =
    | Refreshed(p: string, opts: seq<OutboundOption>, env: Env)
    | StaticChange(step: Step)
    | Used(use: SelectorStep)

  function Handle(cfg: Config, c: SelectorConfig, sys: System, e: Event): System {
    match e
    case Refreshed(p, opts, env) =>
      ApplySystem(cfg, c, ApplySystem(cfg, c, sys, Provide(Refresh(p, opts, env))), Notify(p))
    case StaticChange(step) => ApplySystem(cfg, c, sys, Provide(Static(step)))
    case Used(use) => ApplySystem(cfg, c, sys, Use(use))
  }

  function HandleAll(cfg: Config, c: SelectorConfig, sys: System, events: seq<Event>): System {
    if events == [] then sys
    else Handle(cfg, c, HandleAll(cfg, c, sys, events[..|events| - 1]), events[|events| - 1])
  }

  /** The static outbounds are there whenever an own provider calls back. */
  ghost predicate StaticsPresent(cfg: Config, c: SelectorConfig, sys: System, events: seq<Event>) {
    events != [] ==>
      var before, e := HandleAll(cfg, c, sys, events[..|events| - 1]), events[|events| - 1];
      && StaticsPresent(cfg, c, sys, events[..|events| - 1])
      && (e.Refreshed? && e.p in c.providerTags ==>
            !FilterFails(c, Around(cfg, ApplyWorld(cfg, before.w, Refresh(e.p, e.opts, e.env))).resolve))
  }

  lemma HandleKeepsSettled(cfg: Config, c: SelectorConfig, sys: System, e: Event)
    requires PoolInvariant(cfg, c, sys) && Settled(c, sys) && sys.resolved
    requires e.Refreshed? && e.p in c.providerTags ==>
      !FilterFails(c, Around(cfg, ApplyWorld(cfg, sys.w, Refresh(e.p, e.opts, e.env))).resolve)
    ensures var sys' := Handle(cfg, c, sys, e);
      PoolInvariant(cfg, c, sys') && Settled(c, sys') && sys'.resolved
  {
    match e
    case Refreshed(p, opts, env) =>
      ProvideKeepsPool(cfg, c, sys, Refresh(p, opts, env));
      NotifyKeepsPool(cfg, c, ApplySystem(cfg, c, sys, Provide(Refresh(p, opts, env))), p);
    case StaticChange(step) => ProvideKeepsPool(cfg, c, sys, Static(step));
    case Used(use) => UseKeepsPool(cfg, c, sys, use);
  }

  lemma {:induction false} EventsKeepSettled(cfg: Config, c: SelectorConfig, sys: System, events: seq<Event>)
    requires PoolInvariant(cfg, c, sys) && Settled(c, sys) && sys.resolved && StaticsPresent(cfg, c, sys, events)
    ensures var sys' := HandleAll(cfg, c, sys, events);
      PoolInvariant(cfg, c, sys') && Settled(c, sys') && sys'.resolved
  {
    if events != [] {
      EventsKeepSettled(cfg, c, sys, events[..|events| - 1]);
      HandleKeepsSettled(cfg, c, HandleAll(cfg, c, sys, events[..|events| - 1]), events[|events| - 1]);
    }
  }

  /** So as long as every refresh is followed by its callback, as both kinds of provider see to, and finds the static
      outbounds there, the selector always shows every provider's present outbounds, filtered afresh. */
  lemma CalledBackSelectorIsCurrent(cfg: Config, w: World, c: SelectorConfig, stored: string, events: seq<Event>)
    requires FiledByTag(w.m) && SelectorStartState(c, Around(cfg, w), stored).Some?
    requires StaticsPresent(cfg, c, Reached(cfg, w, c, stored, []), events)
    ensures var sys := HandleAll(cfg, c, Reached(cfg, w, c, stored, []), events);
      && ShowsNodes(c, sys.s.tags, FreshNodes(c.filter, c.providerTags, Around(cfg, sys.w).contents))
      && forall o :: sys.s.selected == Some(o) ==>
           o.tag in c.deps || o.tag == COMPATIBLE_TAG || Listed(c, sys.w, o)
  {
    StartEstablishesPool(cfg, w, c, stored);
    EventsKeepSettled(cfg, c, Reached(cfg, w, c, stored, []), events);
    var sys := HandleAll(cfg, c, Reached(cfg, w, c, stored, []), events);
    FlattenFresh(c.filter, c.providerTags, sys.s.cache, Around(cfg, sys.w).contents);
    if sys.s.selected.Some? { SelectedOriginates(cfg, c, sys, sys.s.selected.value); }
  }

  // ---------------------------------------------------------------------------
  // What every run of proper refreshes keeps
  // ---------------------------------------------------------------------------

  /** What the selector remembers of a provider lies below that provider's prefix. */
  ghost predicate RemembersOwn(c: SelectorConfig, cache: Lists) {
    forall q, x :: q in c.providerTags && x in Get(cache, q) ==> Under(q, x.tag)
  }

  ghost predicate SystemInvariant(cfg: Config, c: SelectorConfig, sys: System) {
    WorldInvariant(cfg, sys.w) && RemembersOwn(c, sys.s.cache) && PoolInvariant(cfg, c, sys)
  }

  /** Gathering keeps every provider's memory below its own prefix. */
  lemma GatherRemembersOwn(cfg: Config, c: SelectorConfig, w: World, cache: Lists, updated: string)
    requires WorldInvariant(cfg, w) && RemembersOwn(c, cache) && forall q :: q in c.providerTags ==> q in w.providers
    ensures RemembersOwn(c, Gather(c.filter, c.providerTags, cache, Around(cfg, w).contents, updated).1)
  {
    var contents := Around(cfg, w).contents;
    GatherClosedForm(c.filter, c.providerTags, cache, contents, updated);
    var cache' := Gather(c.filter, c.providerTags, cache, contents, updated).1;
    forall q, x: Outbound | q in c.providerTags && x in Get(cache', q) ensures Under(q, x.tag) {
      if x !in Get(cache, q) { FilteredMembers(c.filter, contents[q], x); }
    }
  }

  lemma StepKeepsOwn(cfg: Config, c: SelectorConfig, sys: System, step: SystemStep)
    requires SystemInvariant(cfg, c, sys)
    ensures RemembersOwn(c, ApplySystem(cfg, c, sys, step).s.cache)
  {
    match step
    case Provide(_) =>
    case Notify(p) => GatherRemembersOwn(cfg, c, sys.w, sys.s.cache, p);
    case Use(use) => if !use.Callback? { Selector.UseKeepsPool(c, sys.s, use); }
  }

  lemma StepKeepsSystem(cfg: Config, c: SelectorConfig, sys: System, step: SystemStep)
    requires SystemInvariant(cfg, c, sys)
    requires step.Provide? ==> Proper(sys.w.providers.Keys, step.step)
    ensures SystemInvariant(cfg, c, ApplySystem(cfg, c, sys, step))
    ensures ApplySystem(cfg, c, sys, step).w.providers.Keys == sys.w.providers.Keys
  {
    var sys' := ApplySystem(cfg, c, sys, step);
    assert PoolInvariant(cfg, c, sys') by { StepKeepsPool(cfg, c, sys, step); }
    assert RemembersOwn(c, sys'.s.cache) by { StepKeepsOwn(cfg, c, sys, step); }
    if step.Provide? { StepKeepsWorld(cfg, sys.w, step.step); }
  }

  lemma StartEstablishesSystem(cfg: Config, w: World, c: SelectorConfig, stored: string)
    requires WorldInvariant(cfg, w) && SelectorStartState(c, Around(cfg, w), stored).Some?
    ensures SystemInvariant(cfg, c, Reached(cfg, w, c, stored, []))
  {
    StartEstablishesPool(cfg, w, c, stored);
    StartFindsProviders(cfg, w, c, stored);
    GatherRemembersOwn(cfg, c, w, map[], "");
  }

  /** With distinct non-empty tags and successful creations, every run keeps besides: each provider owns exactly what
      the registry holds below its prefix, and what the selector remembers of a provider lies below it. */
  lemma {:induction false} RunKeepsSystem(cfg: Config, c: SelectorConfig, sys: System, steps: seq<SystemStep>)
    requires SystemInvariant(cfg, c, sys)
    requires forall x :: x in steps && x.Provide? ==> Proper(sys.w.providers.Keys, x.step)
    ensures SystemInvariant(cfg, c, RunSystem(cfg, c, sys, steps))
    ensures RunSystem(cfg, c, sys, steps).w.providers.Keys == sys.w.providers.Keys
  {
    if steps != [] {
      var init, last := steps[..|steps| - 1], steps[|steps| - 1];
      assert steps == init + [last];
      RunKeepsSystem(cfg, c, sys, init);
      assert last in steps;
      StepKeepsSystem(cfg, c, RunSystem(cfg, c, sys, init), last);
    }
  }

  /** After any such run with no change waiting, a selected provider node is the registry's present object for its
      tag, never a replaced or removed one. */
  lemma SelectedNodeIsLive(cfg: Config, w: World, c: SelectorConfig, stored: string, steps: seq<SystemStep>,
                           o: Outbound)
    requires WorldInvariant(cfg, w) && SelectorStartState(c, Around(cfg, w), stored).Some?
    requires forall x :: x in steps && x.Provide? ==> Proper(w.providers.Keys, x.step)
    requires var sys := Reached(cfg, w, c, stored, steps); Settled(c, sys) && sys.s.selected == Some(o)
    ensures o.tag in c.deps || o.tag == COMPATIBLE_TAG ||
            IndexAt(Reached(cfg, w, c, stored, steps).w.m, o.tag) == Some(o)
  {
    StartEstablishesSystem(cfg, w, c, stored);
    RunKeepsSystem(cfg, c, Reached(cfg, w, c, stored, []), steps);
    SelectedOriginates(cfg, c, Reached(cfg, w, c, stored, steps), o);
  }

  // ---------------------------------------------------------------------------
  // A refresh that does not touch the selection
  // ---------------------------------------------------------------------------

  /** An option that the refresh finds unchanged keeps the very object registered for it. */
  lemma UnchangedOptionKeepsObject(cfg: Config, w: World, p: string, opts: seq<OutboundOption>, env: Env, o: Outbound)
    requires WorldInvariant(cfg, w) && p in w.providers && TaggedOptions(opts) && Smooth(env)
    requires o in w.providers[p].outbounds && o.origin in opts
    ensures var w' := ApplyWorld(cfg, w, Refresh(p, opts, env));
      IndexAt(w'.m, o.tag) == Some(o) && p in w'.providers && o in w'.providers[p].outbounds
  {
    var pr := w.providers[p];
    var i :| 0 <= i < |opts| && opts[i] == o.origin;
    var j :| 0 <= j < |pr.outbounds| && pr.outbounds[j] == o;
    assert pr.outbounds[j].tag == FullTag(p, j, pr.lastOpts[j]) && o.origin == pr.lastOpts[j];
    assert FullTag(p, i, opts[i]) == o.tag;
    OldOptionFound(pr.lastOpts, j);
    TaggedOptionsDistinct(p, opts);
    RefreshEffect(cfg, w.m, pr, pr.lastOpts, opts, env);
    var w' := ApplyWorld(cfg, w, Refresh(p, opts, env));
    assert IndexAt(w'.m, FullTag(p, i, opts[i])) == ProviderRefresh.Settled(cfg, w.m, p, pr.lastOpts, opts, env, i);
    RefreshKeepsOwner(cfg, w, p, opts, env);
    assert w'.m.outboundByTag[o.tag] in w'.providers[p].outbounds by { FullTagUnder(p, i, opts[i]); }
  }

  /** Whatever the registry answers for a tag, a refresh leaves it so unless the tag lies below the refreshed
      provider's prefix and its option changed. */
  lemma UnaffectedAnswerStays(cfg: Config, w: World, p: string, opts: seq<OutboundOption>, env: Env, o: Outbound)
    requires WorldInvariant(cfg, w) && p in w.providers && TaggedOptions(opts) && Smooth(env)
    requires Lookup(cfg, w.m, o.tag) == Some(o) && (Under(p, o.tag) ==> o.origin in opts)
    ensures Lookup(cfg, ApplyWorld(cfg, w, Refresh(p, opts, env)).m, o.tag) == Some(o)
  {
    if Under(p, o.tag) {
      assert o.tag in w.m.outboundByTag && o in w.providers[p].outbounds;
      UnchangedOptionKeepsObject(cfg, w, p, opts, env, o);
    } else {
      RefreshKeepsOwner(cfg, w, p, opts, env);
      assert IndexAt(ApplyWorld(cfg, w, Refresh(p, opts, env)).m, o.tag) == IndexAt(w.m, o.tag);
    }
  }

  /** A refresh of provider `p` brought the world to `w'`; the registry answers `o` for `o`'s tag before and after,
      and of the providers with a waiting change only `p` may have that tag. */
  ghost predicate Unaffected(cfg: Config, c: SelectorConfig, sys: System, w': World, p: string, o: Outbound) {
    && SystemInvariant(cfg, c, sys) && WorldInvariant(cfg, w') && w'.providers.Keys == sys.w.providers.Keys
    && Lookup(cfg, sys.w.m, o.tag) == Some(o) && Lookup(cfg, w'.m, o.tag) == Some(o)
    && forall q :: q in c.providerTags && q in sys.pending && q != p ==> !Under(q, o.tag)
  }

  lemma ListedIsAnswered(cfg: Config, w: World, q: string, x: Outbound)
    requires WorldInvariant(cfg, w) && q in w.providers && x in w.providers[q].outbounds
    ensures Lookup(cfg, w.m, x.tag) == Some(x)
  {
    assert IndexAt(w.m, x.tag) == Some(x);
  }

  /** Whatever the gathering finds under `o`'s tag is `o`: a fresh node is what the registry answers now, and one
      from another provider's cache is what it answered before. */
  lemma GatheredIsKept(cfg: Config, c: SelectorConfig, sys: System, w': World, p: string, o: Outbound, x: Outbound)
    requires Unaffected(cfg, c, sys, w', p, o) && x.tag == o.tag
    requires x in Gather(c.filter, c.providerTags, sys.s.cache, Around(cfg, w').contents, p).0
    ensures x == o
  {
    var contents, cache := Around(cfg, w').contents, sys.s.cache;
    GatherClosedForm(c.filter, c.providerTags, cache, contents, p);
    var (nodes, cache') := Gather(c.filter, c.providerTags, cache, contents, p);
    FlattenMembers(c.providerTags, cache', x);
    var q :| q in c.providerTags && x in Get(cache', q);
    if x in FreshOf(c.filter, contents, q) {
      FilteredMembers(c.filter, contents[q], x);
      ListedIsAnswered(cfg, w', q, x);
    } else {
      assert q != p && x in Get(cache, q) && Under(q, x.tag) && q !in sys.pending;
      assert x in FreshOf(c.filter, Around(cfg, sys.w).contents, q);
      FilteredMembers(c.filter, Around(cfg, sys.w).contents[q], x);
      ListedIsAnswered(cfg, sys.w, q, x);
    }
  }

  /** The selector's new pool holds, under any key, no other object with `o`'s tag, be that a provider's node, a
      static outbound or the fallback. */
  lemma PoolHoldsKept(cfg: Config, c: SelectorConfig, sys: System, w': World, p: string, o: Outbound, key: string)
    requires Unaffected(cfg, c, sys, w', p, o)
    ensures var pool := FilterPool(c, sys.s.cache, Around(cfg, w'), p).0;
      pool.Filled? && key in pool.byTag && pool.byTag[key].tag == o.tag ==> pool.byTag[key] == o
  {
    var around := Around(cfg, w');
    var pool := FilterPool(c, sys.s.cache, around, p).0;
    if pool.Filled? && key in pool.byTag && pool.byTag[key].tag == o.tag {
      LookupResolvesByTag(cfg, w');
      PoolSources(c, sys.s.cache, around, p, key);
      if pool.byTag[key] in Gather(c.filter, c.providerTags, sys.s.cache, around.contents, p).0 {
        GatheredIsKept(cfg, c, sys, w', p, o, pool.byTag[key]);
      }
    }
  }

  lemma ChoiceIsInPool(c: SelectorConfig, stored: string, tags: seq<string>, byTag: map<string, Outbound>)
    ensures var pick := Choose(c, stored, tags, byTag); pick.Some? ==>
      exists key :: key in byTag && byTag[key] == pick.value
  {
  }

  /** The filtering for provider `p` succeeds and the rule picks an outbound with this tag. */
  ghost predicate PicksTag(cfg: Config, w: World, c: SelectorConfig, s: SelectorState, p: string, tag: string) {
    var pool := FilterPool(c, s.cache, Around(cfg, w), p).0;
    pool.Filled? && var pick := Choose(c, s.stored, pool.tags, pool.byTag); pick.Some? && pick.value.tag == tag
  }

  lemma PickIsKept(cfg: Config, c: SelectorConfig, sys: System, w': World, p: string, o: Outbound)
    requires Unaffected(cfg, c, sys, w', p, o) && PicksTag(cfg, w', c, sys.s, p, o.tag)
    ensures var pool := FilterPool(c, sys.s.cache, Around(cfg, w'), p).0;
      pool.Filled? && Choose(c, sys.s.stored, pool.tags, pool.byTag) == Some(o)
  {
    var pool := FilterPool(c, sys.s.cache, Around(cfg, w'), p).0;
    ChoiceIsInPool(c, sys.s.stored, pool.tags, pool.byTag);
    var pick := Choose(c, sys.s.stored, pool.tags, pool.byTag).value;
    var key :| key in pool.byTag && pool.byTag[key] == pick;
    PoolHoldsKept(cfg, c, sys, w', p, o, key);
  }

  lemma SamePickChangesNothing(c: SelectorConfig, s: SelectorState, around: Surroundings, p: string)
    requires var pool := FilterPool(c, s.cache, around, p).0;
      pool.Filled? && Choose(c, s.stored, pool.tags, pool.byTag) == s.selected
    ensures var s' := CallbackState(c, s, around, p);
      s'.selected == s.selected && s'.connections == s.connections
  {
  }

  /** Whatever is selected, a node of the refreshed provider, a node of another, a static outbound or the fallback, as
      long as the registry still answers it for its tag: if the refresh leaves the selector's rule picking the same
      tag and does not change that tag's option, the very same outbound object stays selected and no tracked
      connection is interrupted. Changes of other providers may wait, but not one that could have moved this tag. */
  lemma UnaffectedSelectionSurvives(cfg: Config, sys: System, c: SelectorConfig, p: string, opts: seq<OutboundOption>,
                                    env: Env, o: Outbound)
    requires SystemInvariant(cfg, c, sys) && p in sys.w.providers && TaggedOptions(opts) && Smooth(env)
    requires sys.s.selected == Some(o) && Lookup(cfg, sys.w.m, o.tag) == Some(o)
    requires Under(p, o.tag) ==> o.origin in opts
    requires forall q :: q in c.providerTags && q in sys.pending && q != p ==> !Under(q, o.tag)
    requires PicksTag(cfg, ApplyWorld(cfg, sys.w, Refresh(p, opts, env)), c, sys.s, p, o.tag)
    ensures var sys' := ApplySystem(cfg, c, ApplySystem(cfg, c, sys, Provide(Refresh(p, opts, env))), Notify(p));
      sys'.s.selected == sys.s.selected && sys'.s.connections == sys.s.connections
  {
    var w' := ApplyWorld(cfg, sys.w, Refresh(p, opts, env));
    StepKeepsWorld(cfg, sys.w, Refresh(p, opts, env));
    UnaffectedAnswerStays(cfg, sys.w, p, opts, env, o);
    PickIsKept(cfg, c, sys, w', p, o);
    SamePickChangesNothing(c, sys.s, Around(cfg, w'), p);
  }
}

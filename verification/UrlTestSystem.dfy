/** A URL-test group beside the registry and the providers that feed it. */
module UrlTestSystem {
  import opened Nodes
  import opened OutboundManager
  import opened ProviderWorld
  import opened GroupPool
  import opened UrlTest
  import opened UrlTestPool
  import EndToEnd

  function Around(cfg: Config, w: World): Surroundings { EndToEnd.Around(cfg, w) }

  /** `pending` collects the providers whose list changed since the last successful filtering on their behalf;
      `resolved` says whether the last filtering found every static outbound, and `seen` what the registry answered
      in the last that did. A crash stops everything. */
  datatype System = System(
    w: World,
    u: UrlTestState,
    pending: set<string>,
    resolved: bool,
    seen: string -> Option<Outbound>,
    crashed: bool)

  /** Providers refresh and close, static outbounds come and go, the group's own providers call it back, and checks
      run, in any order; nothing is assumed of how they turn out. */
  datatype SystemStep =
    | Provide(step: WorldStep)
    | Notify(p: string, probe: Probe)
    | CheckNow(force: bool, probe: Probe)

  function ApplySystem(cfg: Config, c: UrlTestConfig, sys: System, step: SystemStep): System {
    var around := Around(cfg, sys.w);
    if sys.crashed then sys
    else
      match step
      case Provide(ws) => sys.(w := ApplyWorld(cfg, sys.w, ws), pending := sys.pending + EndToEnd.Changed(ws))
      case Notify(p, probe) =>
        if p !in c.providerTags then sys
        else
          var (u, crashed) := CallbackState(c, sys.u, around, p, probe);
          if StaticsResolve(around.resolve, c.deps)
          then System(sys.w, u, sys.pending - {p}, true, around.resolve, crashed)
          else sys.(u := u, resolved := false)
      case CheckNow(force, probe) =>
        sys.(u := sys.u.(group := CheckState(c.group, sys.u.group, force, t => around.resolve(t).Some?, probe)))
  }

  function RunSystem(cfg: Config, c: UrlTestConfig, sys: System, steps: seq<SystemStep>): System {
    if steps == [] then sys else ApplySystem(cfg, c, RunSystem(cfg, c, sys, steps[..|steps| - 1]), steps[|steps| - 1])
  }

  /** What the system shows of its pool, given the nodes it gathered. */
  ghost predicate Shows(c: UrlTestConfig, sys: System, nodes: seq<Outbound>) {
    if sys.resolved then ShowsPool(sys.seen, c.deps, nodes, sys.u.tags, sys.u.group.outbounds)
    else sys.u.tags == [] && sys.u.group.outbounds == []
  }

  ghost predicate SystemInvariant(cfg: Config, c: UrlTestConfig, sys: System) {
    && (forall q :: q in c.providerTags ==> q in sys.w.providers)
    && (forall q :: q in c.providerTags && q !in sys.pending ==>
          Get(sys.u.cache, q) == FreshOf(c.filter, Around(cfg, sys.w).contents, q))
    && (!sys.crashed ==> Shows(c, sys, Flatten(c.providerTags, sys.u.cache)))
  }

  lemma NotifyKeepsSystem(cfg: Config, c: UrlTestConfig, sys: System, p: string, probe: Probe)
    requires SystemInvariant(cfg, c, sys)
    ensures SystemInvariant(cfg, c, ApplySystem(cfg, c, sys, Notify(p, probe)))
  {
    var around := Around(cfg, sys.w);
    if p in c.providerTags && StaticsResolve(around.resolve, c.deps) {
      CallbackRefills(c, sys.u, around, p, probe);
    }
  }

  lemma ProvideKeepsSystem(cfg: Config, c: UrlTestConfig, sys: System, ws: WorldStep)
    requires SystemInvariant(cfg, c, sys)
    ensures SystemInvariant(cfg, c, ApplySystem(cfg, c, sys, Provide(ws)))
  {
    if !sys.crashed {
      var w' := ApplyWorld(cfg, sys.w, ws);
      assert w'.providers.Keys == sys.w.providers.Keys;
      forall q | q in c.providerTags && q !in sys.pending + EndToEnd.Changed(ws)
        ensures Get(sys.u.cache, q) == FreshOf(c.filter, Around(cfg, w').contents, q)
      {
        assert w'.providers[q] == sys.w.providers[q];
      }
    }
  }

  lemma StepKeepsSystem(cfg: Config, c: UrlTestConfig, sys: System, step: SystemStep)
    requires SystemInvariant(cfg, c, sys)
    ensures SystemInvariant(cfg, c, ApplySystem(cfg, c, sys, step))
  {
    match step
    case Provide(ws) => ProvideKeepsSystem(cfg, c, sys, ws);
    case Notify(p, probe) => NotifyKeepsSystem(cfg, c, sys, p, probe);
    case CheckNow(force, probe) =>
  }

  /** The system right after a successful start. */
  function Begin(cfg: Config, w: World, u: UrlTestState): System {
    System(w, u, {}, true, Around(cfg, w).resolve, false)
  }

  lemma StartEstablishesSystem(cfg: Config, w: World, c: UrlTestConfig, history: Histories)
    requires UrlTestStartState(c, Around(cfg, w), history).Running?
    ensures SystemInvariant(cfg, c, Begin(cfg, w, UrlTestStartState(c, Around(cfg, w), history).s))
  {
    var around := Around(cfg, w);
    forall q | q in c.providerTags ensures q in w.providers {
      var i :| 0 <= i < |c.providerTags| && c.providerTags[i] == q;
      assert c.providerTags[i] in around.contents;
    }
    GatherClosedForm(c.filter, c.providerTags, map[], around.contents, "");
    PoolOutcomes(around.resolve, c.deps, Gather(c.filter, c.providerTags, map[], around.contents, "").0);
  }

  /** Where a run from a successful start leads. */
  function Reached(cfg: Config, w: World, c: UrlTestConfig, history: Histories, steps: seq<SystemStep>): System
    requires UrlTestStartState(c, Around(cfg, w), history).Running?
  {
    RunSystem(cfg, c, Begin(cfg, w, UrlTestStartState(c, Around(cfg, w), history).s), steps)
  }

  /** Over every run from a successful start, with no assumption on refreshes or registry: the group remembers of
      every own provider without a pending change that provider's list filtered afresh, and shows its static
      outbounds followed by what it remembers, or nothing after a filtering that missed a static outbound. */
  lemma {:induction false} RunKeepsSystem(cfg: Config, w: World, c: UrlTestConfig, history: Histories,
                                          steps: seq<SystemStep>)
    requires UrlTestStartState(c, Around(cfg, w), history).Running?
    ensures SystemInvariant(cfg, c, Reached(cfg, w, c, history, steps))
  {
    if steps == [] {
      StartEstablishesSystem(cfg, w, c, history);
    } else {
      var init, last := steps[..|steps| - 1], steps[|steps| - 1];
      RunKeepsSystem(cfg, w, c, history, init);
      StepKeepsSystem(cfg, c, Reached(cfg, w, c, history, init), last);
    }
  }

  ghost predicate Settled(c: UrlTestConfig, sys: System) {
    forall q :: q in c.providerTags ==> q !in sys.pending
  }

  /** Whenever no change of the group's own providers is waiting and nothing crashed, the tags and the outbounds of
      the group are the static ones followed by every provider's present list filtered afresh, in order, or the
      "Compatible" fallback; or nothing at all while a static outbound is missing. */
  lemma GroupShowsPresentNodes(cfg: Config, w: World, c: UrlTestConfig, history: Histories, steps: seq<SystemStep>)
    requires UrlTestStartState(c, Around(cfg, w), history).Running?
    ensures var sys := Reached(cfg, w, c, history, steps);
      Settled(c, sys) && !sys.crashed ==>
        Shows(c, sys, FreshNodes(c.filter, c.providerTags, Around(cfg, sys.w).contents))
  {
    RunKeepsSystem(cfg, w, c, history, steps);
    var sys := Reached(cfg, w, c, history, steps);
    if Settled(c, sys) {
      FlattenFresh(c.filter, c.providerTags, sys.u.cache, Around(cfg, sys.w).contents);
    }
  }

  /** After any run that leaves no other own provider's change waiting, the outcome of a callback is decided by the
      present state of registry and providers: it empties the group exactly when a static outbound is missing, and
      crashes exactly when there is no static outbound, no present node passes the filter and "Compatible" does not
      resolve; otherwise the group shows what is present. */
  lemma NotifyOutcomesExactly(cfg: Config, w: World, c: UrlTestConfig, history: Histories, steps: seq<SystemStep>,
                              p: string, probe: Probe)
    requires UrlTestStartState(c, Around(cfg, w), history).Running? && p in c.providerTags
    requires var before := Reached(cfg, w, c, history, steps);
      !before.crashed && forall q :: q in c.providerTags && q != p ==> q !in before.pending
    ensures var before := Reached(cfg, w, c, history, steps);
      var after := ApplySystem(cfg, c, before, Notify(p, probe));
      var around := Around(cfg, before.w);
      var present := FreshNodes(c.filter, c.providerTags, around.contents);
      && (after.resolved <==> StaticsResolve(around.resolve, c.deps))
      && (after.crashed <==> c.deps == [] && present == [] && around.resolve(COMPATIBLE_TAG).None?)
      && (!after.resolved ==> after.u.tags == [] && after.u.group.outbounds == [] && after.u.cache == before.u.cache)
      && (after.resolved && !after.crashed ==>
            ShowsPool(around.resolve, c.deps, present, after.u.tags, after.u.group.outbounds))
  {
    RunKeepsSystem(cfg, w, c, history, steps);
    var before := Reached(cfg, w, c, history, steps);
    NotifyOutcome(cfg, c, before, p, probe);
  }

  lemma NotifyOutcome(cfg: Config, c: UrlTestConfig, before: System, p: string, probe: Probe)
    requires SystemInvariant(cfg, c, before) && p in c.providerTags
    requires !before.crashed && forall q :: q in c.providerTags && q != p ==> q !in before.pending
    ensures var after := ApplySystem(cfg, c, before, Notify(p, probe));
      var around := Around(cfg, before.w);
      var present := FreshNodes(c.filter, c.providerTags, around.contents);
      && (after.resolved <==> StaticsResolve(around.resolve, c.deps))
      && (after.crashed <==> c.deps == [] && present == [] && around.resolve(COMPATIBLE_TAG).None?)
      && (!after.resolved ==> after.u.tags == [] && after.u.group.outbounds == [] && after.u.cache == before.u.cache)
      && (after.resolved && !after.crashed ==>
            ShowsPool(around.resolve, c.deps, present, after.u.tags, after.u.group.outbounds))
  {
    var around := Around(cfg, before.w);
    if StaticsResolve(around.resolve, c.deps) {
      CallbackRefills(c, before.u, around, p, probe);
      FlattenFresh(c.filter, c.providerTags, CallbackState(c, before.u, around, p, probe).0.cache, around.contents);
    }
  }
}

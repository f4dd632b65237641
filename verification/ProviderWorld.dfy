/** Several providers and the static configuration sharing one registry. */
module ProviderWorld {
  import opened Nodes
  import opened OutboundManager
  import opened ProviderRefresh

  datatype World = World(m: State, providers: map<string, Provider>)

  datatype WorldStep =
    | Refresh(p: string, opts: seq<OutboundOption>, env: Env)
    | CloseProvider(p: string)
    | Static(step: Step)

  function CloseProviderState(m: State, pr: Provider): (State, Provider) {
    (RemoveDropped(m, pr.outbounds, []), pr.(outbounds := []))
  }

  /** A refresh as both callers make it: against the options of the last successful one. */
  function RefreshFromLast(cfg: Config, m: State, pr: Provider, opts: seq<OutboundOption>, env: Env): (State, Provider)
  {
    var (m', pr') := RefreshState(cfg, m, pr, pr.lastOpts, opts, env);
    (m', pr'.(lastOpts := opts))
  }

  function ApplyWorld(cfg: Config, w: World, s: WorldStep): World {
    match s
    case Refresh(p, opts, env) =>
      if p !in w.providers then w
      else var (m', pr') := RefreshFromLast(cfg, w.m, w.providers[p], opts, env); World(m', w.providers[p := pr'])
    case CloseProvider(p) =>
      if p !in w.providers then w
      else var (m', pr') := CloseProviderState(w.m, w.providers[p]); World(m', w.providers[p := pr'])
    case Static(step) => w.(m := Apply(cfg, w.m, step))
  }

  function RunWorld(cfg: Config, w: World, steps: seq<WorldStep>): World {
    if steps == [] then w else ApplyWorld(cfg, RunWorld(cfg, w, steps[..|steps| - 1]), steps[|steps| - 1])
  }

  // ---------------------------------------------------------------------------
  // Namespaces
  // ---------------------------------------------------------------------------

  predicate SlashFree(p: string) { '/' !in p }

  /** Whether a registry tag lies below a provider's prefix. */
  predicate Under(p: string, tag: string) { p + "/" <= tag }

  lemma {:induction false} SlashEndsPrefix(p: string, tag: string)
    requires SlashFree(p) && Under(p, tag)
    ensures '/' in tag && IndexOf(tag, '/') == |p| && tag[..|p|] == p
  {
    assert tag[|p|] == (p + "/")[|p|];
    if p != "" {
      assert tag[0] == (p + "/")[0] == p[0];
      assert (p + "/")[1..] == p[1..] + "/" && tag[..|p| + 1] == p + "/";
      assert tag[1..][..|p|] == p[1..] + "/";
      SlashEndsPrefix(p[1..], tag[1..]);
    }
  }

  /** Two slash-free providers never share a registry tag. */
  lemma NamespacesDisjoint(p: string, q: string, tag: string)
    requires SlashFree(p) && SlashFree(q) && Under(p, tag) && Under(q, tag)
    ensures p == q
  {
    SlashEndsPrefix(p, tag);
    SlashEndsPrefix(q, tag);
  }

  lemma FullTagUnder(p: string, i: nat, opt: OutboundOption)
    ensures Under(p, FullTag(p, i, opt))
    ensures opt.tag != "" ==> FullTag(p, i, opt)[|p| + 1..] == opt.tag
  {
    if opt.tag != "" { assert FullTag(p, i, opt) == (p + "/") + opt.tag; }
  }

  ghost predicate TaggedOptions(opts: seq<OutboundOption>) {
    && (forall i :: 0 <= i < |opts| ==> opts[i].tag != "")
    && forall i, j :: 0 <= i < j < |opts| ==> opts[i].tag != opts[j].tag
  }

  lemma TaggedOptionsDistinct(p: string, opts: seq<OutboundOption>)
    requires TaggedOptions(opts)
    ensures Distinct(FullTags(p, opts))
  {
    var tags := FullTags(p, opts);
    forall i, j | 0 <= i < j < |tags| ensures tags[i] != tags[j] {
      FullTagUnder(p, i, opts[i]);
      FullTagUnder(p, j, opts[j]);
    }
  }

  lemma OldOptionFound(opts: seq<OutboundOption>, j: nat)
    requires TaggedOptions(opts) && j < |opts|
    ensures OldOption(opts, opts[j].tag) == opts[j]
  {
    LastOptionFound(opts, j);
  }

  // ---------------------------------------------------------------------------
  // The invariant
  // ---------------------------------------------------------------------------

  /** What the configuration promises: slash-free provider tags, and no endpoint below a provider's prefix. */
  ghost predicate Separated(cfg: Config, providers: set<string>) {
    forall p :: p in providers ==> SlashFree(p) && forall t :: t in TagSet(cfg.endpoints) ==> !Under(p, t)
  }

  /** One provider's part: the registry holds below its prefix exactly the outbounds it lists, and unless it is
      closed those follow its last options one for one. */
  ghost predicate Owned(m: State, pr: Provider) {
    && TaggedOptions(pr.lastOpts)
    && (forall o :: o in pr.outbounds ==> IndexAt(m, o.tag) == Some(o) && Under(pr.tag, o.tag))
    && (forall t :: t in m.outboundByTag && Under(pr.tag, t) ==> m.outboundByTag[t] in pr.outbounds)
    && (pr.outbounds != [] ==> FollowsOptions(pr, pr.lastOpts))
  }

  ghost predicate FollowsOptions(pr: Provider, opts: seq<OutboundOption>) {
    && |pr.outbounds| == |opts|
    && forall i :: 0 <= i < |opts| ==>
      pr.outbounds[i].tag == FullTag(pr.tag, i, opts[i]) && pr.outbounds[i].origin == opts[i]
  }

  ghost predicate WorldInvariant(cfg: Config, w: World) {
    && FiledByTag(w.m)
    && Separated(cfg, w.providers.Keys)
    && forall p :: p in w.providers ==> w.providers[p].tag == p && Owned(w.m, w.providers[p])
  }

  /** Refreshes bring distinct non-empty tags and build without failure; static changes keep out of the prefixes. */
  ghost predicate Proper(providers: set<string>, s: WorldStep) {
    match s
    case Refresh(p, opts, env) => TaggedOptions(opts) && Smooth(env)
    case CloseProvider(p) => true
    case Static(Create(tag, option, env)) => forall p :: p in providers ==> !Under(p, tag)
    case Static(Remove(tag)) => forall p :: p in providers ==> !Under(p, tag)
    case Static(_) => true
  }

  /** Under the invariant a refresh is safe: what it keeps was built from the option it is kept for. */
  lemma ProviderRefreshIsSafe(cfg: Config, w: World, p: string, opts: seq<OutboundOption>, env: Env)
    requires WorldInvariant(cfg, w) && p in w.providers && TaggedOptions(opts) && Smooth(env)
    ensures RefreshIsSafe(cfg, w.m, p, w.providers[p].lastOpts, opts, env)
  {
    var pr := w.providers[p];
    forall i | 0 <= i < |opts| ensures SlotIsSafe(cfg, w.m, p, pr.lastOpts, opts, env, i) {
      var tag := FullTag(p, i, opts[i]);
      FullTagUnder(p, i, opts[i]);
      if Reusable(cfg, w.m, tag, pr.lastOpts, opts[i]) {
        var o := w.m.outboundByTag[tag];
        assert o in pr.outbounds;
        var j :| 0 <= j < |pr.outbounds| && pr.outbounds[j] == o;
        FullTagUnder(p, j, pr.lastOpts[j]);
        OldOptionFound(pr.lastOpts, j);
      }
    }
  }

  lemma ListedUnder(m: State, pr: Provider, t: string)
    requires Owned(m, pr) && t in TagSet(pr.outbounds)
    ensures Under(pr.tag, t)
  {
    var o :| o in pr.outbounds && o.tag == t;
  }

  lemma PlannedUnder(p: string, opts: seq<OutboundOption>, t: string)
    requires t in FullTags(p, opts)
    ensures Under(p, t)
  {
    var i :| 0 <= i < |opts| && FullTags(p, opts)[i] == t;
    FullTagUnder(p, i, opts[i]);
  }

  /** A refresh moves no registry entry outside the provider's prefix. */
  lemma RefreshStaysInside(cfg: Config, m: State, pr: Provider, opts: seq<OutboundOption>, env: Env, t: string)
    requires Owned(m, pr) && Distinct(FullTags(pr.tag, opts)) && !Under(pr.tag, t)
    ensures IndexAt(RefreshFromLast(cfg, m, pr, opts, env).0, t) == IndexAt(m, t)
  {
    RefreshEffect(cfg, m, pr, pr.lastOpts, opts, env);
    if t in FullTags(pr.tag, opts) { PlannedUnder(pr.tag, opts, t); }
    if t in TagSet(pr.outbounds) { ListedUnder(m, pr, t); }
  }

  /** Below the prefix only the planned tags are left. */
  lemma RefreshLeavesPlanned(cfg: Config, m: State, pr: Provider, opts: seq<OutboundOption>, env: Env, t: string)
    requires Owned(m, pr) && FiledByTag(m) && Distinct(FullTags(pr.tag, opts)) && Under(pr.tag, t)
    requires t in RefreshFromLast(cfg, m, pr, opts, env).0.outboundByTag
    ensures t in FullTags(pr.tag, opts)
  {
    RefreshEffect(cfg, m, pr, pr.lastOpts, opts, env);
    if t in m.outboundByTag {
      assert m.outboundByTag[t] in pr.outbounds;
      assert t in TagSet(pr.outbounds);
    }
    assert t !in FullTags(pr.tag, opts) ==> IndexAt(RefreshFromLast(cfg, m, pr, opts, env).0, t).None?;
  }

  lemma RefreshKeepsOwner(cfg: Config, w: World, p: string, opts: seq<OutboundOption>, env: Env)
    requires WorldInvariant(cfg, w) && p in w.providers && TaggedOptions(opts) && Smooth(env)
    ensures var (m', pr') := RefreshFromLast(cfg, w.m, w.providers[p], opts, env);
      && RefinesRebuild(cfg, m', pr', opts) && Owned(m', pr') && FiledByTag(m')
      && forall t :: !Under(p, t) ==> IndexAt(m', t) == IndexAt(w.m, t)
  {
    var pr := w.providers[p];
    var (m', pr') := RefreshFromLast(cfg, w.m, pr, opts, env);
    TaggedOptionsDistinct(p, opts);
    ProviderRefreshIsSafe(cfg, w, p, opts, env);
    RefreshRefinesRebuildExactly(cfg, w.m, pr, pr.lastOpts, opts, env);
    assert RefinesRebuild(cfg, m', pr', opts);
    forall t | !Under(p, t) ensures IndexAt(m', t) == IndexAt(w.m, t) {
      RefreshStaysInside(cfg, w.m, pr, opts, env, t);
    }
    RebuiltIsOwned(cfg, m', pr', opts);
    forall t | t in m'.outboundByTag
      ensures m'.outboundByTag[t].tag == t && (Under(p, t) ==> m'.outboundByTag[t] in pr'.outbounds)
    {
      if Under(p, t) {
        RefreshLeavesPlanned(cfg, w.m, pr, opts, env, t);
        var i :| 0 <= i < |opts| && FullTags(p, opts)[i] == t;
        assert Lookup(cfg, m', FullTag(p, i, opts[i])) == Some(pr'.outbounds[i]);
      } else {
        assert IndexAt(m', t) == IndexAt(w.m, t);
      }
    }
  }

  lemma RebuiltIsOwned(cfg: Config, m: State, pr: Provider, opts: seq<OutboundOption>)
    requires RefinesRebuild(cfg, m, pr, opts)
    requires forall t :: t in TagSet(cfg.endpoints) ==> !Under(pr.tag, t)
    ensures forall o :: o in pr.outbounds ==> IndexAt(m, o.tag) == Some(o) && Under(pr.tag, o.tag)
    ensures FollowsOptions(pr, opts)
  {
    forall o | o in pr.outbounds ensures IndexAt(m, o.tag) == Some(o) && Under(pr.tag, o.tag) {
      var i :| 0 <= i < |pr.outbounds| && pr.outbounds[i] == o;
      FullTagUnder(pr.tag, i, opts[i]);
      assert Lookup(cfg, m, FullTag(pr.tag, i, opts[i])) == Some(o);
    }
  }

  lemma CloseEmptiesNamespace(cfg: Config, w: World, p: string)
    requires WorldInvariant(cfg, w) && p in w.providers
    ensures var (m', pr') := CloseProviderState(w.m, w.providers[p]);
      && pr'.outbounds == [] && Owned(m', pr') && FiledByTag(m')
      && (forall t :: t in m'.outboundByTag ==> !Under(p, t))
      && forall t :: !Under(p, t) ==> IndexAt(m', t) == IndexAt(w.m, t)
  {
    var pr := w.providers[p];
    var (m', pr') := CloseProviderState(w.m, pr);
    RemoveDroppedIndex(w.m, pr.outbounds, []);
    forall t ensures Under(p, t) ==> IndexAt(m', t).None? {
      if Under(p, t) && t in w.m.outboundByTag {
        assert w.m.outboundByTag[t] in pr.outbounds;
      }
    }
    forall t | t in m'.outboundByTag ensures m'.outboundByTag[t].tag == t && !Under(p, t) {
      assert IndexAt(m', t).Some?;
    }
    forall t | !Under(p, t) ensures IndexAt(m', t) == IndexAt(w.m, t) {
      if t in TagSet(pr.outbounds) { ListedUnder(w.m, pr, t); }
    }
  }

  /** A provider keeps its part as long as nothing below its prefix moves. */
  lemma OwnedFrame(m: State, m': State, pr: Provider)
    requires Owned(m, pr) && forall t :: Under(pr.tag, t) ==> IndexAt(m', t) == IndexAt(m, t)
    ensures Owned(m', pr)
  {
    forall t | t in m'.outboundByTag && Under(pr.tag, t) ensures m'.outboundByTag[t] in pr.outbounds {
      assert IndexAt(m', t) == IndexAt(m, t);
    }
  }

  lemma StepTouches(cfg: Config, m: State, step: Step, t: string)
    requires t != DIRECT_TAG
    requires step.Create? ==> step.tag != t
    requires step.Remove? ==> step.tag != t
    ensures IndexAt(Apply(cfg, m, step), t) == IndexAt(m, t)
  {
  }

  lemma StepKeepsFiling(cfg: Config, m: State, step: Step)
    requires FiledByTag(m)
    ensures FiledByTag(Apply(cfg, m, step))
  {
  }

  lemma {:induction false} RemoveDroppedKeepsFiling(m: State, outbounds: seq<Outbound>, keep: seq<string>)
    requires FiledByTag(m)
    ensures FiledByTag(RemoveDropped(m, outbounds, keep))
  {
    if outbounds != [] { RemoveDroppedKeepsFiling(m, outbounds[..|outbounds| - 1], keep); }
  }

  lemma {:induction false} ReconcileKeepsFiling(cfg: Config, m: State, p: string, previous: seq<OutboundOption>,
                                                opts: seq<OutboundOption>, env: Env)
    requires FiledByTag(m)
    ensures FiledByTag(Reconcile(cfg, m, p, previous, opts, env).0)
  {
    if opts != [] { ReconcileKeepsFiling(cfg, m, p, previous, opts[..|opts| - 1], env); }
  }

  /** Whatever a step brings and however it turns out, the registry files every object under its own tag. */
  lemma WorldKeepsFiling(cfg: Config, w: World, s: WorldStep)
    requires FiledByTag(w.m)
    ensures FiledByTag(ApplyWorld(cfg, w, s).m) && ApplyWorld(cfg, w, s).providers.Keys == w.providers.Keys
  {
    match s
    case Static(step) => StepKeepsFiling(cfg, w.m, step);
    case Refresh(p, opts, env) =>
      if p in w.providers {
        var pr := w.providers[p];
        RemoveDroppedKeepsFiling(w.m, pr.outbounds, FullTags(pr.tag, opts));
        var m1 := RemoveDropped(w.m, pr.outbounds, FullTags(pr.tag, opts));
        ReconcileKeepsFiling(cfg, m1, pr.tag, pr.lastOpts, opts, env);
      }
    case CloseProvider(p) =>
      if p in w.providers { RemoveDroppedKeepsFiling(w.m, w.providers[p].outbounds, []); }
  }

  lemma StaticKeepsNamespace(cfg: Config, m: State, step: Step, p: string)
    requires SlashFree(p) && Proper({p}, Static(step))
    ensures forall t :: Under(p, t) ==> IndexAt(Apply(cfg, m, step), t) == IndexAt(m, t)
  {
    forall t | Under(p, t) ensures IndexAt(Apply(cfg, m, step), t) == IndexAt(m, t) {
      SlashEndsPrefix(p, t);
      StepTouches(cfg, m, step, t);
    }
  }

  lemma StepKeepsWorld(cfg: Config, w: World, s: WorldStep)
    requires WorldInvariant(cfg, w) && Proper(w.providers.Keys, s)
    ensures WorldInvariant(cfg, ApplyWorld(cfg, w, s)) && ApplyWorld(cfg, w, s).providers.Keys == w.providers.Keys
  {
    var w' := ApplyWorld(cfg, w, s);
    match s
    case Static(step) =>
      StepKeepsFiling(cfg, w.m, step);
      forall q | q in w.providers ensures Owned(w'.m, w.providers[q]) {
        StaticKeepsNamespace(cfg, w.m, step, q);
        OwnedFrame(w.m, w'.m, w.providers[q]);
      }
    case Refresh(p, opts, env) =>
      if p in w.providers {
        RefreshKeepsOwner(cfg, w, p, opts, env);
        OthersKeep(cfg, w, w'.m, p);
      }
    case CloseProvider(p) =>
      if p in w.providers {
        CloseEmptiesNamespace(cfg, w, p);
        OthersKeep(cfg, w, w'.m, p);
      }
  }

  lemma OthersKeep(cfg: Config, w: World, m': State, p: string)
    requires WorldInvariant(cfg, w) && p in w.providers
    requires forall t :: !Under(p, t) ==> IndexAt(m', t) == IndexAt(w.m, t)
    ensures forall q :: q in w.providers && q != p ==> Owned(m', w.providers[q])
  {
    forall q | q in w.providers && q != p ensures Owned(m', w.providers[q]) {
      forall t | Under(q, t) ensures IndexAt(m', t) == IndexAt(w.m, t) {
        if Under(p, t) { NamespacesDisjoint(p, q, t); }
      }
      OwnedFrame(w.m, m', w.providers[q]);
    }
  }

  /** Providers that have not loaded anything yet, in a registry with nothing below their prefixes. */
  ghost predicate Fresh(cfg: Config, w: World) {
    && FiledByTag(w.m) && Separated(cfg, w.providers.Keys)
    && (forall p :: p in w.providers ==> w.providers[p] == Provider(p, [], map[], []))
    && forall p, t :: p in w.providers && t in w.m.outboundByTag ==> !Under(p, t)
  }

  /** Over every run, each provider owns exactly what the registry holds below its prefix. */
  lemma {:induction false} RunKeepsWorld(cfg: Config, w: World, steps: seq<WorldStep>)
    requires Fresh(cfg, w)
    requires forall s :: s in steps ==> Proper(w.providers.Keys, s)
    ensures WorldInvariant(cfg, RunWorld(cfg, w, steps)) && RunWorld(cfg, w, steps).providers.Keys == w.providers.Keys
  {
    if steps != [] {
      var init, last := steps[..|steps| - 1], steps[|steps| - 1];
      assert steps == init + [last];
      RunKeepsWorld(cfg, w, init);
      StepKeepsWorld(cfg, RunWorld(cfg, w, init), last);
    }
  }

  // ---------------------------------------------------------------------------
  // What a provider answers
  // ---------------------------------------------------------------------------

  function ProviderAnswer(pr: Provider, tag: string): Option<Outbound> {
    if tag in pr.outboundsByTag then Some(pr.outboundsByTag[tag]) else None
  }

  /** The provider answers as the registry does below its prefix, and nothing outside it. */
  ghost predicate AnswersOwn(m: State, pr: Provider) {
    forall t :: ProviderAnswer(pr, t) == if Under(pr.tag, t) then IndexAt(m, t) else None
  }

  lemma RefreshAnswersOwn(cfg: Config, w: World, p: string, opts: seq<OutboundOption>, env: Env)
    requires WorldInvariant(cfg, w) && p in w.providers && TaggedOptions(opts) && Smooth(env)
    ensures var (m', pr') := RefreshFromLast(cfg, w.m, w.providers[p], opts, env); AnswersOwn(m', pr')
  {
    TaggedOptionsDistinct(p, opts);
    RefreshMapMatches(cfg, w.m, w.providers[p], w.providers[p].lastOpts, opts, env);
    RefreshKeepsOwner(cfg, w, p, opts, env);
    var (m', pr') := RefreshFromLast(cfg, w.m, w.providers[p], opts, env);
    assert forall t :: Under(p, t) && t in m'.outboundByTag ==>
      m'.outboundByTag[t] in pr'.outbounds && m'.outboundByTag[t].tag == t;
    forall t ensures ProviderAnswer(pr', t) == if Under(p, t) then IndexAt(m', t) else None {
      if t in pr'.outboundsByTag {
        var o :| o in pr'.outbounds && o.tag == t;
      }
    }
  }

  /** Nothing below a provider's prefix moves in a step that is not its own. */
  lemma ForeignStepFrame(cfg: Config, w: World, s: WorldStep, p: string)
    requires WorldInvariant(cfg, w) && Proper(w.providers.Keys, s) && p in w.providers
    requires !(s.Refresh? && s.p == p) && s != CloseProvider(p)
    ensures forall t :: Under(p, t) ==> IndexAt(ApplyWorld(cfg, w, s).m, t) == IndexAt(w.m, t)
  {
    match s
    case Static(step) => StaticKeepsNamespace(cfg, w.m, step, p);
    case Refresh(q, opts, env) =>
      if q in w.providers {
        RefreshKeepsOwner(cfg, w, q, opts, env);
        ForeignTags(p, q);
      }
    case CloseProvider(q) =>
      if q in w.providers {
        CloseEmptiesNamespace(cfg, w, q);
        ForeignTags(p, q);
      }
  }

  lemma ForeignTags(p: string, q: string)
    requires SlashFree(p) && SlashFree(q) && p != q
    ensures forall t :: Under(p, t) ==> !Under(q, t)
  {
    forall t | Under(p, t) ensures !Under(q, t) {
      if Under(q, t) { NamespacesDisjoint(p, q, t); }
    }
  }

  /** Over every run in which it is not closed, a provider answers exactly the registry's present object for every tag
      below its prefix, and nothing else. */
  lemma {:induction false} RunAnswersOwn(cfg: Config, w: World, steps: seq<WorldStep>, p: string)
    requires Fresh(cfg, w) && p in w.providers && CloseProvider(p) !in steps
    requires forall s :: s in steps ==> Proper(w.providers.Keys, s)
    ensures var w' := RunWorld(cfg, w, steps); p in w'.providers && AnswersOwn(w'.m, w'.providers[p])
  {
    if steps != [] {
      var init, last := steps[..|steps| - 1], steps[|steps| - 1];
      assert steps == init + [last];
      RunAnswersOwn(cfg, w, init, p);
      RunKeepsWorld(cfg, w, init);
      var before := RunWorld(cfg, w, init);
      assert last in steps && Proper(w.providers.Keys, last);
      if last.Refresh? && last.p == p {
        RefreshAnswersOwn(cfg, before, p, last.opts, last.env);
      } else {
        ForeignStepFrame(cfg, before, last, p);
      }
    }
  }

  /** A close leaves the map alone: the provider goes on answering what it has just unregistered. So it answers as the
      registry does exactly when it had nothing listed. */
  lemma ClosedProviderAnswersExactly(cfg: Config, w: World, p: string)
    requires WorldInvariant(cfg, w) && p in w.providers && AnswersOwn(w.m, w.providers[p])
    ensures var (m', pr') := CloseProviderState(w.m, w.providers[p]);
      && (forall t :: ProviderAnswer(pr', t) == ProviderAnswer(w.providers[p], t))
      && (AnswersOwn(m', pr') <==> w.providers[p].outbounds == [])
  {
    CloseEmptiesNamespace(cfg, w, p);
    var pr := w.providers[p];
    var (m', pr') := CloseProviderState(w.m, pr);
    if pr.outbounds != [] {
      var o := pr.outbounds[0];
      assert o in pr.outbounds && IndexAt(w.m, o.tag) == Some(o) && ProviderAnswer(pr', o.tag) == Some(o);
    } else {
      assert forall t :: Under(p, t) ==> IndexAt(w.m, t).None?;
      forall t ensures ProviderAnswer(pr', t) == if Under(p, t) then IndexAt(m', t) else None {
        assert ProviderAnswer(pr, t) == if Under(p, t) then IndexAt(w.m, t) else None;
      }
    }
  }

  /** After any run, one more refresh of a provider leaves it exactly as a full rebuild would, and leaves every
      entry outside its prefix, static or another provider's, untouched. */
  lemma RunThenRefresh(cfg: Config, w: World, steps: seq<WorldStep>, p: string, opts: seq<OutboundOption>, env: Env)
    requires Fresh(cfg, w) && p in w.providers
    requires forall s :: s in steps ==> Proper(w.providers.Keys, s)
    requires TaggedOptions(opts) && Smooth(env)
    ensures var before := RunWorld(cfg, w, steps);
      var after := ApplyWorld(cfg, before, Refresh(p, opts, env));
      && p in after.providers && RefinesRebuild(cfg, after.m, after.providers[p], opts)
      && (forall t :: t in after.m.outboundByTag && Under(p, t) ==>
        after.m.outboundByTag[t] in after.providers[p].outbounds)
      && (forall t :: !Under(p, t) ==> IndexAt(after.m, t) == IndexAt(before.m, t))
  {
    RunKeepsWorld(cfg, w, steps);
    RefreshKeepsOwner(cfg, RunWorld(cfg, w, steps), p, opts, env);
  }

  /** After any run, closing a provider leaves nothing below its prefix and everything else in place. */
  lemma RunThenClose(cfg: Config, w: World, steps: seq<WorldStep>, p: string)
    requires Fresh(cfg, w) && p in w.providers
    requires forall s :: s in steps ==> Proper(w.providers.Keys, s)
    ensures var before := RunWorld(cfg, w, steps);
      var after := ApplyWorld(cfg, before, CloseProvider(p));
      && (forall t :: t in after.m.outboundByTag ==> !Under(p, t))
      && (forall t :: !Under(p, t) ==> IndexAt(after.m, t) == IndexAt(before.m, t))
  {
    RunKeepsWorld(cfg, w, steps);
    CloseEmptiesNamespace(cfg, RunWorld(cfg, w, steps), p);
  }

  /** The refreshes of one provider with the same options, in these surroundings. */
  function Retries(p: string, opts: seq<OutboundOption>, envs: seq<Env>): seq<WorldStep> {
    seq(|envs|, i requires 0 <= i < |envs| => Refresh(p, opts, envs[i]))
  }

  lemma {:induction false} RetriesKeepOld(cfg: Config, w: World, p: string, o1: OutboundOption, o2: OutboundOption,
                                          id: nat, envs: seq<Env>)
    requires p in w.providers && w.providers[p].tag == p && w.providers[p].lastOpts == [o2]
    requires IndexAt(w.m, FullTag(p, 0, o2)) == Some(Outbound(id, FullTag(p, 0, o2), o1))
    ensures var w' := RunWorld(cfg, w, Retries(p, [o2], envs));
      && p in w'.providers && w'.providers[p].tag == p && w'.providers[p].lastOpts == [o2]
      && IndexAt(w'.m, FullTag(p, 0, o2)) == IndexAt(w.m, FullTag(p, 0, o2))
      && (envs != [] ==> w'.providers[p].outbounds == [Outbound(id, FullTag(p, 0, o2), o1)])
  {
    if envs != [] {
      var init, last := envs[..|envs| - 1], envs[|envs| - 1];
      assert Retries(p, [o2], envs) == Retries(p, [o2], init) + [Refresh(p, [o2], last)];
      RetriesKeepOld(cfg, w, p, o1, o2, id, init);
      var before := RunWorld(cfg, w, Retries(p, [o2], init));
      KeptAsUnchanged(cfg, before.m, before.providers[p], o1, o2, id, last);
    }
  }

  lemma FirstLoad(cfg: Config, w: World, p: string, o1: OutboundOption, env: Env)
    requires Fresh(cfg, w) && p in w.providers && Smooth(env) && o1.tag != ""
    ensures var w' := ApplyWorld(cfg, w, Refresh(p, [o1], env));
      && p in w'.providers && w'.providers[p].tag == p && w'.providers[p].lastOpts == [o1]
      && IndexAt(w'.m, FullTag(p, 0, o1)) == Some(Outbound(w.m.builtSoFar, FullTag(p, 0, o1), o1))
      && w'.m.builtSoFar == w.m.builtSoFar + 1
  {
    FullTagUnder(p, 0, o1);
    SingleRefresh(cfg, w.m, w.providers[p], [], [o1], env);
  }

  lemma FailedLoad(cfg: Config, w: World, p: string, o1: OutboundOption, o2: OutboundOption, id: nat, failing: Env)
    requires p in w.providers && w.providers[p].tag == p && w.providers[p].lastOpts == [o1]
    requires o1.tag == o2.tag != "" && o1 != o2 && !failing.builds(w.m.builtSoFar)
    requires IndexAt(w.m, FullTag(p, 0, o2)) == Some(Outbound(id, FullTag(p, 0, o2), o1))
    ensures var w' := ApplyWorld(cfg, w, Refresh(p, [o2], failing));
      && p in w'.providers && w'.providers[p].tag == p && w'.providers[p].lastOpts == [o2]
      && w'.providers[p].outbounds == []
      && IndexAt(w'.m, FullTag(p, 0, o2)) == IndexAt(w.m, FullTag(p, 0, o2))
  {
    FailedReplacement(cfg, w.m, w.providers[p], o1, o2, failing);
  }

  /** A provider that has loaded `[o1]` and then fails to build the changed option: however often it refreshes with
      the new options afterwards, in whatever surroundings, it goes on serving the object built from `o1`. */
  lemma FailedReplacementIsNeverRetried(cfg: Config, w: World, p: string, o1: OutboundOption, o2: OutboundOption,
                                        env: Env, failing: Env, envs: seq<Env>)
    requires Fresh(cfg, w) && p in w.providers && Smooth(env)
    requires o1.tag == o2.tag != "" && o1 != o2
    requires !failing.builds(w.m.builtSoFar + 1) && envs != []
    ensures var w1 := ApplyWorld(cfg, ApplyWorld(cfg, w, Refresh(p, [o1], env)), Refresh(p, [o2], failing));
      var w2 := RunWorld(cfg, w1, Retries(p, [o2], envs));
      && p in w2.providers && w2.providers[p].lastOpts == [o2]
      && w2.providers[p].outbounds == [Outbound(w.m.builtSoFar, FullTag(p, 0, o1), o1)]
      && !RefinesRebuild(cfg, w2.m, w2.providers[p], [o2])
  {
    FirstLoad(cfg, w, p, o1, env);
    var loaded := ApplyWorld(cfg, w, Refresh(p, [o1], env));
    FailedLoad(cfg, loaded, p, o1, o2, w.m.builtSoFar, failing);
    RetriesKeepOld(cfg, ApplyWorld(cfg, loaded, Refresh(p, [o2], failing)), p, o1, o2, w.m.builtSoFar, envs);
  }

  /** The exact condition for a close to leave nothing below the provider's prefix, in whatever state: everything
      registered there carries a tag the provider lists. */
  lemma CloseEmptiesExactly(m: State, pr: Provider)
    ensures var m' := CloseProviderState(m, pr).0;
      (forall t :: t in m'.outboundByTag ==> !Under(pr.tag, t)) <==>
      (forall t :: t in m.outboundByTag && Under(pr.tag, t) ==> t in TagSet(pr.outbounds))
  {
    var m' := CloseProviderState(m, pr).0;
    RemoveDroppedIndex(m, pr.outbounds, []);
    assert forall t :: t in m'.outboundByTag <==> IndexAt(m', t).Some?;
    assert forall t :: t in m.outboundByTag <==> IndexAt(m, t).Some?;
  }

  /** After a failed replacement the provider lists nothing, so the old object leaks: neither closing the provider nor
      a refresh that drops the option unregisters it. */
  lemma FailedReplacementLeaks(cfg: Config, w: World, p: string, o1: OutboundOption, o2: OutboundOption,
                               env: Env, failing: Env, opts: seq<OutboundOption>, later: Env)
    requires Fresh(cfg, w) && p in w.providers && Smooth(env)
    requires o1.tag == o2.tag != "" && o1 != o2 && !failing.builds(w.m.builtSoFar + 1)
    requires TaggedOptions(opts) && forall i :: 0 <= i < |opts| ==> opts[i].tag != o2.tag
    ensures var w1 := ApplyWorld(cfg, ApplyWorld(cfg, w, Refresh(p, [o1], env)), Refresh(p, [o2], failing));
      var leaked := Some(Outbound(w.m.builtSoFar, FullTag(p, 0, o1), o1));
      && p in w1.providers && w1.providers[p].outbounds == []
      && IndexAt(ApplyWorld(cfg, w1, CloseProvider(p)).m, FullTag(p, 0, o1)) == leaked
      && IndexAt(ApplyWorld(cfg, w1, Refresh(p, opts, later)).m, FullTag(p, 0, o1)) == leaked
  {
    FirstLoad(cfg, w, p, o1, env);
    var loaded := ApplyWorld(cfg, w, Refresh(p, [o1], env));
    FailedLoad(cfg, loaded, p, o1, o2, w.m.builtSoFar, failing);
    var w1 := ApplyWorld(cfg, loaded, Refresh(p, [o2], failing));
    UnlistedLeaks(cfg, w1, p, FullTag(p, 0, o1), opts, later, o1);
  }

  /** A tag that the provider neither lists nor is asked for stays as it is through a refresh, and through a close. */
  lemma UnlistedLeaks(cfg: Config, w: World, p: string, tag: string, opts: seq<OutboundOption>, env: Env,
                      o: OutboundOption)
    requires p in w.providers && w.providers[p].tag == p && w.providers[p].outbounds == []
    requires tag == FullTag(p, 0, o) && o.tag != ""
    requires TaggedOptions(opts) && forall i :: 0 <= i < |opts| ==> opts[i].tag != o.tag
    ensures IndexAt(ApplyWorld(cfg, w, CloseProvider(p)).m, tag) == IndexAt(w.m, tag)
    ensures IndexAt(ApplyWorld(cfg, w, Refresh(p, opts, env)).m, tag) == IndexAt(w.m, tag)
  {
    assert tag !in FullTags(p, opts) by { OtherTag(p, opts, o); }
    TaggedOptionsDistinct(p, opts);
    RefreshEffect(cfg, w.m, w.providers[p], w.providers[p].lastOpts, opts, env);
  }

  lemma OtherTag(p: string, opts: seq<OutboundOption>, o: OutboundOption)
    requires TaggedOptions(opts) && o.tag != "" && forall i :: 0 <= i < |opts| ==> opts[i].tag != o.tag
    ensures FullTag(p, 0, o) !in FullTags(p, opts)
  {
    FullTagUnder(p, 0, o);
    forall i | 0 <= i < |opts| ensures FullTags(p, opts)[i] != FullTag(p, 0, o) {
      FullTagUnder(p, i, opts[i]);
    }
  }
}

/** The registry as the object the program holds, each method proved against the state functions. */
module ManagerObject {
  import opened Nodes
  import opened OutboundManager
  import opened StartOrder

  class Manager {
    const cfg: Config
    var outbounds: seq<Outbound>
    var outboundByTag: map<string, Outbound>
    var dependByTag: map<string, seq<string>>
    var defaultOutbound: Option<Outbound>
    var started: bool
    var stage: nat
    var builtSoFar: nat

    ghost function View(): State
      reads this
    {
      State(outbounds, outboundByTag, dependByTag, defaultOutbound, started, stage, builtSoFar)
    }

    constructor (cfg: Config)
      ensures this.cfg == cfg && View() == INITIAL
    {
      this.cfg := cfg;
      outbounds, outboundByTag, dependByTag := [], map[], map[];
      defaultOutbound, started, stage, builtSoFar := None, false, 0, 0;
    }

    method Find(tag: string) returns (r: Option<Outbound>)
      ensures r == Lookup(cfg, View(), tag)
    {
      if tag in outboundByTag {
        return Some(outboundByTag[tag]);
      }
      return cfg.Endpoint(tag);
    }

    method Create(tag: string, option: OutboundOption, env: Env) returns (err: Outcome)
      modifies this
      ensures err == CreateError(old(View()), tag, old(builtSoFar), env)
      ensures View() == CreateState(cfg, old(View()), tag, option, env)
    {
      if tag == "" {
        return Some(InvalidArgument);
      }
      var outbound := Outbound(builtSoFar, tag, option);
      builtSoFar := builtSoFar + 1;
      if !env.builds(outbound.id) {
        return Some(BuildFailed);
      }
      if started && !env.starts(outbound.id) {
        return Some(StartFailed);
      }
      if tag in outboundByTag {
        var existing := outboundByTag[tag];
        if started && !env.closes(existing.id) {
          return Some(CloseFailed);
        }
        CutFromList(existing);
      }
      Register(tag, outbound);
      err := None;
    }

    /** Lists and indexes a new object, records its dependencies, and makes it the default where it should be. */
    method Register(tag: string, outbound: Outbound)
      modifies `outbounds, `outboundByTag, `dependByTag, `defaultOutbound
      ensures outbounds == old(outbounds) + [outbound] && outboundByTag == old(outboundByTag)[tag := outbound]
      ensures dependByTag == AddDependents(old(dependByTag), outbound.Dependencies(), tag)
      ensures defaultOutbound ==
        if tag == cfg.defaultTag || (cfg.defaultTag == "" && old(defaultOutbound).None?) then Some(outbound)
        else old(defaultOutbound)
    {
      outbounds := outbounds + [outbound];
      outboundByTag := outboundByTag[tag := outbound];
      RecordDependent(outbound.Dependencies(), tag);
      if tag == cfg.defaultTag || (cfg.defaultTag == "" && defaultOutbound.None?) {
        defaultOutbound := Some(outbound);
      }
    }

    /** Cuts an object out of the list by its position, if it is there. */
    method CutFromList(o: Outbound)
      modifies `outbounds
      ensures outbounds == Cut(old(outbounds), o)
    {
      var i := IndexOf(outbounds, o);
      if i < |outbounds| {
        outbounds := outbounds[..i] + outbounds[i + 1..];
      }
    }

    method RecordDependent(dependencies: seq<string>, tag: string)
      modifies `dependByTag
      ensures dependByTag == AddDependents(old(dependByTag), dependencies, tag)
    {
      for k := 0 to |dependencies|
        invariant dependByTag == AddDependents(old(dependByTag), dependencies[..k], tag)
      {
        var d := dependencies[k];
        assert dependencies[..k + 1] == dependencies[..k] + [d];
        AddDependentsAppend(old(dependByTag), dependencies[..k], d, tag);
        dependByTag := dependByTag[d := Get(dependByTag, d) + [tag]];
      }
      assert dependencies[..|dependencies|] == dependencies;
    }

    method ForgetDependent(dependencies: seq<string>, tag: string)
      modifies `dependByTag
      ensures dependByTag == DropDependents(old(dependByTag), dependencies, tag)
    {
      for k := 0 to |dependencies|
        invariant dependByTag == DropDependents(old(dependByTag), dependencies[..k], tag)
      {
        var d := dependencies[k];
        assert dependencies[..k + 1][..k] == dependencies[..k];
        if |Get(dependByTag, d)| == 1 {
          dependByTag := dependByTag - {d};
        } else {
          dependByTag := dependByTag[d := Without(Get(dependByTag, d), tag)];
        }
      }
      assert dependencies[..|dependencies|] == dependencies;
    }

    method Remove(tag: string, env: Env) returns (err: Outcome)
      modifies this
      ensures err == RemoveError(old(View()), tag, env)
      ensures View() == RemoveState(old(View()), tag)
    {
      if tag !in outboundByTag {
        return Some(InvalidArgument);
      }
      var outbound := outboundByTag[tag];
      outboundByTag := outboundByTag - {tag};
      CutFromList(outbound);
      if defaultOutbound == Some(outbound) {
        defaultOutbound := if |outbounds| > 0 then Some(outbounds[0]) else None;
      }
      var dependents := Get(dependByTag, tag);
      if |dependents| > 0 {
        return Some(DependedBy(dependents));
      }
      ForgetDependent(outbound.Dependencies(), tag);
      if started && !env.closes(outbound.id) {
        return Some(CloseFailed);
      }
      err := None;
    }

    /** Closes every listed outbound, in order; `closed` records the calls. What they answer is not reported and
        does not stop the rest. */
    method Close() returns (closed: seq<Outbound>)
      modifies this
      ensures View() == CloseState(old(View()))
      ensures closed == if old(started) then old(outbounds) else []
    {
      closed := [];
      if !started {
        return;
      }
      var list := outbounds;
      started := false;
      outbounds := [];
      for i := 0 to |list|
        invariant closed == list[..i]
      {
        closed := closed + [list[i]];
      }
    }

    method IsReady(outbound: Outbound, startedTags: set<string>) returns (ready: bool)
      ensures ready <==> forall d :: d in outbound.Dependencies() ==> d in startedTags
    {
      var dependencies := outbound.Dependencies();
      for k := 0 to |dependencies|
        invariant forall j :: 0 <= j < k ==> dependencies[j] in startedTags
      {
        if dependencies[k] !in startedTags {
          return false;
        }
      }
      ready := true;
    }

    /** One pass over the outbounds, starting each that waits for nothing; it stops at the first failed start. */
    method StartRound(all: seq<Outbound>, before: seq<Outbound>, env: Env)
      returns (order: seq<Outbound>, startedTags: set<string>, failed: bool)
      requires StartedInOrder(all, before) && forall o :: o in before ==> env.starts(o.id)
      ensures StartedInOrder(all, order) && startedTags == TagSet(order)
      ensures failed ==> order != [] && !env.starts(order[|order| - 1].id)
      ensures !failed ==> forall o :: o in order ==> env.starts(o.id)
      ensures !failed && |order| == |before| ==> Stuck(all, startedTags)
      ensures before <= order && Subsequence(order[|before|..], all)
    {
      order, startedTags, failed := before, TagSet(before), false;
      assert OccursAt(order[|before|..], all[..0], []);
      for i := 0 to |all|
        invariant RoundSoFar(all, before, order, startedTags, env, i)
      {
        var outbound := all[i];
        if outbound.tag in startedTags {
          RoundSkips(all, before, order, startedTags, env, i);
          continue;
        }
        var ready := IsReady(outbound, startedTags);
        if !ready {
          RoundSkips(all, before, order, startedTags, env, i);
          continue;
        }
        RoundStarts(all, before, order, startedTags, env, i);
        startedTags := startedTags + {outbound.tag};
        order := order + [outbound];
        if !env.starts(outbound.id) {
          return order, startedTags, true;
        }
      }
      assert all[..|all|] == all;
    }

    /** What a round that started nothing reports. */
    method Diagnose(all: seq<Outbound>, startedTags: set<string>) returns (result: StartResult)
      requires Stuck(all, startedTags) && startedTags <= TagSet(all)
      ensures result.NilDereference? || result.Circular? || result.NotFound?
      ensures result.NilDereference? <==> startedTags == TagSet(all)
      ensures !result.NilDereference? ==> FromFirstStuck(outboundByTag, all, startedTags, result)
      ensures !result.NilDereference? && IndexOfList(outboundByTag, all) ==>
        TrueDiagnosis(outboundByTag, all, startedTags, result)
      ensures !result.NilDereference? && Closed(all) ==> !Acyclic(all)
    {
      var i := 0;
      while i < |all| && all[i].tag in startedTags
        invariant 0 <= i <= |all|
        invariant forall j :: 0 <= j < i ==> all[j].tag in startedTags
      {
        i := i + 1;
      }
      if i == |all| {
        assert TagSet(all) <= startedTags;
        return NilDereference;
      }
      var current := all[i];
      assert current in all && current.tag in TagSet(all);
      assert IsWalk(all, [current.tag]);
      if Closed(all) {
        StuckHasCycle(all, startedTags, [current.tag]);
      }
      if IndexOfList(outboundByTag, all) {
        LintDiagnoses(outboundByTag, all, startedTags, [current.tag], current);
      }
      result := Lint(outboundByTag, startedTags, [current.tag], current);
    }

    /** Starts what can be started, round after round, and diagnoses what is left when a round gets nowhere.
        `order` records the starts performed. */
    method StartOutbounds(all: seq<Outbound>, env: Env) returns (order: seq<Outbound>, result: StartResult)
      ensures StartedInOrder(all, order)
      ensures result.Started? ==> DistinctTags(all) && TagSet(order) == TagSet(all) && |order| == |all|
      ensures result.OutboundFailed? <==> exists o :: o in order && !env.starts(o.id)
      ensures result.OutboundFailed? ==>
        order != [] && !env.starts(order[|order| - 1].id) && result.tag == order[|order| - 1].tag
      ensures result.NilDereference? ==> !DistinctTags(all) && TagSet(order) == TagSet(all)
      ensures result.Circular? || result.NotFound? ==>
        Stuck(all, TagSet(order)) && TagSet(order) != TagSet(all) &&
        FromFirstStuck(outboundByTag, all, TagSet(order), result)
      ensures (forall o :: o in all ==> env.starts(o.id)) ==>
        && (result.Started? <==> DistinctTags(all) && Startable(all))
        && (result.NilDereference? <==> !DistinctTags(all) && Startable(all))
      ensures (result.Circular? || result.NotFound?) && IndexOfList(outboundByTag, all) ==>
        TrueDiagnosis(outboundByTag, all, TagSet(order), result)
      ensures DistinctTags(all) && (forall o :: o in all ==> env.starts(o.id)) ==>
        (result.Started? <==> Closed(all) && Acyclic(all))
    {
      var startedTags: set<string> := {};
      order := [];
      while true
        invariant startedTags == TagSet(order) && StartedInOrder(all, order)
        invariant forall o :: o in order ==> env.starts(o.id)
        invariant |order| <= |all|
        decreases |all| - |order|
      {
        var next, tags, failed := StartRound(all, order, env);
        var canContinue := |next| > |order|;
        order, startedTags := next, tags;
        OrderWithin(all, order);
        TagSetSize(all);
        if failed {
          assert order[|order| - 1] in order;
          return order, OutboundFailed(order[|order| - 1].tag);
        }
        if |startedTags| == |all| {
          AllStarted(all, order);
          OrderRulesOutCycles(all, order);
          assert CompleteOrder(all, order);
          return order, StartResult.Started;
        }
        if canContinue {
          continue;
        }
        result := Diagnose(all, startedTags);
        StuckEnds(all, order);
        return;
      }
    }

    /** The launch of everything the registry and the endpoint list hold. */
    method Launch(env: Env) returns (order: seq<Outbound>, result: StartResult)
      ensures LaunchReport(cfg, View(), order, env, result)
    {
      order, result := StartOutbounds(outbounds + cfg.endpoints, env);
      if result.NotFound? && ReadyToStart(cfg, View()) {
        UnindexedIsEndpoint(cfg, View(), result.dependency);
      }
    }

    /** Any stage but the launch is announced to each outbound in list order, until one fails. */
    method Announce(env: Env) returns (result: StageResult)
      ensures result.StageDone? || result.StageFailed?
      ensures result.StageDone? ==> forall o :: o in outbounds ==> env.starts(o.id)
      ensures result.StageFailed? ==> exists i ::
        && 0 <= i < |outbounds| && outbounds[i].tag == result.tag && !env.starts(outbounds[i].id)
        && forall j :: 0 <= j < i ==> env.starts(outbounds[j].id)
    {
      for i := 0 to |outbounds|
        invariant forall j :: 0 <= j < i ==> env.starts(outbounds[j].id)
      {
        if !env.starts(outbounds[i].id) {
          return StageFailed(outbounds[i].tag);
        }
      }
      result := StageDone;
    }

    method ChooseDefault(fallbackBuilds: bool) returns (failed: Option<StageResult>)
      modifies `outbounds, `outboundByTag, `defaultOutbound, `builtSoFar
      ensures View() == DefaultChosen(cfg, old(View()), fallbackBuilds)
      ensures failed == if defaultOutbound.Some? then None
                        else if cfg.defaultTag != "" then Some(DefaultNotFound) else Some(FallbackFailed)
    {
      if cfg.defaultTag != "" && defaultOutbound.None? {
        defaultOutbound := cfg.Endpoint(cfg.defaultTag);
        if defaultOutbound.None? {
          return Some(DefaultNotFound);
        }
      }
      if defaultOutbound.None? {
        if !fallbackBuilds {
          return Some(FallbackFailed);
        }
        var direct := Outbound(builtSoFar, DIRECT_TAG, OutboundOption(DIRECT_TAG, DIRECT_TAG, [], ""));
        builtSoFar := builtSoFar + 1;
        outbounds := outbounds + [direct];
        outboundByTag := outboundByTag[DIRECT_TAG := direct];
        defaultOutbound := Some(direct);
      }
      failed := None;
    }

    /** `Start` of one stage: the start stage launches the outbounds in dependency order, any other stage is
        announced to each outbound in list order until one fails. */
    method Start(stage: nat, fallbackBuilds: bool, env: Env) returns (order: seq<Outbound>, result: StageResult)
      modifies this
      ensures View() == StartState(cfg, old(View()), stage, fallbackBuilds)
      ensures result.AlreadyStartedPanic? <==> AlreadyStarted(old(View()), stage)
      ensures result.DefaultNotFound? <==>
        !AlreadyStarted(old(View()), stage) && stage == STAGE_START && defaultOutbound.None? && cfg.defaultTag != ""
      ensures result.FallbackFailed? <==>
        !AlreadyStarted(old(View()), stage) && stage == STAGE_START && defaultOutbound.None? && cfg.defaultTag == ""
      ensures result.Launched? <==> !AlreadyStarted(old(View()), stage) && stage == STAGE_START && defaultOutbound.Some?
      ensures result.Launched? ==> LaunchReport(cfg, View(), order, env, result.result)
      ensures result.StageDone? ==> forall o :: o in outbounds ==> env.starts(o.id)
      ensures result.StageFailed? ==> exists i ::
        && 0 <= i < |outbounds| && outbounds[i].tag == result.tag && !env.starts(outbounds[i].id)
        && forall j :: 0 <= j < i ==> env.starts(outbounds[j].id)
    {
      order := [];
      if started && this.stage >= stage {
        return order, AlreadyStartedPanic;
      }
      started := true;
      this.stage := stage;
      if stage == STAGE_START {
        var failed := ChooseDefault(fallbackBuilds);
        if failed.Some? {
          return order, failed.value;
        }
        var r;
        order, r := Launch(env);
        return order, Launched(r);
      }
      result := Announce(env);
    }
  }

  datatype StageResult =
    | AlreadyStartedPanic
    | DefaultNotFound
    | FallbackFailed
    | Launched(result: StartResult)
    | StageFailed(tag: string)
    | StageDone

  /** What the start-up diagnosis rests on: outbounds with distinct tags, and an index that files exactly the
      listed outbounds, each under its own tag. */
  ghost predicate ReadyToStart(cfg: Config, m: State) {
    && DistinctTags(m.outbounds)
    && IndexOfList(m.outboundByTag, m.outbounds + cfg.endpoints)
    && forall o :: o in m.outbounds ==> o.tag in m.outboundByTag && m.outboundByTag[o.tag] == o
  }

  /** What a launch reports, and what that means for the outbounds and endpoints: everything started so far was
      started in order; success means all were, and with distinct tags and successful starts it comes exactly when
      the dependencies are closed and acyclic; with successful starts a repeated tag among outbounds that could all be
      started is exactly what ends in the nil dereference; in a registry ready to start, what is reported as circular
      or not found is so, and unless an endpoint is among the stuck, nothing has the tag reported missing. */
  ghost predicate LaunchReport(cfg: Config, m: State, order: seq<Outbound>, env: Env, r: StartResult) {
    var all := m.outbounds + cfg.endpoints;
    && StartedInOrder(all, order)
    && (r.Started? ==> TagSet(order) == TagSet(all) && |order| == |all|)
    && (DistinctTags(all) && (forall o :: o in all ==> env.starts(o.id)) ==>
      (r.Started? <==> Closed(all) && Acyclic(all)))
    && (r.OutboundFailed? <==> exists o :: o in order && !env.starts(o.id))
    && (r.NilDereference? ==> !DistinctTags(all) && TagSet(order) == TagSet(all))
    && (r.Circular? || r.NotFound? ==>
          Stuck(all, TagSet(order)) && TagSet(order) != TagSet(all) &&
          FromFirstStuck(m.outboundByTag, all, TagSet(order), r))
    && ((forall o :: o in all ==> env.starts(o.id)) ==>
          && (r.Started? <==> DistinctTags(all) && Startable(all))
          && (r.NilDereference? <==> !DistinctTags(all) && Startable(all)))
    && ((r.Circular? || r.NotFound?) && ReadyToStart(cfg, m) ==> TrueDiagnosis(m.outboundByTag, all, TagSet(order), r))
    && (r.NotFound? && ReadyToStart(cfg, m) && TagSet(cfg.endpoints) <= TagSet(order) ==> r.dependency !in TagSet(all))
  }

  /** Every run up to the first `Close` leaves a registry ready to start. */
  lemma RunReadyToStart(cfg: Config, steps: seq<Step>)
    requires Close !in steps
    ensures ReadyToStart(cfg, Run(cfg, INITIAL, steps))
  {
    RunKeepsIndex(cfg, steps);
    var m := Run(cfg, INITIAL, steps);
    forall i, j | 0 <= i < j < |m.outbounds| ensures m.outbounds[i].tag != m.outbounds[j].tag {
      assert m.outbounds[i] in m.outbounds && m.outbounds[j] in m.outbounds;
    }
  }

  /** A tag that is not indexed can only be an endpoint's. */
  lemma UnindexedIsEndpoint(cfg: Config, m: State, tag: string)
    requires ReadyToStart(cfg, m) && tag !in m.outboundByTag
    ensures tag in TagSet(m.outbounds + cfg.endpoints) <==> tag in TagSet(cfg.endpoints)
  {
    if e :| e in cfg.endpoints && e.tag == tag {
      assert e in m.outbounds + cfg.endpoints;
    }
    if o :| o in m.outbounds + cfg.endpoints && o.tag == tag {
      assert o in cfg.endpoints;
    }
  }

  /** After any run up to the first `Close`, the tag a not-found report names belongs to no outbound at all, and
      to nothing at all exactly when no endpoint has it. With no endpoint among the stuck it never does. */
  lemma NotFoundNamesNothing(cfg: Config, steps: seq<Step>, started: set<string>, dependency: string, dependent: string)
    requires Close !in steps
    requires var m := Run(cfg, INITIAL, steps);
      TrueDiagnosis(m.outboundByTag, m.outbounds + cfg.endpoints, started, NotFound(dependency, dependent))
    ensures var m := Run(cfg, INITIAL, steps);
      && dependency !in TagSet(m.outbounds)
      && (dependency !in TagSet(m.outbounds + cfg.endpoints) <==> dependency !in TagSet(cfg.endpoints))
      && (TagSet(cfg.endpoints) <= started ==> dependency !in TagSet(m.outbounds + cfg.endpoints))
  {
    RunReadyToStart(cfg, steps);
    UnindexedIsEndpoint(cfg, Run(cfg, INITIAL, steps), dependency);
  }

  /** A stuck round has started all there is exactly when all could be started. */
  lemma StuckEnds(all: seq<Outbound>, order: seq<Outbound>)
    requires StartedInOrder(all, order) && Stuck(all, TagSet(order))
    ensures TagSet(order) == TagSet(all) <==> Startable(all)
  {
    OrderWithin(all, order);
    if TagSet(order) == TagSet(all) {
      assert CompleteOrder(all, order);
    }
    if other :| CompleteOrder(all, other) {
      CompleteOrderUnsticks(all, other, TagSet(order));
    }
  }

  /** What a round that has looked at the first `n` outbounds has done. */
  ghost predicate RoundSoFar(all: seq<Outbound>, before: seq<Outbound>, order: seq<Outbound>, startedTags: set<string>,
                             env: Env, n: nat)
  {
    && n <= |all| && startedTags == TagSet(order) && StartedInOrder(all, order)
    && (forall o :: o in order ==> env.starts(o.id))
    && before <= order && Subsequence(order[|before|..], all[..n])
    && (|order| == |before| ==> order == before && Stuck(all[..n], startedTags))
  }

  lemma RoundSkips(all: seq<Outbound>, before: seq<Outbound>, order: seq<Outbound>, startedTags: set<string>, env: Env,
                   n: nat)
    requires RoundSoFar(all, before, order, startedTags, env, n) && n < |all|
    requires all[n].tag in startedTags || exists d :: d in all[n].Dependencies() && d !in startedTags
    ensures RoundSoFar(all, before, order, startedTags, env, n + 1)
  {
    assert all[..n + 1] == all[..n] + [all[n]];
    SubsequenceAppend(order[|before|..], all, n);
  }

  lemma RoundStarts(all: seq<Outbound>, before: seq<Outbound>, order: seq<Outbound>, startedTags: set<string>, env: Env,
                    n: nat)
    requires RoundSoFar(all, before, order, startedTags, env, n) && n < |all|
    requires all[n].tag !in startedTags && forall d :: d in all[n].Dependencies() ==> d in startedTags
    ensures var next := order + [all[n]];
      && StartedInOrder(all, next) && TagSet(next) == startedTags + {all[n].tag}
      && before <= next && Subsequence(next[|before|..], all)
      && (env.starts(all[n].id) ==> RoundSoFar(all, before, next, startedTags + {all[n].tag}, env, n + 1))
  {
    StartNext(all, order, all[n]);
    KeepsListOrder(all, before, order, n);
  }

  lemma KeepsListOrder(all: seq<Outbound>, before: seq<Outbound>, order: seq<Outbound>, n: nat)
    requires before <= order && n < |all| && Subsequence(order[|before|..], all[..n])
    ensures var next := order + [all[n]];
      before <= next && Subsequence(next[|before|..], all[..n + 1]) && Subsequence(next[|before|..], all)
  {
    var next, tail := order + [all[n]], order[|before|..];
    assert next[|before|..] == tail + [all[n]];
    SubsequenceAppend(tail, all, n);
    SubsequenceWithin(next[|before|..], all, n + 1);
  }

  lemma StartNext(all: seq<Outbound>, order: seq<Outbound>, o: Outbound)
    requires StartedInOrder(all, order) && o in all && o.tag !in TagSet(order)
    requires forall d :: d in o.Dependencies() ==> d in TagSet(order)
    ensures StartedInOrder(all, order + [o]) && TagSet(order + [o]) == TagSet(order) + {o.tag}
  {
    TagSetAppend(order, o);
    DistinctTagsAppend(order, o);
    var next := order + [o];
    forall i, d | 0 <= i < |next| && d in next[i].Dependencies() ensures d in TagSet(next[..i]) {
      assert next[..i] == order[..i];
      if i == |order| { assert order[..i] == order; }
    }
  }

  lemma OrderWithin(all: seq<Outbound>, order: seq<Outbound>)
    requires StartedInOrder(all, order)
    ensures TagSet(order) <= TagSet(all)
    ensures |TagSet(order)| <= |TagSet(all)| && |TagSet(order)| == |order|
  {
    TagSetSize(order);
    SubsetSize(TagSet(order), TagSet(all));
  }

  lemma SubsetSize(a: set<string>, b: set<string>)
    requires a <= b
    ensures |a| <= |b| && (|a| == |b| ==> a == b)
  {
    assert b == a + (b - a);
  }

  lemma AllStarted(all: seq<Outbound>, order: seq<Outbound>)
    requires StartedInOrder(all, order) && |TagSet(order)| == |all|
    ensures TagSet(order) == TagSet(all) && DistinctTags(all) && |order| == |all|
  {
    TagSetSize(all);
    OrderWithin(all, order);
    SubsetSize(TagSet(order), TagSet(all));
  }
}

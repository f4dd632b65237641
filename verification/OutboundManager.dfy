/** The outbound registry: an ordered list, a tag index and a reverse-dependency table kept together. */
module OutboundManager {
  import opened Nodes

  const DIRECT_TAG := "direct"

  datatype Error =
    | InvalidArgument
    | BuildFailed
    | StartFailed
    | CloseFailed
    | DependedBy(dependents: seq<string>)

  type Outcome = Option<Error>

  /** `builtSoFar` numbers the calls made to the constructor registry, so each new object gets a fresh identity. */
  datatype State = State(
    outbounds: seq<Outbound>,
    outboundByTag: map<string, Outbound>,
    dependByTag: map<string, seq<string>>,
    defaultOutbound: Option<Outbound>,
    started: bool,
    stage: nat,
    builtSoFar: nat)

  datatype Config = Config(defaultTag: string, endpoints: seq<Outbound>) {
    function Endpoint(tag: string): (r: Option<Outbound>)
      ensures r.Some? ==> r.value in endpoints && r.value.tag == tag
      ensures r.None? <==> tag !in TagSet(endpoints)
    {
      FindEndpoint(endpoints, tag)
    }
  }

  function FindEndpoint(endpoints: seq<Outbound>, tag: string): (r: Option<Outbound>)
    ensures r.Some? ==> r.value in endpoints && r.value.tag == tag
    ensures r.None? <==> tag !in TagSet(endpoints)
  {
    if endpoints == [] then None
    else if endpoints[0].tag == tag then Some(endpoints[0])
    else
      assert endpoints == [endpoints[0]] + endpoints[1..];
      FindEndpoint(endpoints[1..], tag)
  }

  const INITIAL := State([], map[], map[], None, false, 0, 0)

  const STAGE_START := 1

  /** Index first, endpoints second. */
  function Lookup(cfg: Config, m: State, tag: string): Option<Outbound> {
    if tag in m.outboundByTag then Some(m.outboundByTag[tag]) else cfg.Endpoint(tag)
  }

  // ---------------------------------------------------------------------------
  // Create
  // ---------------------------------------------------------------------------

  function AddDependents(table: map<string, seq<string>>, deps: seq<string>, tag: string): map<string, seq<string>> {
    if deps == [] then table
    else
      var t := AddDependents(table, deps[..|deps| - 1], tag);
      var d := deps[|deps| - 1];
      t[d := Get(t, d) + [tag]]
  }

  /** What decides a creation, apart from an empty tag: the constructor, then the start stages of the new
      object, then the close of the object it replaces; the last two only once the manager is started. */
  function CreateError(m: State, tag: string, id: nat, env: Env): Outcome {
    if tag == "" then Some(InvalidArgument)
    else if !env.builds(id) then Some(BuildFailed)
    else if m.started && !env.starts(id) then Some(StartFailed)
    else if m.started && tag in m.outboundByTag && !env.closes(m.outboundByTag[tag].id) then Some(CloseFailed)
    else None
  }

  function CreateState(cfg: Config, m: State, tag: string, option: OutboundOption, env: Env): State {
    var id := m.builtSoFar;
    var m1 := if tag == "" then m else m.(builtSoFar := id + 1);
    if CreateError(m, tag, id, env).Some? then m1
    else
      var o := Outbound(id, tag, option);
      var list := if tag in m.outboundByTag then Cut(m.outbounds, m.outboundByTag[tag]) else m.outbounds;
      m1.(outbounds := list + [o],
          outboundByTag := m.outboundByTag[tag := o],
          dependByTag := AddDependents(m.dependByTag, o.Dependencies(), tag),
          defaultOutbound := if tag == cfg.defaultTag || (cfg.defaultTag == "" && m.defaultOutbound.None?)
                             then Some(o) else m.defaultOutbound)
  }

  // ---------------------------------------------------------------------------
  // Remove
  // ---------------------------------------------------------------------------

  function DropDependent(table: map<string, seq<string>>, d: string, tag: string): map<string, seq<string>> {
    if |Get(table, d)| == 1 then table - {d} else table[d := Without(Get(table, d), tag)]
  }

  function DropDependents(table: map<string, seq<string>>, deps: seq<string>, tag: string): map<string, seq<string>> {
    if deps == [] then table
    else DropDependent(DropDependents(table, deps[..|deps| - 1], tag), deps[|deps| - 1], tag)
  }

  /** The index and list without `tag`; this much happens even when the removal is then refused. */
  function Unregister(m: State, tag: string): State
    requires tag in m.outboundByTag
  {
    var o := m.outboundByTag[tag];
    var list := Cut(m.outbounds, o);
    m.(outboundByTag := m.outboundByTag - {tag},
       outbounds := list,
       defaultOutbound := if m.defaultOutbound != Some(o) then m.defaultOutbound
                          else if list != [] then Some(list[0]) else None)
  }

  function RemoveError(m: State, tag: string, env: Env): Outcome {
    if tag !in m.outboundByTag then Some(InvalidArgument)
    else if Get(m.dependByTag, tag) != [] then Some(DependedBy(Get(m.dependByTag, tag)))
    else if m.started && !env.closes(m.outboundByTag[tag].id) then Some(CloseFailed)
    else None
  }

  function RemoveState(m: State, tag: string): State {
    if tag !in m.outboundByTag then m
    else if Get(m.dependByTag, tag) != [] then Unregister(m, tag)
    else Unregister(m, tag).(dependByTag := DropDependents(m.dependByTag, m.outboundByTag[tag].Dependencies(), tag))
  }

  // ---------------------------------------------------------------------------
  // Start and Close
  // ---------------------------------------------------------------------------

  predicate AlreadyStarted(m: State, stage: nat) {
    m.started && m.stage >= stage
  }

  /** Choosing the default outbound: a configured one may be an endpoint, otherwise there is the direct fallback. */
  function DefaultChosen(cfg: Config, m: State, fallbackBuilds: bool): State {
    if cfg.defaultTag != "" && m.defaultOutbound.None? then m.(defaultOutbound := cfg.Endpoint(cfg.defaultTag))
    else if m.defaultOutbound.None? && fallbackBuilds then
      var direct := Outbound(m.builtSoFar, DIRECT_TAG, OutboundOption(DIRECT_TAG, DIRECT_TAG, [], ""));
      m.(outbounds := m.outbounds + [direct],
         outboundByTag := m.outboundByTag[DIRECT_TAG := direct],
         defaultOutbound := Some(direct),
         builtSoFar := m.builtSoFar + 1)
    else m
  }

  /** The registry part of `Start`. */
  function StartState(cfg: Config, m: State, stage: nat, fallbackBuilds: bool): State {
    if AlreadyStarted(m, stage) then m
    else if stage != STAGE_START then m.(started := true, stage := stage)
    else DefaultChosen(cfg, m.(started := true, stage := stage), fallbackBuilds)
  }

  function CloseState(m: State): State {
    if m.started then m.(started := false, outbounds := []) else m
  }

  // ---------------------------------------------------------------------------
  // Runs
  // ---------------------------------------------------------------------------

  datatype Step =
    | Create(tag: string, option: OutboundOption, env: Env)
    | Remove(tag: string)
    | Start(stage: nat, fallbackBuilds: bool)
    | Close

  function Apply(cfg: Config, m: State, step: Step): State {
    match step
    case Create(tag, option, env) => CreateState(cfg, m, tag, option, env)
    case Remove(tag) => RemoveState(m, tag)
    case Start(stage, fallbackBuilds) => StartState(cfg, m, stage, fallbackBuilds)
    case Close => CloseState(m)
  }

  function Run(cfg: Config, m: State, steps: seq<Step>): State {
    if steps == [] then m else Apply(cfg, Run(cfg, m, steps[..|steps| - 1]), steps[|steps| - 1])
  }

  /** The list is a duplicate-free part of the index, and the index files every object under its own tag. */
  ghost predicate PartIndexed(cfg: Config, m: State) {
    && (forall t :: t in m.outboundByTag ==> m.outboundByTag[t].tag == t && m.outboundByTag[t].id < m.builtSoFar)
    && (forall o :: o in m.outbounds ==> o.tag in m.outboundByTag && m.outboundByTag[o.tag] == o)
    && Distinct(m.outbounds)
    && (cfg.defaultTag == "" && m.defaultOutbound.None? ==> m.outbounds == [])
  }

  /** The list and the index hold exactly the same objects. */
  ghost predicate Agree(m: State) {
    forall t :: t in m.outboundByTag ==> m.outboundByTag[t] in m.outbounds
  }

  lemma CreateKeepsIndex(cfg: Config, m: State, tag: string, option: OutboundOption, env: Env)
    requires PartIndexed(cfg, m)
    ensures PartIndexed(cfg, CreateState(cfg, m, tag, option, env))
    ensures Agree(m) ==> Agree(CreateState(cfg, m, tag, option, env))
  {
    if CreateError(m, tag, m.builtSoFar, env).None? {
      var m' := CreateState(cfg, m, tag, option, env);
      var o := Outbound(m.builtSoFar, tag, option);
      var list := if tag in m.outboundByTag then Cut(m.outbounds, m.outboundByTag[tag]) else m.outbounds;
      assert forall x :: x in list <==> x in m.outbounds && x.tag != tag by {
        if tag in m.outboundByTag { CutMembers(m.outbounds, m.outboundByTag[tag]); }
      }
      assert Distinct(list) by {
        if tag in m.outboundByTag { CutMembers(m.outbounds, m.outboundByTag[tag]); }
      }
      DistinctAppend(list, o);
      assert forall x :: x in m'.outbounds <==> x in list || x == o;
    }
  }

  lemma RemoveKeepsIndex(cfg: Config, m: State, tag: string)
    requires PartIndexed(cfg, m)
    ensures var m' := RemoveState(m, tag);
      PartIndexed(cfg, m') && (Agree(m) ==> Agree(m'))
  {
    if tag in m.outboundByTag {
      CutMembers(m.outbounds, m.outboundByTag[tag]);
    }
  }

  lemma StartKeepsIndex(cfg: Config, m: State, stage: nat, fallbackBuilds: bool)
    requires PartIndexed(cfg, m)
    ensures var m' := StartState(cfg, m, stage, fallbackBuilds);
      PartIndexed(cfg, m') && (Agree(m) ==> Agree(m'))
  {
  }

  /** Every run leaves the list a duplicate-free part of the index; until the first `Close` the two agree exactly. */
  lemma {:induction false} RunKeepsIndex(cfg: Config, steps: seq<Step>)
    ensures PartIndexed(cfg, Run(cfg, INITIAL, steps))
    ensures Close !in steps ==> Agree(Run(cfg, INITIAL, steps))
  {
    if steps != [] {
      var before, step := steps[..|steps| - 1], steps[|steps| - 1];
      RunKeepsIndex(cfg, before);
      var m := Run(cfg, INITIAL, before);
      assert steps == before + [step];
      assert Close !in steps ==> Close !in before && step != Close;
      match step
      case Create(tag, option, env) => CreateKeepsIndex(cfg, m, tag, option, env);
      case Remove(tag) => RemoveKeepsIndex(cfg, m, tag);
      case Start(stage, fallbackBuilds) => StartKeepsIndex(cfg, m, stage, fallbackBuilds);
      case Close =>
    }
  }

  // ---------------------------------------------------------------------------
  // Dependents
  // ---------------------------------------------------------------------------

  /** Every indexed outbound is listed in the table under each of its dependencies. */
  ghost predicate Registered(m: State) {
    forall t, d :: t in m.outboundByTag && d in m.outboundByTag[t].Dependencies() ==> t in Get(m.dependByTag, d)
  }

  predicate Repeats(deps: seq<string>, d: string) {
    exists i, j :: 0 <= i < j < |deps| && deps[i] == d && deps[j] == d
  }

  lemma RepeatsAppend(deps: seq<string>, last: string, d: string)
    ensures Repeats(deps + [last], d) <==> Repeats(deps, d) || (last == d && d in deps)
  {
    var w := deps + [last];
    assert forall i :: 0 <= i < |deps| ==> w[i] == deps[i];
    if Repeats(deps, d) {
      var i, j :| 0 <= i < j < |deps| && deps[i] == d && deps[j] == d;
      assert w[i] == d && w[j] == d;
    }
    if last == d && d in deps {
      var i :| 0 <= i < |deps| && deps[i] == d;
      assert w[i] == d && w[|deps|] == d;
    }
  }

  lemma AddDependentsAppend(table: map<string, seq<string>>, deps: seq<string>, d: string, tag: string)
    ensures var t := AddDependents(table, deps, tag);
      AddDependents(table, deps + [d], tag) == t[d := Get(t, d) + [tag]]
  {
    assert (deps + [d])[..|deps|] == deps;
  }

  lemma {:induction false} AddDependentsMembers(table: map<string, seq<string>>, deps: seq<string>, tag: string)
    ensures forall d, t :: t in Get(AddDependents(table, deps, tag), d) <==>
      t in Get(table, d) || (d in deps && t == tag)
  {
    if deps != [] {
      var init, d := deps[..|deps| - 1], deps[|deps| - 1];
      assert deps == init + [d];
      AddDependentsMembers(table, init, tag);
      AddDependentsAppend(table, init, d, tag);
      var t1, t2 := AddDependents(table, init, tag), AddDependents(table, deps, tag);
      forall x, t ensures t in Get(t2, x) <==> t in Get(table, x) || (x in deps && t == tag) {
        assert x in deps <==> x in init || x == d;
        assert Get(t2, x) == if x == d then Get(t1, x) + [tag] else Get(t1, x);
      }
    }
  }

  /** An entry of the table after the clean-up loop of a removal. An entry under a dependency named once loses
      just `tag`; one under a dependency named twice or more is thrown away whole when one other name is left. */
  function CleanedEntry(entry: seq<string>, deps: seq<string>, tag: string, d: string): seq<string> {
    if d !in deps then entry
    else if Repeats(deps, d) && |Without(entry, tag)| == 1 then []
    else Without(entry, tag)
  }

  lemma {:induction false} DropDependentsClosedForm(table: map<string, seq<string>>, deps: seq<string>, tag: string,
                                                    d: string)
    requires d in deps ==> tag in Get(table, d)
    ensures Get(DropDependents(table, deps, tag), d) == CleanedEntry(Get(table, d), deps, tag, d)
  {
    if deps != [] {
      var init, last := deps[..|deps| - 1], deps[|deps| - 1];
      assert deps == init + [last];
      DropDependentsClosedForm(table, init, tag, d);
      RepeatsAppend(init, last, d);
      assert d in deps <==> d in init || d == last;
      DropOnce(DropDependents(table, init, tag), last, tag, d);
      WithoutTwice(Get(table, d), tag);
      NoRepeatWithoutMember(init, d);
    }
  }

  lemma NoRepeatWithoutMember(deps: seq<string>, d: string)
    ensures Repeats(deps, d) ==> d in deps
  {
  }

  lemma DropOnce(table: map<string, seq<string>>, last: string, tag: string, d: string)
    ensures Get(DropDependent(table, last, tag), d) ==
      if d != last then Get(table, d) else if |Get(table, d)| == 1 then [] else Without(Get(table, d), tag)
  {
  }

  lemma WithoutTwice<T(!new)>(s: seq<T>, x: T)
    ensures Without(Without(s, x), x) == Without(s, x)
    ensures |s| == 1 && x in s ==> Without(s, x) == []
    ensures |Without(s, x)| == 1 ==> Without(s, x)[0] in s && Without(s, x)[0] != x
  {
    var w := Without(s, x);
    AbsentWithout(w, x);
    if |w| == 1 { assert w[0] in w; }
  }

  lemma AbsentWithout<T(!new)>(s: seq<T>, x: T)
    requires x !in s
    ensures Without(s, x) == s
  {
  }

  lemma CreateKeepsRegistered(cfg: Config, m: State, tag: string, option: OutboundOption, env: Env)
    requires Registered(m)
    ensures Registered(CreateState(cfg, m, tag, option, env))
  {
    AddDependentsMembers(m.dependByTag, option.deps, tag);
  }

  /** Whether the clean-up of a removal throws away the entry of some other live dependent. */
  ghost predicate LosesDependent(m: State, tag: string)
    requires tag in m.outboundByTag
  {
    exists d, t ::
      && Repeats(m.outboundByTag[tag].Dependencies(), d)
      && Without(Get(m.dependByTag, d), tag) == [t]
      && t in m.outboundByTag && d in m.outboundByTag[t].Dependencies()
  }

  lemma SoleDependent(m: State, tag: string, d: string, t: string)
    requires tag in m.outboundByTag
    ensures var w := Without(Get(m.dependByTag, d), tag);
      (Repeats(m.outboundByTag[tag].Dependencies(), d) && |w| == 1 && t in w &&
       t in m.outboundByTag && d in m.outboundByTag[t].Dependencies()) ==> LosesDependent(m, tag)
  {
    var w := Without(Get(m.dependByTag, d), tag);
    assert |w| == 1 && t in w ==> w == [t];
  }

  /** The exact condition for a removal to keep every live dependent registered: it is refused, or no
      dependency named twice has exactly one other entry, that of a live dependent. */
  lemma RemoveKeepsRegisteredExactly(m: State, tag: string)
    requires Registered(m) && tag in m.outboundByTag
    ensures Registered(RemoveState(m, tag)) <==> Get(m.dependByTag, tag) != [] || !LosesDependent(m, tag)
  {
    var o, m' := m.outboundByTag[tag], RemoveState(m, tag);
    if Get(m.dependByTag, tag) == [] {
      forall d ensures Get(m'.dependByTag, d) == CleanedEntry(Get(m.dependByTag, d), o.Dependencies(), tag, d) {
        DropDependentsClosedForm(m.dependByTag, o.Dependencies(), tag, d);
      }
      if LosesDependent(m, tag) {
        var d, t :|
          && Repeats(o.Dependencies(), d)
          && Without(Get(m.dependByTag, d), tag) == [t]
          && t in m.outboundByTag && d in m.outboundByTag[t].Dependencies();
        WithoutTwice(Get(m.dependByTag, d), tag);
        assert t in m'.outboundByTag && t !in Get(m'.dependByTag, d);
      } else {
        forall t, d | t in m'.outboundByTag && d in m'.outboundByTag[t].Dependencies()
          ensures t in Get(m'.dependByTag, d)
        {
          var w := Without(Get(m.dependByTag, d), tag);
          assert t in w;
          SoleDependent(m, tag, d, t);
        }
      }
    }
  }

  /** A run whose nodes all have duplicate-free dependency lists. */
  ghost predicate CleanDependencies(steps: seq<Step>) {
    forall s :: s in steps && s.Create? ==> Distinct(s.option.deps)
  }

  ghost predicate CleanIndex(m: State) {
    forall t :: t in m.outboundByTag ==> Distinct(m.outboundByTag[t].Dependencies())
  }

  lemma StepKeepsRegistered(cfg: Config, m: State, step: Step)
    requires Registered(m) && CleanIndex(m) && (step.Create? ==> Distinct(step.option.deps))
    ensures Registered(Apply(cfg, m, step)) && CleanIndex(Apply(cfg, m, step))
  {
    match step
    case Create(tag, option, env) => CreateKeepsRegistered(cfg, m, tag, option, env);
    case Remove(tag) =>
      if tag in m.outboundByTag { RemoveKeepsRegisteredExactly(m, tag); }
    case Start(stage, fallbackBuilds) =>
    case Close =>
  }

  /** Over every run, replacements and refused removals included, each live outbound stays registered. */
  lemma {:induction false} RunKeepsRegistered(cfg: Config, steps: seq<Step>)
    requires CleanDependencies(steps)
    ensures var m := Run(cfg, INITIAL, steps); Registered(m) && CleanIndex(m)
  {
    if steps != [] {
      var before, step := steps[..|steps| - 1], steps[|steps| - 1];
      assert steps == before + [step];
      RunKeepsRegistered(cfg, before);
      StepKeepsRegistered(cfg, Run(cfg, INITIAL, before), step);
    }
  }

  /** Whenever a removal reports success, nothing left in the registry depends on the removed tag. */
  lemma RemovedHasNoDependents(cfg: Config, steps: seq<Step>, tag: string, env: Env)
    requires CleanDependencies(steps)
    requires RemoveError(Run(cfg, INITIAL, steps), tag, env).None?
    ensures var m' := RemoveState(Run(cfg, INITIAL, steps), tag);
      tag !in m'.outboundByTag && forall t :: t in m'.outboundByTag ==> tag !in m'.outboundByTag[t].Dependencies()
  {
    RunKeepsRegistered(cfg, steps);
  }

  // ---------------------------------------------------------------------------
  // Refusals
  // ---------------------------------------------------------------------------

  ghost predicate DependsLive(m: State, t: string, tag: string) {
    t in m.outboundByTag && tag in m.outboundByTag[t].Dependencies()
  }

  /** The table names live dependents only. */
  ghost predicate NamesLive(m: State) {
    forall d, t :: t in Get(m.dependByTag, d) ==> DependsLive(m, t, d)
  }

  /** A creation keeps that exactly when it fails, or gives up no dependency of the object it replaces. */
  lemma CreateNamesLiveExactly(cfg: Config, m: State, tag: string, option: OutboundOption, env: Env)
    requires Registered(m) && NamesLive(m)
    ensures NamesLive(CreateState(cfg, m, tag, option, env)) <==>
      || CreateError(m, tag, m.builtSoFar, env).Some?
      || (tag in m.outboundByTag ==> forall d :: d in m.outboundByTag[tag].Dependencies() ==> d in option.deps)
  {
    AddDependentsMembers(m.dependByTag, option.deps, tag);
    var m' := CreateState(cfg, m, tag, option, env);
    if CreateError(m, tag, m.builtSoFar, env).None? {
      if d :| tag in m.outboundByTag && d in m.outboundByTag[tag].Dependencies() && d !in option.deps {
        assert tag in Get(m'.dependByTag, d) && !DependsLive(m', tag, d);
      } else {
        forall d, t | t in Get(m'.dependByTag, d) ensures DependsLive(m', t, d) {
          if t in Get(m.dependByTag, d) { assert DependsLive(m, t, d); }
        }
      }
    }
  }

  /** A removal keeps it exactly when it is not refused, or what it takes out has no dependencies: a refused one
      leaves the names of the object it has unregistered in the table. */
  lemma RemoveNamesLiveExactly(m: State, tag: string)
    requires Registered(m) && NamesLive(m) && tag in m.outboundByTag
    ensures NamesLive(RemoveState(m, tag)) <==>
      Get(m.dependByTag, tag) == [] || m.outboundByTag[tag].Dependencies() == []
  {
    var deps, m' := m.outboundByTag[tag].Dependencies(), RemoveState(m, tag);
    if Get(m.dependByTag, tag) == [] {
      forall d, t | t in Get(m'.dependByTag, d) ensures DependsLive(m', t, d) {
        DropDependentsClosedForm(m.dependByTag, deps, tag, d);
        assert t in Get(m.dependByTag, d) && DependsLive(m, t, d);
      }
    } else if deps == [] {
      forall d, t | t in Get(m'.dependByTag, d) ensures DependsLive(m', t, d) {
        assert DependsLive(m, t, d);
      }
    } else {
      assert tag in Get(m'.dependByTag, deps[0]) && !DependsLive(m', tag, deps[0]);
    }
  }

  /** A step that leaves no name behind in the table. */
  ghost predicate Tidy(m: State, step: Step) {
    match step
    case Create(tag, option, env) =>
      || CreateError(m, tag, m.builtSoFar, env).Some?
      || (tag in m.outboundByTag ==> forall d :: d in m.outboundByTag[tag].Dependencies() ==> d in option.deps)
    case Remove(tag) =>
      tag in m.outboundByTag ==> Get(m.dependByTag, tag) == [] || m.outboundByTag[tag].Dependencies() == []
    case Start(_, _) => true
    case Close => true
  }

  ghost predicate TidyRun(cfg: Config, steps: seq<Step>) {
    steps != [] ==>
      && TidyRun(cfg, steps[..|steps| - 1])
      && Tidy(Run(cfg, INITIAL, steps[..|steps| - 1]), steps[|steps| - 1])
  }

  lemma StartKeepsNamesLive(cfg: Config, m: State, stage: nat, fallbackBuilds: bool)
    requires PartIndexed(cfg, m) && Agree(m) && NamesLive(m)
    ensures NamesLive(StartState(cfg, m, stage, fallbackBuilds))
  {
    var m' := StartState(cfg, m, stage, fallbackBuilds);
    forall d, t | t in Get(m'.dependByTag, d) ensures DependsLive(m', t, d) {
      assert DependsLive(m, t, d) && m.outboundByTag[t] in m.outbounds;
    }
  }

  lemma {:induction false} TidyRunNamesLive(cfg: Config, steps: seq<Step>)
    requires CleanDependencies(steps) && Close !in steps && TidyRun(cfg, steps)
    ensures NamesLive(Run(cfg, INITIAL, steps))
  {
    if steps != [] {
      var before, step := steps[..|steps| - 1], steps[|steps| - 1];
      assert steps == before + [step];
      TidyRunNamesLive(cfg, before);
      RunKeepsRegistered(cfg, before);
      RunKeepsIndex(cfg, before);
      var m := Run(cfg, INITIAL, before);
      assert step in steps;
      match step
      case Create(tag, option, env) => CreateNamesLiveExactly(cfg, m, tag, option, env);
      case Remove(tag) => if tag in m.outboundByTag { RemoveNamesLiveExactly(m, tag); }
      case Start(stage, fallbackBuilds) => StartKeepsNamesLive(cfg, m, stage, fallbackBuilds);
      case Close =>
    }
  }

  /** After a run in which no replacement gave up a dependency and no refused removal took out an object with
      dependencies, a removal is refused exactly when something live depends on the tag, and it names exactly that. */
  lemma RefusalNamesDependentsExactly(cfg: Config, steps: seq<Step>, tag: string, env: Env)
    requires CleanDependencies(steps) && Close !in steps && TidyRun(cfg, steps)
    requires tag in Run(cfg, INITIAL, steps).outboundByTag
    ensures var m := Run(cfg, INITIAL, steps);
      var err := RemoveError(m, tag, env);
      && (err.Some? && err.value.DependedBy? <==> exists t :: DependsLive(m, t, tag))
      && (err.Some? && err.value.DependedBy? ==> forall t :: t in err.value.dependents <==> DependsLive(m, t, tag))
  {
    TidyRunNamesLive(cfg, steps);
    RunKeepsRegistered(cfg, steps);
    var m := Run(cfg, INITIAL, steps);
    var names := Get(m.dependByTag, tag);
    if names != [] { assert names[0] in names && DependsLive(m, names[0], tag); }
    if t :| DependsLive(m, t, tag) { assert t in names; }
  }

  /** Otherwise a refusal may be for nothing: a sole dependent that was replaced by one without the dependency still
      blocks the removal, which takes `tag` out of the index all the same. */
  lemma FormerDependentBlocksRemoval(cfg: Config, m: State, tag: string, t: string, option: OutboundOption,
                                     env: Env, later: Env)
    requires Registered(m) && tag in m.outboundByTag && t != tag && DependsLive(m, t, tag)
    requires forall u :: u != t ==> !DependsLive(m, u, tag)
    requires tag !in option.deps && CreateError(m, t, m.builtSoFar, env).None?
    ensures var m1 := CreateState(cfg, m, t, option, env);
      var err := RemoveError(m1, tag, later);
      && (forall u :: !DependsLive(m1, u, tag))
      && err.Some? && err.value.DependedBy? && t in err.value.dependents
      && tag !in RemoveState(m1, tag).outboundByTag
  {
    AddDependentsMembers(m.dependByTag, option.deps, t);
    var m1 := CreateState(cfg, m, t, option, env);
    assert t in Get(m.dependByTag, tag) && t in Get(m1.dependByTag, tag);
    forall u ensures !DependsLive(m1, u, tag) {
      if u != t { assert !DependsLive(m, u, tag); }
    }
  }

  const NODE_A := OutboundOption("a", "k", [], "")
  const NODE_B := OutboundOption("b", "k", ["a", "a"], "")
  const NODE_C := OutboundOption("c", "k", ["a"], "")

  lemma WithoutStep(x: string, rest: seq<string>, tag: string)
    ensures Without([x] + rest, tag) == (if x == tag then [] else [x]) + Without(rest, tag)
  {
    assert ([x] + rest)[1..] == rest;
  }

  lemma ThreeTables()
    ensures AddDependents(map[], NODE_A.deps, "a") == map[]
    ensures AddDependents(map[], NODE_B.deps, "b") == map["a" := ["b", "b"]]
    ensures AddDependents(map["a" := ["b", "b"]], NODE_C.deps, "c") == map["a" := ["b", "b", "c"]]
  {
    assert [] + ["a"] == ["a"] && ["a"] + ["a"] == NODE_B.deps;
    AddDependentsAppend(map[], [], "a", "b");
    AddDependentsAppend(map[], ["a"], "a", "b");
    AddDependentsAppend(map["a" := ["b", "b"]], [], "a", "c");
    assert [] + ["b"] == ["b"] && ["b"] + ["b"] == ["b", "b"] && ["b", "b"] + ["c"] == ["b", "b", "c"];
  }

  lemma DroppedTable()
    ensures Get(DropDependents(map["a" := ["b", "b", "c"]], NODE_B.deps, "b"), "a") == []
  {
    assert "b"[0] != "c"[0];
    WithoutStep("c", [], "b");
    WithoutStep("b", ["c"], "b");
    WithoutStep("b", ["b", "c"], "b");
    assert [] + ["c"] == ["c"] && ["c"] + [] == ["c"];
    assert ["b"] + ["c"] == ["b", "c"] && ["b"] + ["b", "c"] == ["b", "b", "c"];
    assert Without(["b", "b", "c"], "b") == ["c"];
    assert NODE_B.deps[0] == "a" && NODE_B.deps[1] == "a";
    DropDependentsClosedForm(map["a" := ["b", "b", "c"]], NODE_B.deps, "b", "a");
  }

  /** The registry after creating nodes "a", "b" and "c" in that order. */
  function ThreeNodes(cfg: Config, env: Env): State {
    CreateState(cfg, CreateState(cfg, CreateState(cfg, INITIAL, "a", NODE_A, env), "b", NODE_B, env), "c", NODE_C, env)
  }

  lemma AfterThreeCreates(cfg: Config, env: Env)
    requires Smooth(env)
    ensures var m := ThreeNodes(cfg, env);
      && m.dependByTag == map["a" := ["b", "b", "c"]] && !m.started
      && m.outboundByTag ==
        map["a" := Outbound(0, "a", NODE_A), "b" := Outbound(1, "b", NODE_B), "c" := Outbound(2, "c", NODE_C)]
  {
    ThreeTables();
    var m1 := CreateState(cfg, INITIAL, "a", NODE_A, env);
    assert m1.dependByTag == map[] && m1.outboundByTag == map["a" := Outbound(0, "a", NODE_A)] && m1.builtSoFar == 1;
    var m2 := CreateState(cfg, m1, "b", NODE_B, env);
    assert m2.dependByTag == map["a" := ["b", "b"]] && m2.builtSoFar == 2;
  }

  /** With a repeated dependency the promise fails: removing a group that names "a" twice forgets that "c" uses
      "a", so "a" can then be removed with success although "c" still depends on it. */
  lemma RepeatedDependencyForgetsDependent(cfg: Config, env: Env)
    requires Smooth(env)
    ensures var m := RemoveState(ThreeNodes(cfg, env), "b");
      && RemoveError(m, "a", env).None?
      && "c" in RemoveState(m, "a").outboundByTag && "a" in NODE_C.deps
      && RemoveState(m, "a").outboundByTag["c"].Dependencies() == NODE_C.deps
  {
    DroppedTable();
    AfterThreeCreates(cfg, env);
  }

  /** A refused removal has already unregistered the outbound: its dependents are left pointing at nothing. */
  lemma RefusedRemovalStillUnregisters(cfg: Config, m: State, tag: string, env: Env)
    requires PartIndexed(cfg, m)
    requires RemoveError(m, tag, env).Some? && RemoveError(m, tag, env).value.DependedBy?
    ensures var m' := RemoveState(m, tag);
      && tag !in m'.outboundByTag && tag !in TagSet(m'.outbounds)
      && m'.dependByTag == m.dependByTag
      && forall t :: t in m.outboundByTag && t != tag ==>
        t in m'.outboundByTag && m'.outboundByTag[t] == m.outboundByTag[t]
  {
    CutMembers(m.outbounds, m.outboundByTag[tag]);
  }
}

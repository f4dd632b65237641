/** What single operations of the registry mean, and what runs of them make of list order and default outbound. */
module RegistryLaws {
  import opened Nodes
  import opened OutboundManager

  // ---------------------------------------------------------------------------
  // Answering and starting stages
  // ---------------------------------------------------------------------------

  /** An indexed tag is answered from the index even where an endpoint has it too; any other by the first endpoint that
      has it, if there is one. */
  lemma AnswersExactly(cfg: Config, m: State, tag: string)
    ensures var r := Lookup(cfg, m, tag);
      && (tag in m.outboundByTag ==> r == Some(m.outboundByTag[tag]))
      && (tag !in m.outboundByTag ==> (r.Some? <==> exists e :: e in cfg.endpoints && e.tag == tag))
      && (tag !in m.outboundByTag && r.Some? ==> exists i ::
            && 0 <= i < |cfg.endpoints| && r.value == cfg.endpoints[i] && cfg.endpoints[i].tag == tag
            && forall j :: 0 <= j < i ==> cfg.endpoints[j].tag != tag)
  {
    if tag !in m.outboundByTag && tag in TagSet(cfg.endpoints) { var i := FirstEndpoint(cfg.endpoints, tag); }
  }

  lemma {:induction false} FirstEndpoint(endpoints: seq<Outbound>, tag: string) returns (i: nat)
    requires tag in TagSet(endpoints)
    ensures i < |endpoints| && endpoints[i].tag == tag && FindEndpoint(endpoints, tag) == Some(endpoints[i])
    ensures forall j :: 0 <= j < i ==> endpoints[j].tag != tag
  {
    if endpoints[0].tag == tag {
      i := 0;
    } else {
      assert endpoints == [endpoints[0]] + endpoints[1..];
      var k := FirstEndpoint(endpoints[1..], tag);
      i := k + 1;
    }
  }

  /** A stage that was reached before is not started again; any other leaves the registry started, at that stage. A
      stage other than the launch moves nothing else. */
  lemma StageExactly(cfg: Config, m: State, stage: nat, fallbackBuilds: bool)
    ensures var m' := StartState(cfg, m, stage, fallbackBuilds);
      && (m.started && m.stage >= stage ==> m' == m)
      && (!(m.started && m.stage >= stage) ==> m'.started && m'.stage == stage)
      && (stage != STAGE_START ==> m' == m.(started := m'.started, stage := m'.stage))
      && m'.dependByTag == m.dependByTag
  {
  }

  // ---------------------------------------------------------------------------
  // Creating and removing
  // ---------------------------------------------------------------------------

  /** The new object enters exactly when the tag is not empty, the constructor succeeds and, in a started registry,
      its start and the close of what it replaces succeed. Then it is what the tag answers, at the end of the list. If
      not, nothing but the count of constructor calls has moved. In no case does another tag's answer move. */
  lemma CreationEntersExactly(cfg: Config, m: State, tag: string, option: OutboundOption, env: Env)
    requires PartIndexed(cfg, m)
    ensures var m' := CreateState(cfg, m, tag, option, env);
      var new_ := Outbound(m.builtSoFar, tag, option);
      && (tag in m'.outboundByTag && m'.outboundByTag[tag] == new_ <==>
            && tag != "" && env.builds(m.builtSoFar)
            && (m.started ==> env.starts(m.builtSoFar))
            && (m.started && tag in m.outboundByTag ==> env.closes(m.outboundByTag[tag].id)))
      && (if new_ in m'.outbounds then m'.outbounds[|m'.outbounds| - 1] == new_
          else m' == m.(builtSoFar := m'.builtSoFar))
      && (new_ in m'.outbounds <==> tag in m'.outboundByTag && m'.outboundByTag[tag] == new_)
      && forall t :: t != tag ==> Lookup(cfg, m', t) == Lookup(cfg, m, t)
  {
    var m' := CreateState(cfg, m, tag, option, env);
    if CreateError(m, tag, m.builtSoFar, env).None? {
      assert m'.outbounds[|m'.outbounds| - 1] in m'.outbounds;
    }
  }

  /** What a failed creation reports: the first thing that went wrong, in the order of the steps. */
  lemma CreationErrorExactly(m: State, tag: string, id: nat, env: Env)
    ensures var err := CreateError(m, tag, id, env);
      && (err == Some(InvalidArgument) <==> tag == "")
      && (err == Some(BuildFailed) <==> tag != "" && !env.builds(id))
      && (err == Some(StartFailed) <==> tag != "" && env.builds(id) && m.started && !env.starts(id))
      && (err == Some(CloseFailed) <==> tag != "" && env.builds(id) && m.started && env.starts(id)
                                        && tag in m.outboundByTag && !env.closes(m.outboundByTag[tag].id))
  {
  }

  /** A removal takes the tag out of index and list and leaves every other entry, whatever it answers. It answers that
      the tag is unknown, that it is depended on, that closing failed in a started registry, or success. */
  lemma RemovalExactly(cfg: Config, m: State, tag: string, env: Env)
    requires PartIndexed(cfg, m)
    ensures var m', err := RemoveState(m, tag), RemoveError(m, tag, env);
      && tag !in m'.outboundByTag
      && (forall t :: t != tag ==> Lookup(cfg, m', t) == Lookup(cfg, m, t))
      && (forall o :: o in m'.outbounds <==> o in m.outbounds && o.tag != tag)
      && (err == Some(InvalidArgument) <==> tag !in m.outboundByTag)
      && (err.None? <==> && tag in m.outboundByTag && Get(m.dependByTag, tag) == []
                         && (m.started ==> env.closes(m.outboundByTag[tag].id)))
      && (err == Some(CloseFailed) ==>
            m.started && !env.closes(m.outboundByTag[tag].id) && Get(m.dependByTag, tag) == [])
  {
    if tag in m.outboundByTag { CutMembers(m.outbounds, m.outboundByTag[tag]); }
  }

  /** A close empties the list of a started registry, and no tag's answer moves. */
  lemma CloseKeepsAnswers(cfg: Config, m: State, tag: string)
    ensures var m' := CloseState(m);
      && Lookup(cfg, m', tag) == Lookup(cfg, m, tag) && !m'.started
      && m'.outbounds == (if m.started then [] else m.outbounds)
  {
  }

  // ---------------------------------------------------------------------------
  // The order of the list
  // ---------------------------------------------------------------------------

  /** Objects are listed in the order in which they were built. */
  ghost predicate InBuildOrder(m: State) {
    && (forall o :: o in m.outbounds ==> o.id < m.builtSoFar)
    && forall i, j :: 0 <= i < j < |m.outbounds| ==> m.outbounds[i].id < m.outbounds[j].id
  }

  lemma CutKeepsOrder(s: seq<Outbound>, x: Outbound)
    requires forall i, j :: 0 <= i < j < |s| ==> s[i].id < s[j].id
    ensures var c := Cut(s, x);
      && (forall i, j :: 0 <= i < j < |c| ==> c[i].id < c[j].id)
      && forall y :: y in c ==> y in s
  {
    var k, c := IndexOf(s, x), Cut(s, x);
    if k < |s| {
      assert forall i :: 0 <= i < |c| ==> c[i] == s[if i < k then i else i + 1];
    }
  }

  lemma AppendKeepsOrder(s: seq<Outbound>, x: Outbound)
    requires forall i, j :: 0 <= i < j < |s| ==> s[i].id < s[j].id
    requires forall o :: o in s ==> o.id < x.id
    ensures var r := s + [x];
      forall i, j :: 0 <= i < j < |r| ==> r[i].id < r[j].id
  {
    assert forall i :: 0 <= i < |s| ==> s[i] in s;
  }

  lemma CreateKeepsOrder(cfg: Config, m: State, tag: string, option: OutboundOption, env: Env)
    requires InBuildOrder(m)
    ensures InBuildOrder(CreateState(cfg, m, tag, option, env))
  {
    if CreateError(m, tag, m.builtSoFar, env).None? {
      var list := if tag in m.outboundByTag then Cut(m.outbounds, m.outboundByTag[tag]) else m.outbounds;
      if tag in m.outboundByTag { CutKeepsOrder(m.outbounds, m.outboundByTag[tag]); }
      assert forall x :: x in list ==> x in m.outbounds;
      AppendKeepsOrder(list, Outbound(m.builtSoFar, tag, option));
    }
  }

  lemma StartKeepsOrder(cfg: Config, m: State, stage: nat, fallbackBuilds: bool)
    requires InBuildOrder(m)
    ensures InBuildOrder(StartState(cfg, m, stage, fallbackBuilds))
  {
    var m' := StartState(cfg, m, stage, fallbackBuilds);
    if m'.outbounds != m.outbounds { AppendKeepsOrder(m.outbounds, m'.outbounds[|m'.outbounds| - 1]); }
  }

  lemma RemoveKeepsOrder(m: State, tag: string)
    requires InBuildOrder(m)
    ensures InBuildOrder(RemoveState(m, tag))
  {
    if tag in m.outboundByTag { CutKeepsOrder(m.outbounds, m.outboundByTag[tag]); }
  }

  /** Over every run the list is in build order: replacing an outbound moves its tag to the end. */
  lemma {:induction false} RunKeepsBuildOrder(cfg: Config, steps: seq<Step>)
    ensures InBuildOrder(Run(cfg, INITIAL, steps))
  {
    if steps != [] {
      var m, step := Run(cfg, INITIAL, steps[..|steps| - 1]), steps[|steps| - 1];
      RunKeepsBuildOrder(cfg, steps[..|steps| - 1]);
      match step
      case Create(tag, option, env) => CreateKeepsOrder(cfg, m, tag, option, env);
      case Remove(tag) => RemoveKeepsOrder(m, tag);
      case Start(stage, fallbackBuilds) => StartKeepsOrder(cfg, m, stage, fallbackBuilds);
      case Close =>
    }
  }

  // ---------------------------------------------------------------------------
  // The default outbound
  // ---------------------------------------------------------------------------

  /** A creation makes the new object the default exactly when its tag is the configured default, or none is configured
      and there is no default yet; otherwise the default stays what it was. */
  lemma CreateDefaultExactly(cfg: Config, m: State, tag: string, option: OutboundOption, env: Env)
    requires PartIndexed(cfg, m) && (m.defaultOutbound.Some? ==> m.defaultOutbound.value.id != m.builtSoFar)
    ensures var m', new_ := CreateState(cfg, m, tag, option, env), Outbound(m.builtSoFar, tag, option);
      && (m'.defaultOutbound == Some(new_) <==>
            new_ in m'.outbounds && (tag == cfg.defaultTag || (cfg.defaultTag == "" && m.defaultOutbound.None?)))
      && (m'.defaultOutbound != Some(new_) ==> m'.defaultOutbound == m.defaultOutbound)
  {
    var m', new_ := CreateState(cfg, m, tag, option, env), Outbound(m.builtSoFar, tag, option);
    if CreateError(m, tag, m.builtSoFar, env).None? {
      assert m'.outbounds[|m'.outbounds| - 1] == new_;
    } else {
      assert new_ !in m'.outbounds;
    }
  }

  /** A removal, refused or not, never leaves the removed object as the default: in its place comes the first outbound
      still listed, or none exactly when the list is empty. Another default stays. */
  lemma RemoveDefaultExactly(cfg: Config, m: State, tag: string)
    requires PartIndexed(cfg, m) && tag in m.outboundByTag
    ensures var m', o := RemoveState(m, tag), m.outboundByTag[tag];
      && m'.defaultOutbound != Some(o)
      && (m.defaultOutbound != Some(o) ==> m'.defaultOutbound == m.defaultOutbound)
      && (m.defaultOutbound == Some(o) ==>
            && (m'.defaultOutbound.None? <==> m'.outbounds == [])
            && (m'.outbounds != [] ==> m'.defaultOutbound == Some(m'.outbounds[0])))
  {
    CutMembers(m.outbounds, m.outboundByTag[tag]);
    var m' := RemoveState(m, tag);
    if m'.outbounds != [] { assert m'.outbounds[0] in m'.outbounds; }
  }

  /** A launch keeps a default; without one it takes the endpoint with the configured tag, or when none is configured
      a new direct outbound, listed last and answering its tag. It leaves none exactly when that one is not there. */
  lemma LaunchDefaultExactly(cfg: Config, m: State, fallbackBuilds: bool)
    requires !AlreadyStarted(m, STAGE_START)
    ensures var m' := StartState(cfg, m, STAGE_START, fallbackBuilds);
      && m'.started && m'.stage == STAGE_START
      && (m.defaultOutbound.Some? ==> m'.defaultOutbound == m.defaultOutbound)
      && (m'.defaultOutbound.None? <==>
            && m.defaultOutbound.None?
            && if cfg.defaultTag != "" then cfg.defaultTag !in TagSet(cfg.endpoints) else !fallbackBuilds)
      && (m.defaultOutbound.None? && m'.defaultOutbound.Some? ==>
            var d := m'.defaultOutbound.value;
            if cfg.defaultTag != "" then d in cfg.endpoints && d.tag == cfg.defaultTag && m'.outbounds == m.outbounds
            else m'.outbounds == m.outbounds + [d] && d.tag == DIRECT_TAG && Lookup(cfg, m', DIRECT_TAG) == Some(d))
  {
  }

  /** The default is an outbound on the list, or an endpoint. */
  ghost predicate DefaultIsThere(cfg: Config, m: State) {
    m.defaultOutbound.Some? ==> m.defaultOutbound.value in m.outbounds || m.defaultOutbound.value in cfg.endpoints
  }

  /** A creation keeps it there exactly unless it replaces the default under a tag that is not the configured one: the
      default then goes on naming the replaced object. */
  lemma CreateKeepsDefaultExactly(cfg: Config, m: State, tag: string, option: OutboundOption, env: Env)
    requires PartIndexed(cfg, m) && DefaultIsThere(cfg, m)
    ensures DefaultIsThere(cfg, CreateState(cfg, m, tag, option, env)) <==>
      || CreateError(m, tag, m.builtSoFar, env).Some? || tag == cfg.defaultTag || tag !in m.outboundByTag
      || m.defaultOutbound != Some(m.outboundByTag[tag]) || m.outboundByTag[tag] in cfg.endpoints
  {
    var m', new_ := CreateState(cfg, m, tag, option, env), Outbound(m.builtSoFar, tag, option);
    if CreateError(m, tag, m.builtSoFar, env).None? {
      assert m'.outbounds[|m'.outbounds| - 1] == new_;
      if tag in m.outboundByTag {
        CutMembers(m.outbounds, m.outboundByTag[tag]);
        assert new_ != m.outboundByTag[tag];
        assert forall o :: o in m'.outbounds <==> (o in m.outbounds && o != m.outboundByTag[tag]) || o == new_;
      }
    }
  }

  /** Whether a step keeps the default there, judged before it is made. */
  ghost predicate SparesDefault(cfg: Config, m: State, step: Step) {
    match step
    case Create(tag, option, env) =>
      || CreateError(m, tag, m.builtSoFar, env).Some? || tag == cfg.defaultTag || tag !in m.outboundByTag
      || m.defaultOutbound != Some(m.outboundByTag[tag]) || m.outboundByTag[tag] in cfg.endpoints
    case Remove(_) => true
    case Start(_, _) => true
    case Close => !m.started || m.defaultOutbound.None? || m.defaultOutbound.value in cfg.endpoints
  }

  lemma StepKeepsDefaultExactly(cfg: Config, m: State, step: Step)
    requires PartIndexed(cfg, m) && DefaultIsThere(cfg, m)
    ensures DefaultIsThere(cfg, Apply(cfg, m, step)) <==> SparesDefault(cfg, m, step)
  {
    match step
    case Create(tag, option, env) => CreateKeepsDefaultExactly(cfg, m, tag, option, env);
    case Remove(tag) =>
      if tag in m.outboundByTag {
        RemoveDefaultExactly(cfg, m, tag);
        CutMembers(m.outbounds, m.outboundByTag[tag]);
      }
    case Start(stage, fallbackBuilds) =>
      var m' := StartState(cfg, m, stage, fallbackBuilds);
      assert forall o :: o in m.outbounds ==> o in m'.outbounds;
      if m'.outbounds != m.outbounds { assert m'.outbounds[|m'.outbounds| - 1] in m'.outbounds; }
    case Close =>
  }

  ghost predicate SparingRun(cfg: Config, steps: seq<Step>) {
    steps != [] ==>
      && SparingRun(cfg, steps[..|steps| - 1])
      && SparesDefault(cfg, Run(cfg, INITIAL, steps[..|steps| - 1]), steps[|steps| - 1])
  }

  /** Over every run of such steps, removals of the default and launches included, the default is there. */
  lemma {:induction false} RunKeepsDefault(cfg: Config, steps: seq<Step>)
    requires SparingRun(cfg, steps)
    ensures DefaultIsThere(cfg, Run(cfg, INITIAL, steps))
  {
    if steps != [] {
      var before := steps[..|steps| - 1];
      RunKeepsDefault(cfg, before);
      RunKeepsIndex(cfg, before);
      StepKeepsDefaultExactly(cfg, Run(cfg, INITIAL, before), steps[|steps| - 1]);
    }
  }
}

/** A provider's refresh: reconciling the registered outbounds with a new list of options. */
module ProviderRefresh {
  import opened Nodes
  import opened OutboundManager

  datatype Provider = Provider(
    tag: string,
    outbounds: seq<Outbound>,
    outboundsByTag: map<string, Outbound>,
    lastOpts: seq<OutboundOption>)

  function Decimal(n: nat): string {
    (if n < 10 then [] else Decimal(n / 10)) + [('0' as int + n % 10) as char]
  }

  /** The tag an option's outbound is registered under: its own tag, or its position, below the provider's. */
  function FullTag(p: string, i: nat, opt: OutboundOption): string {
    p + "/" + (if opt.tag != "" then opt.tag else Decimal(i))
  }

  function FullTags(p: string, opts: seq<OutboundOption>): (r: seq<string>)
    ensures |r| == |opts| && forall i :: 0 <= i < |opts| ==> r[i] == FullTag(p, i, opts[i])
  {
    seq(|opts|, i requires 0 <= i < |opts| => FullTag(p, i, opts[i]))
  }

  function DecimalValue(s: string): nat
    requires forall i :: 0 <= i < |s| ==> '0' <= s[i] <= '9'
  {
    if s == [] then 0
    else 10 * DecimalValue(s[..|s| - 1]) + (s[|s| - 1] as int - '0' as int)
  }

  /** The positional name of a number is its decimal notation, without leading zeros. */
  lemma {:induction false} DecimalReadsBack(n: nat)
    ensures var s := Decimal(n);
      && s != [] && (forall i :: 0 <= i < |s| ==> '0' <= s[i] <= '9')
      && DecimalValue(s) == n && (n > 0 ==> s[0] != '0')
  {
    if n < 10 {
      assert Decimal(n)[..0] == [];
    } else {
      DecimalReadsBack(n / 10);
      var init, s := Decimal(n / 10), Decimal(n);
      assert s[..|s| - 1] == init;
      assert forall i :: 0 <= i < |init| ==> s[i] == init[i];
    }
  }

  /** Two options can only come to share a registry tag by being tagged alike, or by one being tagged with the decimal
      position of an untagged other. */
  lemma FullTagsDistinctExactly(p: string, opts: seq<OutboundOption>)
    ensures Distinct(FullTags(p, opts)) <==>
      forall i, j :: 0 <= i < |opts| && 0 <= j < |opts| && i != j && opts[i].tag != "" ==>
        opts[i].tag != (if opts[j].tag != "" then opts[j].tag else Decimal(j))
  {
    var tags := FullTags(p, opts);
    forall i, j | 0 <= i < |opts| && 0 <= j < |opts| && i != j
      ensures tags[i] == tags[j] <==>
        && (opts[i].tag != "" || opts[j].tag != "")
        && (if opts[i].tag != "" then opts[i].tag else Decimal(i)) ==
           (if opts[j].tag != "" then opts[j].tag else Decimal(j))
    {
      SameRest(p, if opts[i].tag != "" then opts[i].tag else Decimal(i),
               if opts[j].tag != "" then opts[j].tag else Decimal(j));
      DecimalReadsBack(i);
      DecimalReadsBack(j);
    }
  }

  lemma SameRest(p: string, a: string, b: string)
    ensures p + "/" + a == p + "/" + b <==> a == b
  {
    assert (p + "/" + a)[|p| + 1..] == a && (p + "/" + b)[|p| + 1..] == b;
  }

  /** What the map from tags to old options holds after the old list has been copied into it. */
  function OldOption(previous: seq<OutboundOption>, tag: string): OutboundOption {
    if previous == [] then ZERO_OPTION
    else if previous[|previous| - 1].tag == tag then previous[|previous| - 1]
    else OldOption(previous[..|previous| - 1], tag)
  }

  function IndexAt(m: State, tag: string): Option<Outbound> {
    if tag in m.outboundByTag then Some(m.outboundByTag[tag]) else None
  }

  // ---------------------------------------------------------------------------
  // Removing what the new list no longer has
  // ---------------------------------------------------------------------------

  function RemoveDropped(m: State, outbounds: seq<Outbound>, keep: seq<string>): State {
    if outbounds == [] then m
    else
      var m1 := RemoveDropped(m, outbounds[..|outbounds| - 1], keep);
      var tag := outbounds[|outbounds| - 1].tag;
      if tag in keep then m1 else RemoveState(m1, tag)
  }

  lemma {:induction false} RemoveDroppedIndex(m: State, outbounds: seq<Outbound>, keep: seq<string>)
    ensures var m' := RemoveDropped(m, outbounds, keep);
      && m'.builtSoFar == m.builtSoFar && m'.started == m.started
      && forall t :: IndexAt(m', t) == if t in TagSet(outbounds) && t !in keep then None else IndexAt(m, t)
  {
    if outbounds != [] {
      var init, last := outbounds[..|outbounds| - 1], outbounds[|outbounds| - 1];
      assert outbounds == init + [last];
      TagSetAppend(init, last);
      RemoveDroppedIndex(m, init, keep);
    }
  }

  // ---------------------------------------------------------------------------
  // Reconciling
  // ---------------------------------------------------------------------------

  /** Whether an option is served by what is already registered: its tag resolves and it equals the old option. */
  predicate Reusable(cfg: Config, m: State, tag: string, previous: seq<OutboundOption>, opt: OutboundOption) {
    Lookup(cfg, m, tag).Some? && opt == OldOption(previous, opt.tag)
  }

  /** So an option is served by what is registered exactly when its tag resolves and it equals the last old option of
      its tag, or is the zero option while no old option is untagged. */
  lemma ReusedExactly(cfg: Config, m: State, tag: string, previous: seq<OutboundOption>, opt: OutboundOption)
    ensures Reusable(cfg, m, tag, previous, opt) <==>
      && Lookup(cfg, m, tag).Some?
      && (LastOfItsTag(previous, opt) ||
          (opt == ZERO_OPTION && forall j :: 0 <= j < |previous| ==> previous[j].tag != ""))
  {
    LastOptionCounts(previous, opt.tag);
    if i :| 0 <= i < |previous| && previous[i] == opt && forall j :: i < j < |previous| ==> previous[j].tag != opt.tag {
      LastOptionFound(previous, i);
    }
  }

  ghost predicate LastOfItsTag(previous: seq<OutboundOption>, opt: OutboundOption) {
    exists i ::
      && 0 <= i < |previous| && previous[i] == opt
      && forall j :: i < j < |previous| ==> previous[j].tag != opt.tag
  }

  lemma {:induction false} LastOptionFound(previous: seq<OutboundOption>, i: nat)
    requires i < |previous| && forall j :: i < j < |previous| ==> previous[j].tag != previous[i].tag
    ensures OldOption(previous, previous[i].tag) == previous[i]
  {
    if i < |previous| - 1 {
      assert previous[|previous| - 1].tag != previous[i].tag;
      LastOptionFound(previous[..|previous| - 1], i);
    }
  }

  lemma {:induction false} LastOptionCounts(previous: seq<OutboundOption>, tag: string)
    ensures var o := OldOption(previous, tag);
      || (o == ZERO_OPTION && forall j :: 0 <= j < |previous| ==> previous[j].tag != tag)
      || (o.tag == tag && LastOfItsTag(previous, o))
  {
    if previous != [] {
      var k := |previous| - 1;
      if previous[k].tag != tag {
        LastOptionCounts(previous[..k], tag);
        var o := OldOption(previous, tag);
        if LastOfItsTag(previous[..k], o) && o.tag == tag {
          var i :| 0 <= i < k && previous[..k][i] == o && forall j :: i < j < k ==> previous[..k][j].tag != tag;
          assert previous[i] == o;
          assert forall j :: i < j < k ==> previous[j] == previous[..k][j];
        }
        assert forall j :: 0 <= j < k ==> previous[j] == previous[..k][j];
      }
    }
  }

  function ReconcileOne(cfg: Config, m: State, tag: string, previous: seq<OutboundOption>, opt: OutboundOption,
                        env: Env)
    : (State, Option<Outbound>)
  {
    if Reusable(cfg, m, tag, previous, opt) then (m, Lookup(cfg, m, tag))
    else
      var m' := CreateState(cfg, m, tag, opt, env);
      (m', if CreateError(m, tag, m.builtSoFar, env).Some? then None else Lookup(cfg, m', tag))
  }

  /** One slot per option, empty where the outbound could not be created. */
  function Reconcile(cfg: Config, m: State, p: string, previous: seq<OutboundOption>, opts: seq<OutboundOption>,
                     env: Env)
    : (r: (State, seq<Option<Outbound>>))
    ensures |r.1| == |opts|
  {
    if opts == [] then (m, [])
    else
      var k := |opts| - 1;
      var (m1, slots) := Reconcile(cfg, m, p, previous, opts[..k], env);
      var (m2, slot) := ReconcileOne(cfg, m1, FullTag(p, k, opts[k]), previous, opts[k], env);
      (m2, slots + [slot])
  }

  /** How many of the options need a creation, judged before any is made. */
  function Creations(cfg: Config, m: State, p: string, previous: seq<OutboundOption>, opts: seq<OutboundOption>): nat {
    if opts == [] then 0
    else
      var k := |opts| - 1;
      Creations(cfg, m, p, previous, opts[..k]) +
      if Reusable(cfg, m, FullTag(p, k, opts[k]), previous, opts[k]) then 0 else 1
  }

  /** The identity the creation for option `i` will have. */
  function NextId(cfg: Config, m: State, p: string, previous: seq<OutboundOption>, opts: seq<OutboundOption>,
                  i: nat)
    : nat
    requires i < |opts|
  {
    m.builtSoFar + Creations(cfg, m, p, previous, opts[..i])
  }

  /** Slot `i` read off the state before the loop, with no reference to the other slots. */
  function Slot(cfg: Config, m: State, p: string, previous: seq<OutboundOption>, opts: seq<OutboundOption>, env: Env,
                i: nat)
    : Option<Outbound>
    requires i < |opts|
  {
    var tag, id := FullTag(p, i, opts[i]), NextId(cfg, m, p, previous, opts, i);
    if Reusable(cfg, m, tag, previous, opts[i]) then Lookup(cfg, m, tag)
    else if CreateError(m, tag, id, env).Some? then None
    else Some(Outbound(id, tag, opts[i]))
  }

  /** What the registry holds under option `i`'s tag afterwards. */
  function Settled(cfg: Config, m: State, p: string, previous: seq<OutboundOption>, opts: seq<OutboundOption>, env: Env,
                   i: nat)
    : Option<Outbound>
    requires i < |opts|
  {
    var tag, slot := FullTag(p, i, opts[i]), Slot(cfg, m, p, previous, opts, env, i);
    if Reusable(cfg, m, tag, previous, opts[i]) || slot.None? then IndexAt(m, tag) else slot
  }

  lemma ReconcileLast(cfg: Config, m: State, m1: State, p: string, previous: seq<OutboundOption>,
                      opts: seq<OutboundOption>, env: Env)
    requires opts != []
    requires IndexAt(m1, FullTag(p, |opts| - 1, opts[|opts| - 1])) ==
      IndexAt(m, FullTag(p, |opts| - 1, opts[|opts| - 1]))
    requires m1.started == m.started
    requires m1.builtSoFar == m.builtSoFar + Creations(cfg, m, p, previous, opts[..|opts| - 1])
    ensures var k := |opts| - 1;
      var tag := FullTag(p, k, opts[k]);
      var (m2, slot) := ReconcileOne(cfg, m1, tag, previous, opts[k], env);
      && slot == Slot(cfg, m, p, previous, opts, env, k)
      && m2.builtSoFar == m.builtSoFar + Creations(cfg, m, p, previous, opts) && m2.started == m.started
      && (forall t :: t != tag ==> IndexAt(m2, t) == IndexAt(m1, t))
      && IndexAt(m2, tag) == Settled(cfg, m, p, previous, opts, env, k)
  {
  }

  lemma SlotOfPrefix(cfg: Config, m: State, p: string, previous: seq<OutboundOption>, opts: seq<OutboundOption>,
                     env: Env, k: nat, i: nat)
    requires i < k <= |opts|
    ensures Slot(cfg, m, p, previous, opts[..k], env, i) == Slot(cfg, m, p, previous, opts, env, i)
    ensures Settled(cfg, m, p, previous, opts[..k], env, i) == Settled(cfg, m, p, previous, opts, env, i)
  {
    assert opts[..k][..i] == opts[..i];
  }

  /** With distinct full tags the loop's iterations do not disturb each other: unchanged options keep the very
      object already registered, every other option is created exactly once, in order, a failed creation leaves
      the registry entry as it was, and no other registry entry moves. */
  lemma {:induction false} ReconcileSlots(cfg: Config, m: State, p: string, previous: seq<OutboundOption>,
                                          opts: seq<OutboundOption>, env: Env)
    requires Distinct(FullTags(p, opts))
    ensures var (m', slots) := Reconcile(cfg, m, p, previous, opts, env);
      && m'.builtSoFar == m.builtSoFar + Creations(cfg, m, p, previous, opts) && m'.started == m.started
      && SlotsHold(cfg, m, p, previous, opts, env, m', slots, |opts|)
      && (forall t :: t !in FullTags(p, opts) ==> IndexAt(m', t) == IndexAt(m, t))
  {
    if opts != [] {
      var k := |opts| - 1;
      var init, tag := opts[..k], FullTag(p, k, opts[k]);
      var tags, itags := FullTags(p, opts), FullTags(p, init);
      assert tags == itags + [tag];
      assert tag !in itags && Distinct(itags) by {
        assert forall i :: 0 <= i < k ==> itags[i] == tags[i];
      }
      ReconcileSlots(cfg, m, p, previous, init, env);
      var (m1, slots1) := Reconcile(cfg, m, p, previous, init, env);
      ReconcileLast(cfg, m, m1, p, previous, opts, env);
      var (m', slots) := Reconcile(cfg, m, p, previous, opts, env);
      SlotsExtend(cfg, m, p, previous, opts, env, m1, slots1, m', slots[k]);
    }
  }

  /** The first `n` slots, and the registry entries behind them, are as read off the state before the loop. */
  ghost predicate SlotsHold(cfg: Config, m: State, p: string, previous: seq<OutboundOption>, opts: seq<OutboundOption>,
                            env: Env, m': State, slots: seq<Option<Outbound>>, n: nat) {
    n <= |opts| && n <= |slots| && forall i :: 0 <= i < n ==>
      && slots[i] == Slot(cfg, m, p, previous, opts, env, i)
      && IndexAt(m', FullTag(p, i, opts[i])) == Settled(cfg, m, p, previous, opts, env, i)
  }

  lemma SlotsExtend(cfg: Config, m: State, p: string, previous: seq<OutboundOption>, opts: seq<OutboundOption>,
                    env: Env, m1: State, slots1: seq<Option<Outbound>>, m': State, slot: Option<Outbound>)
    requires opts != [] && Distinct(FullTags(p, opts)) && |slots1| == |opts| - 1
    requires SlotsHold(cfg, m, p, previous, opts[..|opts| - 1], env, m1, slots1, |opts| - 1)
    requires slot == Slot(cfg, m, p, previous, opts, env, |opts| - 1)
    requires IndexAt(m', FullTag(p, |opts| - 1, opts[|opts| - 1])) ==
      Settled(cfg, m, p, previous, opts, env, |opts| - 1)
    requires forall t :: t != FullTag(p, |opts| - 1, opts[|opts| - 1]) ==> IndexAt(m', t) == IndexAt(m1, t)
    ensures SlotsHold(cfg, m, p, previous, opts, env, m', slots1 + [slot], |opts|)
  {
    var k := |opts| - 1;
    var slots := slots1 + [slot];
    forall i | 0 <= i < |opts|
      ensures slots[i] == Slot(cfg, m, p, previous, opts, env, i)
      ensures IndexAt(m', FullTag(p, i, opts[i])) == Settled(cfg, m, p, previous, opts, env, i)
    {
      if i < k {
        SlotOfPrefix(cfg, m, p, previous, opts, env, k, i);
        assert FullTags(p, opts)[i] != FullTags(p, opts)[k];
        assert opts[..k][i] == opts[i];
      }
    }
  }

  function Somes<T>(slots: seq<Option<T>>): seq<T> {
    if slots == [] then []
    else Somes(slots[..|slots| - 1]) + if slots[|slots| - 1].Some? then [slots[|slots| - 1].value] else []
  }

  function SlotMap(p: string, opts: seq<OutboundOption>, slots: seq<Option<Outbound>>): map<string, Outbound>
    requires |slots| == |opts|
  {
    if slots == [] then map[]
    else
      var k := |slots| - 1;
      var m := SlotMap(p, opts[..k], slots[..k]);
      if slots[k].Some? then m[FullTag(p, k, opts[k]) := slots[k].value] else m
  }

  lemma {:induction false} SomesFull<T>(slots: seq<Option<T>>)
    ensures |Somes(slots)| <= |slots|
    ensures |Somes(slots)| == |slots| <==> forall i :: 0 <= i < |slots| ==> slots[i].Some?
    ensures |Somes(slots)| == |slots| ==> forall i :: 0 <= i < |slots| ==> slots[i] == Some(Somes(slots)[i])
  {
    if slots != [] {
      var init := slots[..|slots| - 1];
      assert forall i :: 0 <= i < |init| ==> slots[i] == init[i];
      SomesFull(init);
    }
  }

  /** The map files each filled slot under the tag of its outbound. */
  lemma {:induction false} SlotMapMatches(p: string, opts: seq<OutboundOption>, slots: seq<Option<Outbound>>)
    requires |slots| == |opts| && Distinct(FullTags(p, opts))
    requires forall i :: 0 <= i < |slots| && slots[i].Some? ==> slots[i].value.tag == FullTag(p, i, opts[i])
    ensures MapMatches(SlotMap(p, opts, slots), Somes(slots))
    ensures TagSet(Somes(slots)) <= set t | t in FullTags(p, opts)
  {
    if slots != [] {
      var k := |slots| - 1;
      var tags, init := FullTags(p, opts), FullTags(p, opts[..k]);
      assert tags == init + [tags[k]];
      assert forall i, j :: 0 <= i < j < k ==> init[i] == tags[i] && init[j] == tags[j];
      SlotMapMatches(p, opts[..k], slots[..k]);
      assert tags[k] !in init;
      if slots[k].Some? { TagSetAppend(Somes(slots[..k]), slots[k].value); }
    }
  }

  /** A provider's map answers exactly the tags of what it lists, with what it lists. */
  ghost predicate MapMatches(byTag: map<string, Outbound>, outbounds: seq<Outbound>) {
    byTag.Keys == TagSet(outbounds) && forall o :: o in outbounds ==> byTag[o.tag] == o
  }

  // ---------------------------------------------------------------------------
  // The whole refresh
  // ---------------------------------------------------------------------------

  function RefreshState(cfg: Config, m: State, pr: Provider, previous: seq<OutboundOption>, opts: seq<OutboundOption>,
                        env: Env)
    : (State, Provider)
  {
    var m1 := RemoveDropped(m, pr.outbounds, FullTags(pr.tag, opts));
    var (m2, slots) := Reconcile(cfg, m1, pr.tag, previous, opts, env);
    (m2, pr.(outbounds := Somes(slots), outboundsByTag := SlotMap(pr.tag, opts, slots)))
  }

  /** The provider lists the new options in order, each served by the registry's current object for its tag,
      built from an option equal to the new one: what building everything from scratch would give. */
  ghost predicate RefinesRebuild(cfg: Config, m: State, pr: Provider, opts: seq<OutboundOption>) {
    && |pr.outbounds| == |opts|
    && forall i :: 0 <= i < |opts| ==>
         && pr.outbounds[i].tag == FullTag(pr.tag, i, opts[i])
         && pr.outbounds[i].origin == opts[i]
         && Lookup(cfg, m, FullTag(pr.tag, i, opts[i])) == Some(pr.outbounds[i])
  }

  /** What decides, before the refresh, whether it will do as well as a rebuild: every creation it makes
      succeeds, and every object it keeps was built from the option it is kept for. */
  ghost predicate RefreshIsSafe(cfg: Config, m: State, p: string, previous: seq<OutboundOption>,
                                opts: seq<OutboundOption>, env: Env)
  {
    forall i :: 0 <= i < |opts| ==> SlotIsSafe(cfg, m, p, previous, opts, env, i)
  }

  ghost predicate SlotIsSafe(cfg: Config, m: State, p: string, previous: seq<OutboundOption>, opts: seq<OutboundOption>,
                             env: Env, i: nat)
    requires i < |opts|
  {
    var tag := FullTag(p, i, opts[i]);
    if Reusable(cfg, m, tag, previous, opts[i])
    then Lookup(cfg, m, tag).value.origin == opts[i]
    else CreateError(m, tag, NextId(cfg, m, p, previous, opts, i), env).None?
  }

  ghost predicate FiledByTag(m: State) {
    forall t :: t in m.outboundByTag ==> m.outboundByTag[t].tag == t
  }

  /** Two registries that look the same to the options of a refresh. */
  ghost predicate SameFor(m: State, m1: State, p: string, opts: seq<OutboundOption>) {
    && m1.builtSoFar == m.builtSoFar && m1.started == m.started
    && forall i :: 0 <= i < |opts| ==> IndexAt(m1, FullTag(p, i, opts[i])) == IndexAt(m, FullTag(p, i, opts[i]))
  }

  lemma {:induction false} CreationsSame(cfg: Config, m: State, m1: State, p: string, previous: seq<OutboundOption>,
                                         opts: seq<OutboundOption>)
    requires SameFor(m, m1, p, opts)
    ensures Creations(cfg, m1, p, previous, opts) == Creations(cfg, m, p, previous, opts)
  {
    if opts != [] {
      var k := |opts| - 1;
      assert forall i :: 0 <= i < k ==> opts[..k][i] == opts[i];
      CreationsSame(cfg, m, m1, p, previous, opts[..k]);
      assert IndexAt(m1, FullTag(p, k, opts[k])) == IndexAt(m, FullTag(p, k, opts[k]));
    }
  }

  lemma SlotSame(cfg: Config, m: State, m1: State, p: string, previous: seq<OutboundOption>, opts: seq<OutboundOption>,
                 env: Env, i: nat)
    requires SameFor(m, m1, p, opts) && i < |opts|
    ensures Slot(cfg, m1, p, previous, opts, env, i) == Slot(cfg, m, p, previous, opts, env, i)
    ensures Settled(cfg, m1, p, previous, opts, env, i) == Settled(cfg, m, p, previous, opts, env, i)
  {
    assert forall j :: 0 <= j < i ==> opts[..i][j] == opts[j];
    CreationsSame(cfg, m, m1, p, previous, opts[..i]);
    assert IndexAt(m1, FullTag(p, i, opts[i])) == IndexAt(m, FullTag(p, i, opts[i]));
  }

  lemma RemoveDroppedSame(m: State, pr: Provider, opts: seq<OutboundOption>)
    ensures SameFor(m, RemoveDropped(m, pr.outbounds, FullTags(pr.tag, opts)), pr.tag, opts)
  {
    RemoveDroppedIndex(m, pr.outbounds, FullTags(pr.tag, opts));
    forall i | 0 <= i < |opts| ensures FullTag(pr.tag, i, opts[i]) in FullTags(pr.tag, opts) {
      assert FullTags(pr.tag, opts)[i] == FullTag(pr.tag, i, opts[i]);
    }
  }

  /** The slots of a refresh. */
  function RefreshSlots(cfg: Config, m: State, pr: Provider, previous: seq<OutboundOption>, opts: seq<OutboundOption>,
                        env: Env)
    : (r: seq<Option<Outbound>>)
    ensures |r| == |opts|
  {
    Reconcile(cfg, RemoveDropped(m, pr.outbounds, FullTags(pr.tag, opts)), pr.tag, previous, opts, env).1
  }

  /** The whole effect of a refresh, read off the state before it. Each option's slot and registry entry is as
      `Slot` and `Settled` say; a listed outbound whose tag is gone is unregistered; every other entry stays; and
      one object is built for each option that needed it. */
  lemma RefreshEffect(cfg: Config, m: State, pr: Provider, previous: seq<OutboundOption>, opts: seq<OutboundOption>,
                      env: Env)
    requires Distinct(FullTags(pr.tag, opts))
    ensures var m' := RefreshState(cfg, m, pr, previous, opts, env).0;
      && SlotsHold(cfg, m, pr.tag, previous, opts, env, m', RefreshSlots(cfg, m, pr, previous, opts, env), |opts|)
      && m'.builtSoFar == m.builtSoFar + Creations(cfg, m, pr.tag, previous, opts) && m'.started == m.started
      && forall t :: t !in FullTags(pr.tag, opts) ==>
           IndexAt(m', t) == if t in TagSet(pr.outbounds) then None else IndexAt(m, t)
  {
    var m1 := RemoveDropped(m, pr.outbounds, FullTags(pr.tag, opts));
    RemoveDroppedIndex(m, pr.outbounds, FullTags(pr.tag, opts));
    RemoveDroppedSame(m, pr, opts);
    ReconcileSlots(cfg, m1, pr.tag, previous, opts, env);
    CreationsSame(cfg, m, m1, pr.tag, previous, opts);
    var (m', slots) := Reconcile(cfg, m1, pr.tag, previous, opts, env);
    forall i | 0 <= i < |opts|
      ensures slots[i] == Slot(cfg, m, pr.tag, previous, opts, env, i)
      ensures IndexAt(m', FullTag(pr.tag, i, opts[i])) == Settled(cfg, m, pr.tag, previous, opts, env, i)
    {
      SlotSame(cfg, m, m1, pr.tag, previous, opts, env, i);
    }
  }

  /** A filled slot holds the registry's object for its tag. */
  ghost predicate SlotServed(cfg: Config, m': State, p: string, opts: seq<OutboundOption>, slots: seq<Option<Outbound>>,
                             i: nat)
    requires i < |opts| == |slots|
  {
    slots[i].Some? ==>
      slots[i].value.tag == FullTag(p, i, opts[i]) && Lookup(cfg, m', FullTag(p, i, opts[i])) == slots[i]
  }

  lemma SlotIsServed(cfg: Config, m: State, m': State, p: string, previous: seq<OutboundOption>,
                     opts: seq<OutboundOption>, env: Env, slots: seq<Option<Outbound>>, i: nat)
    requires |slots| == |opts| && SlotsHold(cfg, m, p, previous, opts, env, m', slots, |opts|) && FiledByTag(m)
    requires i < |opts|
    ensures SlotServed(cfg, m', p, opts, slots, i)
    ensures SlotIsSafe(cfg, m, p, previous, opts, env, i) <==> slots[i].Some? && slots[i].value.origin == opts[i]
  {
    assert slots[i] == Slot(cfg, m, p, previous, opts, env, i);
    assert IndexAt(m', FullTag(p, i, opts[i])) == Settled(cfg, m, p, previous, opts, env, i);
  }

  /** After a refresh, failed creations or not, the provider's map matches its list. */
  lemma RefreshMapMatches(cfg: Config, m: State, pr: Provider, previous: seq<OutboundOption>,
                          opts: seq<OutboundOption>, env: Env)
    requires Distinct(FullTags(pr.tag, opts)) && FiledByTag(m)
    ensures var pr' := RefreshState(cfg, m, pr, previous, opts, env).1;
      MapMatches(pr'.outboundsByTag, pr'.outbounds)
  {
    RefreshEffect(cfg, m, pr, previous, opts, env);
    var m', slots := RefreshState(cfg, m, pr, previous, opts, env).0, RefreshSlots(cfg, m, pr, previous, opts, env);
    forall i | 0 <= i < |slots| && slots[i].Some? ensures slots[i].value.tag == FullTag(pr.tag, i, opts[i]) {
      SlotIsServed(cfg, m, m', pr.tag, previous, opts, env, slots, i);
    }
    SlotMapMatches(pr.tag, opts, slots);
  }

  lemma SomesRefine(cfg: Config, m': State, p: string, opts: seq<OutboundOption>, slots: seq<Option<Outbound>>,
                    pr': Provider)
    requires |slots| == |opts| && pr'.tag == p && pr'.outbounds == Somes(slots)
    requires forall i :: 0 <= i < |opts| ==> SlotServed(cfg, m', p, opts, slots, i)
    ensures RefinesRebuild(cfg, m', pr', opts) <==>
      forall i :: 0 <= i < |opts| ==> slots[i].Some? && slots[i].value.origin == opts[i]
  {
    SomesFull(slots);
    if forall i :: 0 <= i < |opts| ==> slots[i].Some? && slots[i].value.origin == opts[i] {
      forall i | 0 <= i < |opts|
        ensures pr'.outbounds[i].tag == FullTag(p, i, opts[i]) && pr'.outbounds[i].origin == opts[i]
        ensures Lookup(cfg, m', FullTag(p, i, opts[i])) == Some(pr'.outbounds[i])
      {
        assert SlotServed(cfg, m', p, opts, slots, i);
      }
    }
    if RefinesRebuild(cfg, m', pr', opts) {
      forall i | 0 <= i < |opts| ensures slots[i].Some? && slots[i].value.origin == opts[i] {
        assert slots[i] == Some(pr'.outbounds[i]);
      }
    }
  }

  /** For options with distinct full tags, an incremental refresh is as good as a rebuild exactly when it is safe. */
  lemma RefreshRefinesRebuildExactly(cfg: Config, m: State, pr: Provider, previous: seq<OutboundOption>,
                                     opts: seq<OutboundOption>, env: Env)
    requires Distinct(FullTags(pr.tag, opts)) && FiledByTag(m)
    ensures var (m', pr') := RefreshState(cfg, m, pr, previous, opts, env);
      RefinesRebuild(cfg, m', pr', opts) <==> RefreshIsSafe(cfg, m, pr.tag, previous, opts, env)
  {
    var (m', pr') := RefreshState(cfg, m, pr, previous, opts, env);
    var slots := RefreshSlots(cfg, m, pr, previous, opts, env);
    RefreshEffect(cfg, m, pr, previous, opts, env);
    forall i | 0 <= i < |opts|
      ensures SlotServed(cfg, m', pr.tag, opts, slots, i)
      ensures SlotIsSafe(cfg, m, pr.tag, previous, opts, env, i) <==> slots[i].Some? && slots[i].value.origin == opts[i]
    {
      SlotIsServed(cfg, m, m', pr.tag, previous, opts, env, slots, i);
    }
    SomesRefine(cfg, m', pr.tag, opts, slots, pr');
  }

  /** A refresh with a single option, in plain terms: what is listed, registered and counted afterwards. */
  lemma SingleRefresh(cfg: Config, m: State, pr: Provider, previous: seq<OutboundOption>, opts: seq<OutboundOption>,
                      env: Env)
    requires |opts| == 1
    ensures var (m', pr') := RefreshState(cfg, m, pr, previous, opts, env);
      var tag := FullTag(pr.tag, 0, opts[0]);
      if Reusable(cfg, m, tag, previous, opts[0]) then
        && pr'.outbounds == [Lookup(cfg, m, tag).value]
        && IndexAt(m', tag) == IndexAt(m, tag) && m'.builtSoFar == m.builtSoFar
      else if CreateError(m, tag, m.builtSoFar, env).Some? then
        && pr'.outbounds == [] && IndexAt(m', tag) == IndexAt(m, tag) && m'.builtSoFar == m.builtSoFar + 1
      else
        var built := Outbound(m.builtSoFar, tag, opts[0]);
        pr'.outbounds == [built] && IndexAt(m', tag) == Some(built) && m'.builtSoFar == m.builtSoFar + 1
  {
    RefreshEffect(cfg, m, pr, previous, opts, env);
    var slots := RefreshSlots(cfg, m, pr, previous, opts, env);
    SomesFull(slots);
    assert NextId(cfg, m, pr.tag, previous, opts, 0) == m.builtSoFar;
    assert slots[0] == Slot(cfg, m, pr.tag, previous, opts, env, 0);
    assert Creations(cfg, m, pr.tag, previous, opts) ==
      if Reusable(cfg, m, FullTag(pr.tag, 0, opts[0]), previous, opts[0]) then 0 else 1;
  }

  lemma OldOptionOfOne(o: OutboundOption, tag: string)
    ensures OldOption([o], tag) == if o.tag == tag then o else ZERO_OPTION
  {
    assert [o][..0] == [];
  }

  /** A replacement that fails is not repaired by the next refresh, whatever the provider listed and whatever made
      the creation fail: the second refresh sees the option unchanged, finds the tag registered and keeps the object
      built from the option before last. */
  lemma FailedReplacementIsKept(cfg: Config, m: State, pr: Provider, o1: OutboundOption, o2: OutboundOption, id: nat,
                                failing: Env, env: Env)
    requires o1.tag == o2.tag != "" && o1 != o2
    requires IndexAt(m, FullTag(pr.tag, 0, o2)) == Some(Outbound(id, FullTag(pr.tag, 0, o2), o1))
    requires CreateError(m, FullTag(pr.tag, 0, o2), m.builtSoFar, failing).Some?
    ensures var (m1, pr1) := RefreshState(cfg, m, pr, [o1], [o2], failing);
      var (m2, pr2) := RefreshState(cfg, m1, pr1, [o2], [o2], env);
      && pr1.outbounds == [] && IndexAt(m1, FullTag(pr.tag, 0, o2)) == IndexAt(m, FullTag(pr.tag, 0, o2))
      && pr2.outbounds == [Outbound(id, FullTag(pr.tag, 0, o2), o1)]
      && IndexAt(m2, FullTag(pr.tag, 0, o2)) == IndexAt(m, FullTag(pr.tag, 0, o2))
  {
    var (m1, pr1) := RefreshState(cfg, m, pr, [o1], [o2], failing);
    FailedReplacement(cfg, m, pr, o1, o2, failing);
    KeptAsUnchanged(cfg, m1, pr1, o1, o2, id, env);
  }

  lemma FailedReplacement(cfg: Config, m: State, pr: Provider, o1: OutboundOption, o2: OutboundOption, failing: Env)
    requires o1.tag == o2.tag != "" && o1 != o2
    requires CreateError(m, FullTag(pr.tag, 0, o2), m.builtSoFar, failing).Some?
    ensures var (m', pr') := RefreshState(cfg, m, pr, [o1], [o2], failing);
      pr'.outbounds == [] && IndexAt(m', FullTag(pr.tag, 0, o2)) == IndexAt(m, FullTag(pr.tag, 0, o2))
  {
    OldOptionOfOne(o1, o2.tag);
    SingleRefresh(cfg, m, pr, [o1], [o2], failing);
  }

  /** A refresh that finds its one option unchanged serves it with the registered object, whatever that was built
      from. */
  lemma KeptAsUnchanged(cfg: Config, m: State, pr: Provider, o1: OutboundOption, o2: OutboundOption, id: nat, env: Env)
    requires IndexAt(m, FullTag(pr.tag, 0, o2)) == Some(Outbound(id, FullTag(pr.tag, 0, o2), o1))
    ensures var (m', pr') := RefreshState(cfg, m, pr, [o2], [o2], env);
      && pr'.outbounds == [Outbound(id, FullTag(pr.tag, 0, o2), o1)]
      && IndexAt(m', FullTag(pr.tag, 0, o2)) == IndexAt(m, FullTag(pr.tag, 0, o2))
  {
    OldOptionOfOne(o2, o2.tag);
    SingleRefresh(cfg, m, pr, [o2], [o2], env);
  }

  /** Untagged options share one key among the old options, so dropping the first of two untagged ones makes the
      second be served by the object the first had: it sits at the same position and looks unchanged. */
  lemma UntaggedOptionsShareAKey(cfg: Config, m: State, pr: Provider, a: OutboundOption, b: OutboundOption, id: nat,
                                 env: Env)
    requires a.tag == "" && b.tag == "" && a != b && FiledByTag(m)
    requires IndexAt(m, FullTag(pr.tag, 0, b)) == Some(Outbound(id, FullTag(pr.tag, 0, b), a))
    ensures var (m', pr') := RefreshState(cfg, m, pr, [a, b], [b], env); !RefinesRebuild(cfg, m', pr', [b])
  {
    assert OldOption([a, b], "") == b;
    assert !SlotIsSafe(cfg, m, pr.tag, [a, b], [b], env, 0);
    RefreshRefinesRebuildExactly(cfg, m, pr, [a, b], [b], env);
  }
}

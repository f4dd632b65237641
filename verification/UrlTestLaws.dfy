/** What updates, probes, starts and callbacks of a URL-test group mean. */
module UrlTestLaws {
  import opened Nodes
  import opened Interrupt
  import opened GroupPool
  import opened UrlTest
  import opened UrlTestPool

  // ---------------------------------------------------------------------------
  // One network's selection
  // ---------------------------------------------------------------------------

  /** Some pool member with a history would take the incumbent's place, by the code's comparison. */
  ghost predicate Beaten(facts: Facts, h: Histories, tolerance: uint16, net: Network, selected: Option<Outbound>,
                         outbounds: seq<Outbound>)
  {
    exists o ::
      && Candidate(facts, h, net, outbounds, o)
      && Adopts(Incumbent(facts, h, selected).0, DelayOf(facts, h, o).value, tolerance)
  }

  /** The pick moves away from its start exactly when the incumbent is beaten, and then to a candidate. */
  lemma PickMovesExactly(facts: Facts, h: Histories, tolerance: uint16, net: Network, selected: Option<Outbound>,
                         outbounds: seq<Outbound>)
    ensures var r := Pick(facts, h, tolerance, net, Incumbent(facts, h, selected), outbounds);
      if Beaten(facts, h, tolerance, net, selected, outbounds)
      then r.1.Some? && Candidate(facts, h, net, outbounds, r.1.value) && DelayOf(facts, h, r.1.value) == Some(r.0)
      else r == Incumbent(facts, h, selected)
  {
    var start, delays := Incumbent(facts, h, selected), Delays(facts, h, net, outbounds);
    PickFollowsDelays(facts, h, tolerance, net, start, outbounds);
    ReplacedExactly(start.0, delays, tolerance);
    if Replaced(start.0, delays, tolerance) {
      var d :| d in delays && Adopts(start.0, d, tolerance);
      var o := DelaysAreCandidates(facts, h, net, outbounds, d);
    } else if o :| Candidate(facts, h, net, outbounds, o) && Adopts(start.0, DelayOf(facts, h, o).value, tolerance) {
      DelaysMembers(facts, h, net, outbounds, o);
      assert false;
    }
  }

  /** A network's selection after an update. An earlier selection is replaced exactly when it is beaten and the answer
      is another object; then by a candidate, and the flag says so. Without an earlier selection the place is filled, by
      a candidate if there is one, else by the first member that supports the network. */
  lemma UpdateExactly(facts: Facts, h: Histories, tolerance: uint16, net: Network, selected: Option<Outbound>,
                      outbounds: seq<Outbound>)
    ensures var (after, replaced) := Updated(facts, h, tolerance, net, selected, outbounds);
      var (answer, _) := SelectOf(facts, h, tolerance, net, selected, outbounds);
      var beaten := Beaten(facts, h, tolerance, net, selected, outbounds);
      && (replaced <==> selected.Some? && beaten && answer != selected)
      && (replaced <==> selected.Some? && after != selected)
      && (beaten ==> after == answer && after.Some? && Candidate(facts, h, net, outbounds, after.value))
      && (selected.Some? && !beaten ==> after == selected)
      && (selected.None? && !beaten ==> after == FirstSupporting(facts, net, outbounds))
  {
    PickMovesExactly(facts, h, tolerance, net, selected, outbounds);
  }

  /** Where the comparison means what it says, being beaten is all it takes: the selection moves exactly then. */
  lemma BeatenIsReplaced(facts: Facts, h: Histories, tolerance: uint16, net: Network, selected: Outbound,
                         outbounds: seq<Outbound>)
    requires ReplacesOnlyBetter(DelaySet(facts, h, net, Some(selected), outbounds), tolerance)
    ensures var (after, replaced) := Updated(facts, h, tolerance, net, Some(selected), outbounds);
      && (replaced <==> Beaten(facts, h, tolerance, net, Some(selected), outbounds))
      && (after != Some(selected) <==> replaced)
      && (replaced && DelayOf(facts, h, selected).Some? ==>
            && after.Some? && DelayOf(facts, h, after.value).Some?
            && DelayOf(facts, h, after.value).value + tolerance < DelayOf(facts, h, selected).value)
  {
    UpdateExactly(facts, h, tolerance, net, Some(selected), outbounds);
    if DelayOf(facts, h, selected).Some? {
      SelectIsHysteretic(facts, h, tolerance, net, selected, outbounds);
      var o := SelectOf(facts, h, tolerance, net, Some(selected), outbounds).0.value;
      if o == selected && Beaten(facts, h, tolerance, net, Some(selected), outbounds) {
        StayingIsUnbeaten(facts, h, tolerance, net, selected, outbounds);
      }
    }
  }

  lemma StayingIsUnbeaten(facts: Facts, h: Histories, tolerance: uint16, net: Network, selected: Outbound,
                          outbounds: seq<Outbound>)
    requires ReplacesOnlyBetter(DelaySet(facts, h, net, Some(selected), outbounds), tolerance)
    requires DelayOf(facts, h, selected).Some?
    requires SelectOf(facts, h, tolerance, net, Some(selected), outbounds).0 == Some(selected)
    ensures !Beaten(facts, h, tolerance, net, Some(selected), outbounds)
  {
    var start, delays := Incumbent(facts, h, Some(selected)), Delays(facts, h, net, outbounds);
    PickFollowsDelays(facts, h, tolerance, net, start, outbounds);
    PickIsHysteretic(DelaySet(facts, h, net, Some(selected), outbounds), start.0, delays, tolerance);
    ReplacedExactly(start.0, delays, tolerance);
    if o :| Candidate(facts, h, net, outbounds, o) && Adopts(start.0, DelayOf(facts, h, o).value, tolerance) {
      DelaysMembers(facts, h, net, outbounds, o);
      assert false;
    }
  }

  /** After an update, unless the delays hold a bad triple, the selection is within the tolerance of every candidate. */
  lemma UpdateIsWithinTolerance(facts: Facts, h: Histories, tolerance: uint16, net: Network,
                                selected: Option<Outbound>, outbounds: seq<Outbound>, m: Outbound)
    requires !BadTriple(DelaySet(facts, h, net, selected, outbounds), tolerance)
    requires Candidate(facts, h, net, outbounds, m)
    ensures var after := Updated(facts, h, tolerance, net, selected, outbounds).0;
      && after.Some? && DelayOf(facts, h, after.value).Some?
      && DelayOf(facts, h, after.value).value <= DelayOf(facts, h, m).value + tolerance
  {
    SelectIsWithinTolerance(facts, h, tolerance, net, selected, outbounds, m);
  }

  /** A selection answers with no history known exactly when neither incumbent nor any candidate has one; then with the
      first member that supports the network, whatever was selected. */
  lemma UnknownAnswerExactly(facts: Facts, h: Histories, tolerance: uint16, net: Network, selected: Option<Outbound>,
                             outbounds: seq<Outbound>)
    ensures var (answer, known) := SelectOf(facts, h, tolerance, net, selected, outbounds);
      && (known <==> (selected.Some? && DelayOf(facts, h, selected.value).Some?)
                     || exists o :: Candidate(facts, h, net, outbounds, o))
      && (!known ==> answer == FirstSupporting(facts, net, outbounds))
  {
    SelectReportsHistoryExactly(facts, h, tolerance, net, selected, outbounds);
  }

  /** The member that stands in while no history is known is the first that supports the network. */
  lemma {:induction false} FirstSupportingIsFirst(facts: Facts, net: Network, outbounds: seq<Outbound>, i: nat)
    requires i < |outbounds| && facts.supports(outbounds[i], net)
    requires forall j :: 0 <= j < i ==> !facts.supports(outbounds[j], net)
    ensures FirstSupporting(facts, net, outbounds) == Some(outbounds[i])
  {
    if i > 0 {
      assert !facts.supports(outbounds[0], net);
      FirstSupportingIsFirst(facts, net, outbounds[1..], i - 1);
    }
  }

  // ---------------------------------------------------------------------------
  // A whole check
  // ---------------------------------------------------------------------------

  /** A check during a check does nothing; a cancelled one probes but selects and interrupts nothing; any other updates
      both networks, and interrupts the covered connections exactly when an earlier selection gave way to another. */
  lemma CheckExactly(c: GroupConfig, g: GroupState, force: bool, resolves: string -> bool, probe: Probe)
    ensures var g' := CheckState(c, g, force, resolves, probe);
      var moved := (g.tcp.Some? && g'.tcp != g.tcp) || (g.udp.Some? && g'.udp != g.udp);
      && g'.outbounds == g.outbounds && g'.checking == g.checking
      && (g.checking ==> g' == g)
      && (probe.cancelled ==> g'.tcp == g.tcp && g'.udp == g.udp)
      && g'.connections == (if moved then SparedOf(g.connections, c.interruptExternal) else g.connections)
      && (!g.checking && !probe.cancelled ==>
            && g'.tcp == Updated(c.facts, g'.history, c.tolerance, TCP, g.tcp, g.outbounds).0
            && g'.udp == Updated(c.facts, g'.history, c.tolerance, UDP, g.udp, g.outbounds).0)
  {
    var h := CheckState(c, g, force, resolves, probe).history;
    UpdateExactly(c.facts, h, c.tolerance, TCP, g.tcp, g.outbounds);
    UpdateExactly(c.facts, h, c.tolerance, UDP, g.udp, g.outbounds);
  }

  /** After a check whose delays are ordinary, each network's selection is within the tolerance of every member that
      supports it and has a history; and an earlier selection with a history has given way only to one better by more
      than the tolerance, exactly when one was there. */
  lemma CheckSelectsWell(c: GroupConfig, g: GroupState, force: bool, resolves: string -> bool, probe: Probe,
                         net: Network)
    requires !g.checking && !probe.cancelled
    requires forall t :: t in g.history ==> Ordinary(c.tolerance, g.history[t].delay)
    requires forall t :: probe.measure(t).Some? ==> Ordinary(c.tolerance, probe.measure(t).value)
    ensures var g' := CheckState(c, g, force, resolves, probe);
      var before, after := if net.TCP? then g.tcp else g.udp, if net.TCP? then g'.tcp else g'.udp;
      && (forall m :: Candidate(c.facts, g'.history, net, g'.outbounds, m) ==>
            && after.Some? && DelayOf(c.facts, g'.history, after.value).Some?
            && DelayOf(c.facts, g'.history, after.value).value <= DelayOf(c.facts, g'.history, m).value + c.tolerance)
      && (before.Some? ==>
            && (after != before <==> Beaten(c.facts, g'.history, c.tolerance, net, before, g'.outbounds))
            && (after != before && DelayOf(c.facts, g'.history, before.value).Some? ==>
                  && after.Some? && DelayOf(c.facts, g'.history, after.value).Some?
                  && DelayOf(c.facts, g'.history, after.value).value + c.tolerance <
                     DelayOf(c.facts, g'.history, before.value).value))
  {
    var g' := CheckState(c, g, force, resolves, probe);
    var before := if net.TCP? then g.tcp else g.udp;
    OrdinaryDelaysAreSafe(c.facts, g'.history, c.tolerance, net, before, g'.outbounds);
    UpdateExactly(c.facts, g'.history, c.tolerance, net, before, g'.outbounds);
    if before.Some? { BeatenIsReplaced(c.facts, g'.history, c.tolerance, net, before.value, g'.outbounds); }
    forall m | Candidate(c.facts, g'.history, net, g'.outbounds, m)
      ensures var after := if net.TCP? then g'.tcp else g'.udp;
        && after.Some? && DelayOf(c.facts, g'.history, after.value).Some?
        && DelayOf(c.facts, g'.history, after.value).value <= DelayOf(c.facts, g'.history, m).value + c.tolerance
    {
      UpdateIsWithinTolerance(c.facts, g'.history, c.tolerance, net, before, g'.outbounds, m);
    }
  }

  // ---------------------------------------------------------------------------
  // Probing
  // ---------------------------------------------------------------------------

  /** A tag is probed exactly when a pool member's history is kept under it, the registry still knows it, and the check
      is forced, nothing is known of it, or what is known is at least the interval old. */
  lemma ProbesExactly(facts: Facts, h: Histories, force: bool, now: nat, interval: nat, resolves: string -> bool,
                      outbounds: seq<Outbound>, t: string)
    ensures t in ProbedTags(facts, h, force, now, interval, resolves, outbounds) <==>
      && (exists o :: o in outbounds && facts.realTag(o) == t)
      && resolves(t) && (force || t !in h || now - h[t].time >= interval)
  {
  }

  /** A probe that measures stores the delay with the time; one that fails deletes what was known; the rest stays. */
  lemma ProbeStoresExactly(h: Histories, tags: set<string>, now: nat, measure: string -> Option<uint16>, t: string)
    ensures var h' := Probed(h, tags, now, measure);
      && (t in tags && measure(t).Some? ==> t in h' && h'[t] == History(now, measure(t).value))
      && (t in tags && measure(t).None? ==> t !in h')
      && (t !in tags ==> (t in h' <==> t in h) && (t in h ==> h'[t] == h[t]))
  {
  }

  /** So what a check has measured rests for the interval, and what failed is probed again at the next check. */
  lemma MeasuredRestsExactly(c: GroupConfig, g: GroupState, force: bool, resolves: string -> bool, probe: Probe,
                             later: nat, t: string)
    requires !g.checking
    requires t in ProbedTags(c.facts, g.history, force, probe.now, c.interval, resolves, g.outbounds)
    ensures var h := CheckState(c, g, force, resolves, probe).history;
      t in ProbedTags(c.facts, h, false, later, c.interval, resolves, g.outbounds) <==>
        probe.measure(t).None? || later - probe.now >= c.interval
  {
    var tags := ProbedTags(c.facts, g.history, force, probe.now, c.interval, resolves, g.outbounds);
    ProbesExactly(c.facts, g.history, force, probe.now, c.interval, resolves, g.outbounds, t);
    ProbeStoresExactly(g.history, tags, probe.now, probe.measure, t);
    var h := CheckState(c, g, force, resolves, probe).history;
    ProbesExactly(c.facts, h, false, later, c.interval, resolves, g.outbounds, t);
  }

  // ---------------------------------------------------------------------------
  // Starts and callbacks
  // ---------------------------------------------------------------------------

  lemma StartFiltersAfresh(c: UrlTestConfig, around: Surroundings)
    requires (forall q :: q in c.providerTags ==> q in around.contents) && StaticsResolve(around.resolve, c.deps)
    ensures FilterPool(c, map[], around, "").0 ==
      PoolNodes(around.resolve, c.deps, FreshNodes(c.filter, c.providerTags, around.contents))
  {
    GatherClosedForm(c.filter, c.providerTags, map[], around.contents, "");
    FlattenFresh(c.filter, c.providerTags, Gather(c.filter, c.providerTags, map[], around.contents, "").1,
                 around.contents);
  }

  /** What a start needs of the configuration and its surroundings. */
  ghost predicate StartFits(c: UrlTestConfig, around: Surroundings) {
    && (c.deps != [] || c.providerTags != [])
    && (forall q :: q in c.providerTags ==> q in around.contents)
    && forall d :: d in c.deps ==> around.resolve(d).Some?
  }

  /** A start runs exactly when something is configured, every provider is known, every static outbound resolves, the
      intervals fit and the pool is not empty; an empty pool without "Compatible" crashes it. It begins with nothing
      selected and the whole pool gathered afresh. */
  lemma StartExactly(c: UrlTestConfig, around: Surroundings, history: Histories)
    ensures var r := UrlTestStartState(c, around, history);
      var nodes := FreshNodes(c.filter, c.providerTags, around.contents);
      var empty := c.deps == [] && nodes == [] && around.resolve(COMPATIBLE_TAG).None?;
      && (r.StartCrash? <==> StartFits(c, around) && empty)
      && (r.Running? <==> StartFits(c, around) && !empty && c.group.interval <= c.group.idleTimeout)
      && (r.Running? ==>
            && ShowsPool(around.resolve, c.deps, nodes, r.s.tags, r.s.group.outbounds)
            && r.s.group == GroupState(r.s.group.outbounds, history, None, None, false, []))
  {
    if StartFits(c, around) {
      StartFiltersAfresh(c, around);
      PoolOutcomes(around.resolve, c.deps, FreshNodes(c.filter, c.providerTags, around.contents));
    } else if (c.deps != [] || c.providerTags != []) && forall d :: d in c.deps ==> around.resolve(d).Some? {
      var q :| q in c.providerTags && q !in around.contents;
      var i :| 0 <= i < |c.providerTags| && c.providerTags[i] == q;
    }
  }

  /** A callback of an own provider that does not crash runs one check over the new pool; one of a foreign provider
      changes nothing. */
  lemma CallbackChecks(c: UrlTestConfig, s: UrlTestState, around: Surroundings, p: string, probe: Probe)
    ensures var (s', crashed) := CallbackState(c, s, around, p, probe);
      && (p !in c.providerTags ==> s' == s && !crashed)
      && (p in c.providerTags && !crashed ==>
            s'.group == CheckState(c.group, s.group.(outbounds := s'.group.outbounds), false,
                                   t => around.resolve(t).Some?, probe))
      && (crashed ==> s'.group == s.group && s'.tags == s.tags)
  {
  }
}

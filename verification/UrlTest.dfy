/** How a URL-test group picks an outbound: least delay, but never by a margin within the tolerance. */
module UrlTest {
  import opened Nodes
  import opened Interrupt

  const WORD := 0x1_0000

  type uint16 = x: int | 0 <= x < WORD

  datatype Network = TCP | UDP

  datatype History = History(time: nat, delay: uint16)

  type Histories = map<string, History>

  /** The outside answers about an outbound: the tag its history is kept under (a group answers for the member
      it currently uses) and the networks it supports. */
  datatype Facts = Facts(realTag: Outbound -> string, supports: (Outbound, Network) -> bool)

  function DelayOf(facts: Facts, h: Histories, o: Outbound): Option<uint16> {
    if facts.realTag(o) in h then Some(h[facts.realTag(o)].delay) else None
  }

  /** The code's comparison, in 16-bit arithmetic, with 0 standing for "none yet". */
  predicate Adopts(minDelay: uint16, delay: uint16, tolerance: uint16) {
    minDelay == 0 || minDelay > (delay + tolerance) % WORD
  }

  // ---------------------------------------------------------------------------
  // Delays alone
  // ---------------------------------------------------------------------------

  function PickDelay(start: uint16, delays: seq<uint16>, tolerance: uint16): uint16 {
    if delays == [] then start
    else
      var current := PickDelay(start, delays[..|delays| - 1], tolerance);
      if Adopts(current, delays[|delays| - 1], tolerance) then delays[|delays| - 1] else current
  }

  ghost predicate Over(s: set<uint16>, start: uint16, delays: seq<uint16>) {
    (start == 0 || start in s) && forall d :: d in delays ==> d in s
  }

  /** The pick is within the tolerance of every delay offered. */
  ghost predicate WithinTolerance(start: uint16, delays: seq<uint16>, tolerance: uint16) {
    forall m :: m in delays ==> PickDelay(start, delays, tolerance) <= m + tolerance
  }

  /** Three delays that break the tolerance: `a` stays while `m` passes by, then `k` replaces it. */
  ghost predicate BadTriple(s: set<uint16>, tolerance: uint16) {
    exists a, m, k :: a in s && m in s && k in s && a <= m + tolerance && Adopts(a, k, tolerance) && k > m + tolerance
  }

  lemma {:induction false} PickIsWithin(s: set<uint16>, start: uint16, delays: seq<uint16>, tolerance: uint16)
    requires !BadTriple(s, tolerance) && Over(s, start, delays)
    ensures WithinTolerance(start, delays, tolerance)
    ensures delays != [] ==> PickDelay(start, delays, tolerance) in s
  {
    if delays != [] {
      var init, k := delays[..|delays| - 1], delays[|delays| - 1];
      assert delays == init + [k];
      PickIsWithin(s, start, init, tolerance);
      var current := PickDelay(start, init, tolerance);
      forall m | m in delays ensures PickDelay(start, delays, tolerance) <= m + tolerance {
        if m in init && Adopts(current, k, tolerance) {
          assert current in s && m in s && k in s;
        }
      }
    }
  }

  lemma PickStep(start: uint16, delays: seq<uint16>, k: uint16, tolerance: uint16)
    ensures PickDelay(start, delays + [k], tolerance) ==
      if Adopts(PickDelay(start, delays, tolerance), k, tolerance) then k else PickDelay(start, delays, tolerance)
  {
    assert (delays + [k])[..|delays|] == delays;
  }

  lemma NotAdopted(a: uint16, m: uint16, tolerance: uint16)
    requires a != 0 && a <= m + tolerance < WORD
    ensures !Adopts(a, m, tolerance)
  {
  }

  lemma PickOne(a: uint16, tolerance: uint16)
    ensures PickDelay(0, [a], tolerance) == a
  {
    var e: seq<uint16> := [];
    PickStep(0, e, a, tolerance);
    assert e + [a] == [a];
  }

  lemma BadTripleBreaks(s: set<uint16>, a: uint16, m: uint16, k: uint16, tolerance: uint16)
    returns (delays: seq<uint16>)
    requires a in s && m in s && k in s && a <= m + tolerance && Adopts(a, k, tolerance) && k > m + tolerance
    ensures Over(s, 0, delays) && !WithinTolerance(0, delays, tolerance)
  {
    PickOne(a, tolerance);
    if a == 0 {
      delays := [a] + [k];
      PickStep(0, [a], k, tolerance);
      assert a in delays && PickDelay(0, delays, tolerance) == k;
    } else {
      delays := [a] + [m] + [k];
      NotAdopted(a, m, tolerance);
      PickStep(0, [a], m, tolerance);
      PickStep(0, [a] + [m], k, tolerance);
      assert m in delays && PickDelay(0, delays, tolerance) == k;
    }
  }

  /** The exact condition on a set of delays for every pool drawn from it, in any order and with any incumbent,
      to be answered within the tolerance. */
  lemma ToleranceExactly(s: set<uint16>, tolerance: uint16)
    ensures (forall start, delays :: Over(s, start, delays) ==> WithinTolerance(start, delays, tolerance)) <==>
      !BadTriple(s, tolerance)
  {
    if BadTriple(s, tolerance) {
      var a, m, k :| a in s && m in s && k in s && a <= m + tolerance && Adopts(a, k, tolerance) && k > m + tolerance;
      var delays := BadTripleBreaks(s, a, m, k, tolerance);
      assert Over(s, 0, delays);
    } else {
      forall start, delays | Over(s, start, delays) ensures WithinTolerance(start, delays, tolerance) {
        PickIsWithin(s, start, delays, tolerance);
      }
    }
  }

  /** A replacement is always by more than the tolerance. */
  ghost predicate ReplacesOnlyBetter(s: set<uint16>, tolerance: uint16) {
    forall a, k :: a in s && k in s && Adopts(a, k, tolerance) ==> k + tolerance < a
  }

  /** Whether some offered delay took the place of the one before it. */
  predicate Replaced(start: uint16, delays: seq<uint16>, tolerance: uint16) {
    delays != [] &&
    (Replaced(start, delays[..|delays| - 1], tolerance) ||
     Adopts(PickDelay(start, delays[..|delays| - 1], tolerance), delays[|delays| - 1], tolerance))
  }

  ghost predicate Hysteresis(start: uint16, delays: seq<uint16>, tolerance: uint16) {
    if Replaced(start, delays, tolerance) then PickDelay(start, delays, tolerance) + tolerance < start
    else PickDelay(start, delays, tolerance) == start
  }

  lemma {:induction false} PickIsHysteretic(s: set<uint16>, start: uint16, delays: seq<uint16>, tolerance: uint16)
    requires ReplacesOnlyBetter(s, tolerance) && start in s && forall d :: d in delays ==> d in s
    ensures Hysteresis(start, delays, tolerance) && PickDelay(start, delays, tolerance) in s
  {
    if delays != [] {
      var init, k := delays[..|delays| - 1], delays[|delays| - 1];
      assert delays == init + [k];
      PickIsHysteretic(s, start, init, tolerance);
    }
  }

  /** The exact condition on a set of delays for every incumbent and pool drawn from it to show hysteresis: the
      incumbent is only ever replaced by something better by more than the tolerance. */
  lemma HysteresisExactly(s: set<uint16>, tolerance: uint16)
    ensures (forall start, delays :: start in s && (forall d :: d in delays ==> d in s) ==>
               Hysteresis(start, delays, tolerance))
      <==> ReplacesOnlyBetter(s, tolerance)
  {
    if ReplacesOnlyBetter(s, tolerance) {
      forall start, delays | start in s && (forall d :: d in delays ==> d in s)
        ensures Hysteresis(start, delays, tolerance)
      {
        PickIsHysteretic(s, start, delays, tolerance);
      }
    } else {
      var a, k :| a in s && k in s && Adopts(a, k, tolerance) && !(k + tolerance < a);
      var one := [k];
      assert one[..0] == [];
      assert PickDelay(a, one[..0], tolerance) == a && Replaced(a, one, tolerance) && PickDelay(a, one, tolerance) == k;
      assert !Hysteresis(a, one, tolerance);
    }
  }

  /** The plain arithmetic condition under which a comparison does what it means: there is a current delay, and
      the sum does not wrap to something smaller than it. */
  lemma ComparisonMeansMoreThanTolerance(a: uint16, k: uint16, tolerance: uint16)
    ensures (Adopts(a, k, tolerance) <==> k + tolerance < a) <==>
      a != 0 && !(k + tolerance >= WORD && a > k + tolerance - WORD)
  {
  }

  /** Both parts of that condition matter: 65500 + 100 wraps to 64, so the slowest node displaces a fast one; and
      a delay of 0 reads as "none yet", so any later node displaces it. */
  lemma WrapAndZeroBreakTolerance()
    ensures PickDelay(0, [70] + [65500], 100) == 65500 && !WithinTolerance(0, [70] + [65500], 100)
    ensures PickDelay(0, [0] + [5000], 50) == 5000 && !WithinTolerance(0, [0] + [5000], 50)
  {
    PickOne(70, 100);
    PickStep(0, [70], 65500, 100);
    assert 70 in [70] + [65500];
    PickOne(0, 50);
    PickStep(0, [0], 5000, 50);
    assert 0 in [0] + [5000];
  }

  /** Delays of at least one, and no wrap-around, are enough for both laws. */
  lemma NoWrapIsSafe(s: set<uint16>, tolerance: uint16)
    requires forall d :: d in s ==> 1 <= d && d + tolerance < WORD
    ensures ReplacesOnlyBetter(s, tolerance) && !BadTriple(s, tolerance)
  {
  }

  lemma OnlyBetterIsWithin(s: set<uint16>, tolerance: uint16)
    requires ReplacesOnlyBetter(s, tolerance)
    ensures !BadTriple(s, tolerance)
  {
  }

  // ---------------------------------------------------------------------------
  // Selecting an outbound
  // ---------------------------------------------------------------------------

  /** The loop of `Select`: least delay so far with its outbound. */
  function Pick(facts: Facts, h: Histories, tolerance: uint16, net: Network, start: (uint16, Option<Outbound>),
                outbounds: seq<Outbound>)
    : (uint16, Option<Outbound>)
  {
    if outbounds == [] then start
    else
      var (minDelay, minOutbound) := Pick(facts, h, tolerance, net, start, outbounds[..|outbounds| - 1]);
      var o := outbounds[|outbounds| - 1];
      if facts.supports(o, net) && DelayOf(facts, h, o).Some? && Adopts(minDelay, DelayOf(facts, h, o).value, tolerance)
      then (DelayOf(facts, h, o).value, Some(o))
      else (minDelay, minOutbound)
  }

  function FirstSupporting(facts: Facts, net: Network, outbounds: seq<Outbound>): (r: Option<Outbound>)
    ensures r.Some? ==> r.value in outbounds && facts.supports(r.value, net)
    ensures r.None? <==> forall o :: o in outbounds ==> !facts.supports(o, net)
  {
    if outbounds == [] then None
    else if facts.supports(outbounds[0], net) then Some(outbounds[0])
    else FirstSupporting(facts, net, outbounds[1..])
  }

  /** The incumbent counts only while it has a history; it need not be in the pool. */
  function Incumbent(facts: Facts, h: Histories, selected: Option<Outbound>): (uint16, Option<Outbound>) {
    if selected.Some? && DelayOf(facts, h, selected.value).Some?
    then (DelayOf(facts, h, selected.value).value, selected)
    else (0, None)
  }

  function SelectOf(facts: Facts, h: Histories, tolerance: uint16, net: Network, selected: Option<Outbound>,
                    outbounds: seq<Outbound>)
    : (Option<Outbound>, bool)
  {
    var (_, minOutbound) := Pick(facts, h, tolerance, net, Incumbent(facts, h, selected), outbounds);
    if minOutbound.Some? then (minOutbound, true) else (FirstSupporting(facts, net, outbounds), false)
  }

  ghost predicate Candidate(facts: Facts, h: Histories, net: Network, outbounds: seq<Outbound>, o: Outbound) {
    o in outbounds && facts.supports(o, net) && DelayOf(facts, h, o).Some?
  }

  /** The delays of the pool members that can be compared, in order. */
  function Delays(facts: Facts, h: Histories, net: Network, outbounds: seq<Outbound>): seq<uint16> {
    if outbounds == [] then []
    else
      var o := outbounds[|outbounds| - 1];
      Delays(facts, h, net, outbounds[..|outbounds| - 1]) +
      if facts.supports(o, net) && DelayOf(facts, h, o).Some? then [DelayOf(facts, h, o).value] else []
  }

  /** Those delays and the incumbent's. */
  ghost function DelaySet(facts: Facts, h: Histories, net: Network, selected: Option<Outbound>,
                          outbounds: seq<Outbound>)
    : set<uint16>
  {
    (set d | d in Delays(facts, h, net, outbounds)) +
    if Incumbent(facts, h, selected).1.Some? then {Incumbent(facts, h, selected).0} else {}
  }

  lemma {:induction false} DelaysMembers(facts: Facts, h: Histories, net: Network, outbounds: seq<Outbound>,
                                         o: Outbound)
    requires Candidate(facts, h, net, outbounds, o)
    ensures DelayOf(facts, h, o).value in Delays(facts, h, net, outbounds)
  {
    var init, last := outbounds[..|outbounds| - 1], outbounds[|outbounds| - 1];
    assert outbounds == init + [last];
    if o != last { DelaysMembers(facts, h, net, init, o); }
  }

  /** The loop over outbounds carries the pick over their delays, and an outbound that has the picked delay: the
      starting one as long as nothing replaced it, else a candidate of the pool. */
  lemma {:induction false} PickFollowsDelays(facts: Facts, h: Histories, tolerance: uint16, net: Network,
                                             start: (uint16, Option<Outbound>), outbounds: seq<Outbound>)
    ensures var r := Pick(facts, h, tolerance, net, start, outbounds);
      var delays := Delays(facts, h, net, outbounds);
      && r.0 == PickDelay(start.0, delays, tolerance)
      && (if Replaced(start.0, delays, tolerance)
          then r.1.Some? && Candidate(facts, h, net, outbounds, r.1.value) && DelayOf(facts, h, r.1.value) == Some(r.0)
          else r == start)
  {
    if outbounds != [] {
      var init, o := outbounds[..|outbounds| - 1], outbounds[|outbounds| - 1];
      assert outbounds == init + [o];
      PickFollowsDelays(facts, h, tolerance, net, start, init);
      var before, delays := Delays(facts, h, net, init), Delays(facts, h, net, outbounds);
      if facts.supports(o, net) && DelayOf(facts, h, o).Some? {
        assert delays[..|delays| - 1] == before;
      } else {
        assert delays == before;
      }
    }
  }

  lemma FirstIsAdopted(delays: seq<uint16>, tolerance: uint16)
    ensures Replaced(0, delays, tolerance) <==> delays != []
  {
    if |delays| > 1 { FirstIsAdopted(delays[..|delays| - 1], tolerance); }
  }

  /** `Select` reports a history exactly when the incumbent or some supporting member has one. */
  lemma SelectReportsHistoryExactly(facts: Facts, h: Histories, tolerance: uint16, net: Network,
                                    selected: Option<Outbound>, outbounds: seq<Outbound>)
    ensures SelectOf(facts, h, tolerance, net, selected, outbounds).1 <==>
      Incumbent(facts, h, selected).1.Some? || exists o :: Candidate(facts, h, net, outbounds, o)
  {
    var start, delays := Incumbent(facts, h, selected), Delays(facts, h, net, outbounds);
    PickFollowsDelays(facts, h, tolerance, net, start, outbounds);
    FirstIsAdopted(delays, tolerance);
    if o :| Candidate(facts, h, net, outbounds, o) {
      DelaysMembers(facts, h, net, outbounds, o);
    }
  }

  /** Unless the delays hold a bad triple, the answer is within the tolerance of every candidate. */
  lemma SelectIsWithinTolerance(facts: Facts, h: Histories, tolerance: uint16, net: Network, selected: Option<Outbound>,
                                outbounds: seq<Outbound>, m: Outbound)
    requires !BadTriple(DelaySet(facts, h, net, selected, outbounds), tolerance)
    requires Candidate(facts, h, net, outbounds, m)
    ensures var (o, known) := SelectOf(facts, h, tolerance, net, selected, outbounds);
      && known && o.Some? && DelayOf(facts, h, o.value).Some?
      && DelayOf(facts, h, o.value).value <= DelayOf(facts, h, m).value + tolerance
  {
    var start, delays := Incumbent(facts, h, selected), Delays(facts, h, net, outbounds);
    PickFollowsDelays(facts, h, tolerance, net, start, outbounds);
    SelectReportsHistoryExactly(facts, h, tolerance, net, selected, outbounds);
    DelaysMembers(facts, h, net, outbounds, m);
    PickIsWithin(DelaySet(facts, h, net, selected, outbounds), start.0, delays, tolerance);
  }

  /** An incumbent with a history gives way only to a candidate better by more than the tolerance. */
  lemma SelectIsHysteretic(facts: Facts, h: Histories, tolerance: uint16, net: Network, incumbent: Outbound,
                           outbounds: seq<Outbound>)
    requires DelayOf(facts, h, incumbent).Some?
    requires ReplacesOnlyBetter(DelaySet(facts, h, net, Some(incumbent), outbounds), tolerance)
    ensures var (o, known) := SelectOf(facts, h, tolerance, net, Some(incumbent), outbounds);
      known && o.Some? && (o.value != incumbent ==>
        && Candidate(facts, h, net, outbounds, o.value)
        && DelayOf(facts, h, o.value).value + tolerance < DelayOf(facts, h, incumbent).value)
  {
    var start, delays := Incumbent(facts, h, Some(incumbent)), Delays(facts, h, net, outbounds);
    PickFollowsDelays(facts, h, tolerance, net, start, outbounds);
    PickIsHysteretic(DelaySet(facts, h, net, Some(incumbent), outbounds), start.0, delays, tolerance);
  }

  // ---------------------------------------------------------------------------
  // Updating the selection
  // ---------------------------------------------------------------------------

  /** One network's selection after a check, and whether an earlier selection was replaced. */
  function Updated(facts: Facts, h: Histories, tolerance: uint16, net: Network, selected: Option<Outbound>,
                   outbounds: seq<Outbound>)
    : (Option<Outbound>, bool)
  {
    var (o, known) := SelectOf(facts, h, tolerance, net, selected, outbounds);
    if o.Some? && (selected.None? || (known && o != selected)) then (o, selected.Some?) else (selected, false)
  }

  lemma {:induction false} NothingReplacesTheBest(s: set<uint16>, start: uint16, delays: seq<uint16>, tolerance: uint16)
    requires ReplacesOnlyBetter(s, tolerance) && start in s
    requires forall d :: d in delays ==> d in s && start <= d + tolerance
    ensures !Replaced(start, delays, tolerance) && PickDelay(start, delays, tolerance) == start
  {
    if delays != [] {
      var init, k := delays[..|delays| - 1], delays[|delays| - 1];
      assert delays == init + [k];
      assert forall d :: d in init ==> d in delays;
      NothingReplacesTheBest(s, start, init, tolerance);
    }
  }

  /** With unchanged histories and pool, a second check changes nothing and has nothing to interrupt. */
  lemma UpdateIsIdempotent(facts: Facts, h: Histories, tolerance: uint16, net: Network, selected: Option<Outbound>,
                           outbounds: seq<Outbound>)
    requires ReplacesOnlyBetter(DelaySet(facts, h, net, selected, outbounds), tolerance)
    ensures var once := Updated(facts, h, tolerance, net, selected, outbounds).0;
      Updated(facts, h, tolerance, net, once, outbounds) == (once, false)
  {
    var s, delays := DelaySet(facts, h, net, selected, outbounds), Delays(facts, h, net, outbounds);
    var start := Incumbent(facts, h, selected);
    var (o, known) := SelectOf(facts, h, tolerance, net, selected, outbounds);
    var once := Updated(facts, h, tolerance, net, selected, outbounds).0;
    PickFollowsDelays(facts, h, tolerance, net, start, outbounds);
    FirstIsAdopted(delays, tolerance);
    if known {
      OnlyBetterIsWithin(s, tolerance);
      PickIsWithin(s, start.0, delays, tolerance);
      assert once == o;
      var again := Incumbent(facts, h, once);
      assert again == Pick(facts, h, tolerance, net, start, outbounds);
      PickFollowsDelays(facts, h, tolerance, net, again, outbounds);
      NothingReplacesTheBest(s, again.0, delays, tolerance);
    } else {
      assert delays == [] && start.1.None?;
      var again := Incumbent(facts, h, once);
      PickFollowsDelays(facts, h, tolerance, net, again, outbounds);
    }
  }

  /** With delays of at least one and sums below 2^16 both laws and the idempotence hold. */
  lemma OrdinaryDelaysAreSafe(facts: Facts, h: Histories, tolerance: uint16, net: Network, selected: Option<Outbound>,
                              outbounds: seq<Outbound>)
    requires forall t :: t in h ==> 1 <= h[t].delay && h[t].delay + tolerance < WORD
    ensures ReplacesOnlyBetter(DelaySet(facts, h, net, selected, outbounds), tolerance)
    ensures !BadTriple(DelaySet(facts, h, net, selected, outbounds), tolerance)
  {
    DelaysComeFromHistories(facts, h, net, outbounds);
    NoWrapIsSafe(DelaySet(facts, h, net, selected, outbounds), tolerance);
  }

  lemma {:induction false} DelaysComeFromHistories(facts: Facts, h: Histories, net: Network, outbounds: seq<Outbound>)
    ensures forall d :: d in Delays(facts, h, net, outbounds) ==> exists t :: t in h && h[t].delay == d
  {
    if outbounds != [] {
      DelaysComeFromHistories(facts, h, net, outbounds[..|outbounds| - 1]);
    }
  }

  // ---------------------------------------------------------------------------
  // Probing
  // ---------------------------------------------------------------------------

  /** Whether a check probes a tag now: forced, never measured, or measured too long ago. */
  predicate Due(h: Histories, force: bool, now: nat, interval: nat, tag: string) {
    force || tag !in h || now - h[tag].time >= interval
  }

  /** The tags a check probes: those due of the pool's outbounds that the registry still resolves. */
  function ProbedTags(facts: Facts, h: Histories, force: bool, now: nat, interval: nat, resolves: string -> bool,
                      outbounds: seq<Outbound>)
    : set<string>
  {
    set o | o in outbounds && Due(h, force, now, interval, facts.realTag(o)) && resolves(facts.realTag(o))
      :: facts.realTag(o)
  }

  /** The histories after probing: a measured delay is stored, a failure deletes the entry, the rest stay. */
  function Probed(h: Histories, tags: set<string>, now: nat, measure: string -> Option<uint16>): Histories {
    map t | t in h.Keys + tags && (t in tags ==> measure(t).Some?)
      :: if t in tags then History(now, measure(t).value) else h[t]
  }

  // ---------------------------------------------------------------------------
  // A whole check
  // ---------------------------------------------------------------------------

  datatype GroupConfig = GroupConfig(
    facts: Facts,
    tolerance: uint16,
    interval: nat,
    idleTimeout: nat,
    interruptExternal: bool)

  datatype GroupState = GroupState(
    outbounds: seq<Outbound>,
    history: Histories,
    tcp: Option<Outbound>,
    udp: Option<Outbound>,
    checking: bool,
    connections: seq<Item>)

  /** What a check meets outside: the time, what each probe measures, and whether it is cancelled meanwhile. */
  datatype Probe = Probe(now: nat, measure: string -> Option<uint16>, cancelled: bool)

  /** Both networks are selected anew; one interruption follows if either replaced an earlier selection. */
  function UpdateState(c: GroupConfig, g: GroupState): GroupState {
    var tcp := Updated(c.facts, g.history, c.tolerance, TCP, g.tcp, g.outbounds);
    var udp := Updated(c.facts, g.history, c.tolerance, UDP, g.udp, g.outbounds);
    g.(tcp := tcp.0, udp := udp.0,
       connections := if tcp.1 || udp.1 then SparedOf(g.connections, c.interruptExternal) else g.connections)
  }

  /** One check: the due tags are probed, then the selection is updated unless the check was cancelled. */
  function CheckState(c: GroupConfig, g: GroupState, force: bool, resolves: string -> bool, probe: Probe): GroupState {
    if g.checking then g
    else
      var tags := ProbedTags(c.facts, g.history, force, probe.now, c.interval, resolves, g.outbounds);
      var g1 := g.(history := Probed(g.history, tags, probe.now, probe.measure));
      if probe.cancelled then g1 else UpdateState(c, g1)
  }

  /** With unchanged histories and pool, a second update of both networks changes nothing at all: no selection, and no
      connection is interrupted. */
  lemma CheckIsIdempotent(c: GroupConfig, g: GroupState)
    requires ReplacesOnlyBetter(DelaySet(c.facts, g.history, TCP, g.tcp, g.outbounds), c.tolerance)
    requires ReplacesOnlyBetter(DelaySet(c.facts, g.history, UDP, g.udp, g.outbounds), c.tolerance)
    ensures UpdateState(c, UpdateState(c, g)) == UpdateState(c, g)
  {
    UpdateIsIdempotent(c.facts, g.history, c.tolerance, TCP, g.tcp, g.outbounds);
    UpdateIsIdempotent(c.facts, g.history, c.tolerance, UDP, g.udp, g.outbounds);
  }

  // ---------------------------------------------------------------------------
  // Whether the selection is in the pool
  // ---------------------------------------------------------------------------

  predicate InPool(selected: Option<Outbound>, outbounds: seq<Outbound>) {
    selected.Some? ==> selected.value in outbounds
  }

  /** Something takes the place of the start exactly when some offered delay would on its own. */
  lemma {:induction false} ReplacedExactly(start: uint16, delays: seq<uint16>, tolerance: uint16)
    ensures Replaced(start, delays, tolerance) <==> exists d :: d in delays && Adopts(start, d, tolerance)
    ensures !Replaced(start, delays, tolerance) ==> PickDelay(start, delays, tolerance) == start
  {
    if delays != [] {
      var init, k := delays[..|delays| - 1], delays[|delays| - 1];
      assert delays == init + [k];
      ReplacedExactly(start, init, tolerance);
      if d :| d in init && Adopts(start, d, tolerance) {
        assert d in delays;
      }
    }
  }

  lemma {:induction false} DelaysAreCandidates(facts: Facts, h: Histories, net: Network, outbounds: seq<Outbound>,
                                               d: uint16)
    returns (o: Outbound)
    requires d in Delays(facts, h, net, outbounds)
    ensures Candidate(facts, h, net, outbounds, o) && DelayOf(facts, h, o) == Some(d)
  {
    var init, last := outbounds[..|outbounds| - 1], outbounds[|outbounds| - 1];
    assert outbounds == init + [last];
    if d in Delays(facts, h, net, init) {
      o := DelaysAreCandidates(facts, h, net, init, d);
    } else {
      o := last;
    }
  }

  /** The exact condition for an update to leave the selection in the pool: it was there, or some candidate beats
      the incumbent by the code's comparison. */
  lemma SelectionInPoolExactly(facts: Facts, h: Histories, tolerance: uint16, net: Network, selected: Option<Outbound>,
                               outbounds: seq<Outbound>)
    ensures InPool(Updated(facts, h, tolerance, net, selected, outbounds).0, outbounds) <==>
      || InPool(selected, outbounds)
      || exists o ::
           && Candidate(facts, h, net, outbounds, o)
           && Adopts(Incumbent(facts, h, selected).0, DelayOf(facts, h, o).value, tolerance)
  {
    var start, delays := Incumbent(facts, h, selected), Delays(facts, h, net, outbounds);
    PickFollowsDelays(facts, h, tolerance, net, start, outbounds);
    ReplacedExactly(start.0, delays, tolerance);
    if Replaced(start.0, delays, tolerance) {
      var d :| d in delays && Adopts(start.0, d, tolerance);
      var o := DelaysAreCandidates(facts, h, net, outbounds, d);
    } else if o :| Candidate(facts, h, net, outbounds, o) && Adopts(start.0, DelayOf(facts, h, o).value, tolerance) {
      DelaysMembers(facts, h, net, outbounds, o);
      assert false;
    }
  }

  /** A whole check, for both networks. */
  lemma CheckSelectsInPoolExactly(c: GroupConfig, g: GroupState, force: bool, resolves: string -> bool, probe: Probe)
    requires !g.checking && !probe.cancelled
    ensures var g' := CheckState(c, g, force, resolves, probe);
      && (InPool(g'.tcp, g'.outbounds) <==> InPool(g.tcp, g'.outbounds) || exists o ::
           && Candidate(c.facts, g'.history, TCP, g'.outbounds, o)
           && Adopts(Incumbent(c.facts, g'.history, g.tcp).0, DelayOf(c.facts, g'.history, o).value, c.tolerance))
      && (InPool(g'.udp, g'.outbounds) <==> InPool(g.udp, g'.outbounds) || exists o ::
           && Candidate(c.facts, g'.history, UDP, g'.outbounds, o)
           && Adopts(Incumbent(c.facts, g'.history, g.udp).0, DelayOf(c.facts, g'.history, o).value, c.tolerance))
  {
    var g' := CheckState(c, g, force, resolves, probe);
    SelectionInPoolExactly(c.facts, g'.history, c.tolerance, TCP, g.tcp, g'.outbounds);
    SelectionInPoolExactly(c.facts, g'.history, c.tolerance, UDP, g.udp, g'.outbounds);
  }

  ghost predicate Ordinary(tolerance: uint16, delay: uint16) {
    1 <= delay && delay + tolerance < WORD
  }

  datatype CheckCall = CheckCall(force: bool, resolves: string -> bool, probe: Probe)

  function RunChecks(c: GroupConfig, g: GroupState, checks: seq<CheckCall>): GroupState {
    if checks == [] then g
    else
      var x := checks[|checks| - 1];
      CheckState(c, RunChecks(c, g, checks[..|checks| - 1]), x.force, x.resolves, x.probe)
  }

  /** The failing case in full: a refresh rebuilds the group's one node, so the old object `x` stays selected beside
      the new `y`. As both answer for the same history tag, `y` is never better, and no check, whatever it measures
      within ordinary delays, ever moves the selection from the closed `x` into the pool. */
  lemma {:induction false} ReplacedNodeStaysSelected(c: GroupConfig, g: GroupState, x: Outbound, y: Outbound,
                                                     checks: seq<CheckCall>)
    requires x != y && c.facts.realTag(x) == c.facts.realTag(y)
    requires g.outbounds == [y] && g.tcp == Some(x) && g.udp == Some(x)
    requires forall t :: t in g.history ==> Ordinary(c.tolerance, g.history[t].delay)
    requires forall k, t :: k in checks && k.probe.measure(t).Some? ==> Ordinary(c.tolerance, k.probe.measure(t).value)
    ensures var g' := RunChecks(c, g, checks);
      && g'.outbounds == [y] && g'.tcp == Some(x) && g'.udp == Some(x) && !InPool(g'.tcp, g'.outbounds)
      && g'.connections == g.connections
      && forall t :: t in g'.history ==> Ordinary(c.tolerance, g'.history[t].delay)
  {
    if checks != [] {
      var init, k := checks[..|checks| - 1], checks[|checks| - 1];
      assert checks == init + [k];
      ReplacedNodeStaysSelected(c, g, x, y, init);
      var g1 := RunChecks(c, g, init);
      var h := CheckState(c, g1, k.force, k.resolves, k.probe).history;
      assert k in checks;
      SameTagNeverBeats(c.facts, h, c.tolerance, TCP, x, y);
      SameTagNeverBeats(c.facts, h, c.tolerance, UDP, x, y);
    }
  }

  lemma SameTagNeverBeats(facts: Facts, h: Histories, tolerance: uint16, net: Network, x: Outbound, y: Outbound)
    requires facts.realTag(x) == facts.realTag(y) && forall t :: t in h ==> Ordinary(tolerance, h[t].delay)
    ensures Updated(facts, h, tolerance, net, Some(x), [y]) == (Some(x), false)
  {
    assert [y][..0] == [];
    assert Pick(facts, h, tolerance, net, Incumbent(facts, h, Some(x)), [y]) == Incumbent(facts, h, Some(x));
  }
}

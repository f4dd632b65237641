/** Dependency graphs of outbounds: start orders, cycles, and the recursive search for what blocks a start. */
module StartOrder {
  import opened Nodes

  // ---------------------------------------------------------------------------
  // Graphs
  // ---------------------------------------------------------------------------

  ghost predicate DependsOn(outbounds: seq<Outbound>, a: string, b: string) {
    exists o :: o in outbounds && o.tag == a && b in o.Dependencies()
  }

  ghost predicate IsWalk(outbounds: seq<Outbound>, p: seq<string>) {
    forall i :: 0 <= i < |p| - 1 ==> DependsOn(outbounds, p[i], p[i + 1])
  }

  ghost predicate IsCycle(outbounds: seq<Outbound>, p: seq<string>) {
    |p| >= 2 && p[0] == p[|p| - 1] && IsWalk(outbounds, p)
  }

  ghost predicate Acyclic(outbounds: seq<Outbound>) {
    forall p :: !IsCycle(outbounds, p)
  }

  /** Every dependency names one of the outbounds. */
  ghost predicate Closed(outbounds: seq<Outbound>) {
    forall o, d :: o in outbounds && d in o.Dependencies() ==> d in TagSet(outbounds)
  }

  /** Each entry comes from `outbounds`, no tag comes twice, and every dependency of an entry comes before it. */
  ghost predicate StartedInOrder(outbounds: seq<Outbound>, order: seq<Outbound>) {
    && (forall o :: o in order ==> o in outbounds)
    && DistinctTags(order)
    && forall i, d :: 0 <= i < |order| && d in order[i].Dependencies() ==> d in TagSet(order[..i])
  }

  function Rank(order: seq<Outbound>, tag: string): (r: nat)
    ensures r <= |order|
    ensures r < |order| ==> order[r].tag == tag
    ensures forall k :: 0 <= k < r ==> order[k].tag != tag
  {
    if order == [] then 0
    else if order[0].tag == tag then 0
    else 1 + Rank(order[1..], tag)
  }

  /** Along a walk the position in a complete start order only falls. */
  lemma {:induction false} WalkDescends(outbounds: seq<Outbound>, order: seq<Outbound>, p: seq<string>, k: nat)
    requires DistinctTags(outbounds) && StartedInOrder(outbounds, order) && TagSet(order) == TagSet(outbounds)
    requires IsWalk(outbounds, p) && k < |p| && p[0] in TagSet(order)
    ensures p[k] in TagSet(order) && Rank(order, p[k]) + k <= Rank(order, p[0])
  {
    if k > 0 {
      WalkDescends(outbounds, order, p, k - 1);
      assert DependsOn(outbounds, p[k - 1], p[k - 1 + 1]);
      var r := Rank(order, p[k - 1]);
      RankBelow(order, p[k - 1], |order|);
      var o :| o in outbounds && o.tag == p[k - 1] && p[k] in o.Dependencies();
      assert order[r] in outbounds && order[r] == o;
      assert p[k] in TagSet(order[..r]);
      RankBelow(order, p[k], r);
    }
  }

  lemma RankBelow(order: seq<Outbound>, tag: string, n: nat)
    requires n <= |order| && tag in TagSet(order[..n])
    ensures Rank(order, tag) < n
    ensures tag in TagSet(order)
  {
    var r := Rank(order, tag);
    var o :| o in order[..n] && o.tag == tag;
    var i :| 0 <= i < n && order[i] == o;
  }

  /** A complete start order leaves no room for a dependency cycle. */
  lemma OrderRulesOutCycles(outbounds: seq<Outbound>, order: seq<Outbound>)
    requires DistinctTags(outbounds) && StartedInOrder(outbounds, order) && TagSet(order) == TagSet(outbounds)
    ensures Acyclic(outbounds) && Closed(outbounds)
  {
    forall p ensures !IsCycle(outbounds, p) {
      if IsCycle(outbounds, p) {
        assert DependsOn(outbounds, p[0], p[0 + 1]);
        WalkDescends(outbounds, order, p, |p| - 1);
      }
    }
    forall o, d | o in outbounds && d in o.Dependencies() ensures d in TagSet(outbounds) {
      assert o.tag in TagSet(outbounds);
      var x :| x in order && x.tag == o.tag;
      assert x in outbounds && x == o by {
        var i :| 0 <= i < |outbounds| && outbounds[i] == x;
        var j :| 0 <= j < |outbounds| && outbounds[j] == o;
      }
      var i :| 0 <= i < |order| && order[i] == x;
      RankBelow(order, d, i);
    }
  }

  /** Some order starts an outbound of every tag. */
  ghost predicate Startable(outbounds: seq<Outbound>) {
    exists order :: CompleteOrder(outbounds, order)
  }

  ghost predicate CompleteOrder(outbounds: seq<Outbound>, order: seq<Outbound>) {
    StartedInOrder(outbounds, order) && TagSet(order) == TagSet(outbounds)
  }

  /** Where such an order exists, no set short of all tags is stuck: the first of the order outside it can start. */
  lemma CompleteOrderUnsticks(outbounds: seq<Outbound>, order: seq<Outbound>, started: set<string>)
    requires CompleteOrder(outbounds, order) && Stuck(outbounds, started)
    ensures TagSet(outbounds) <= started
  {
    NoneOutside(outbounds, order, started, |order|);
    assert order[..|order|] == order;
  }

  lemma {:induction false} NoneOutside(outbounds: seq<Outbound>, order: seq<Outbound>, started: set<string>, n: nat)
    requires CompleteOrder(outbounds, order) && Stuck(outbounds, started) && n <= |order|
    ensures TagSet(order[..n]) <= started
  {
    if n > 0 {
      NoneOutside(outbounds, order, started, n - 1);
      assert order[..n] == order[..n - 1] + [order[n - 1]];
      TagSetAppend(order[..n - 1], order[n - 1]);
      assert order[n - 1] in order && order[n - 1] in outbounds;
    }
  }

  /** No outbound outside `started` can start: each waits for something outside `started`. */
  ghost predicate Stuck(outbounds: seq<Outbound>, started: set<string>) {
    forall o :: o in outbounds && o.tag !in started ==> exists d :: d in o.Dependencies() && d !in started
  }

  /** If every dependency names an outbound, a stuck set contains a cycle: walking from one blocked outbound to
      the next must come back to a tag already on the path. */
  lemma {:induction false} StuckHasCycle(outbounds: seq<Outbound>, started: set<string>, path: seq<string>)
    requires Closed(outbounds) && Stuck(outbounds, started)
    requires path != [] && IsWalk(outbounds, path)
    requires forall t :: t in path ==> t in TagSet(outbounds) && t !in started
    ensures !Acyclic(outbounds)
    decreases TagSet(outbounds) - (set t | t in path)
  {
    var last := path[|path| - 1];
    assert last in path && last in TagSet(outbounds);
    var o :| o in outbounds && o.tag == last;
    var d :| d in o.Dependencies() && d !in started;
    assert DependsOn(outbounds, last, d);
    ExtendWalk(outbounds, path, d);
    if d in path {
      var k :| 0 <= k < |path| && path[k] == d;
      CycleFromRepeat(outbounds, path, d, k);
    } else {
      assert d in TagSet(outbounds) && d in path + [d];
      assert d in TagSet(outbounds) - (set t | t in path);
      assert TagSet(outbounds) - (set t | t in path + [d]) < TagSet(outbounds) - (set t | t in path);
      StuckHasCycle(outbounds, started, path + [d]);
    }
  }

  lemma ExtendWalk(outbounds: seq<Outbound>, path: seq<string>, d: string)
    requires path != [] && IsWalk(outbounds, path) && DependsOn(outbounds, path[|path| - 1], d)
    ensures IsWalk(outbounds, path + [d])
  {
    var q := path + [d];
    forall i | 0 <= i < |q| - 1 ensures DependsOn(outbounds, q[i], q[i + 1]) {
      if i < |path| - 1 { assert DependsOn(outbounds, path[i], path[i + 1]); }
    }
  }

  lemma CycleFromRepeat(outbounds: seq<Outbound>, path: seq<string>, d: string, k: nat)
    requires k < |path| && path[k] == d && IsWalk(outbounds, path + [d])
    ensures IsCycle(outbounds, path[k..] + [d])
  {
    var q, c := path + [d], path[k..] + [d];
    assert c == q[k..];
    forall i | 0 <= i < |c| - 1 ensures DependsOn(outbounds, c[i], c[i + 1]) {
      assert DependsOn(outbounds, q[k + i], q[k + i + 1]);
    }
  }

  // ---------------------------------------------------------------------------
  // The search for what blocks a start
  // ---------------------------------------------------------------------------

  datatype StartResult =
    | Started
    | OutboundFailed(tag: string)
    | Circular(path: seq<string>, repeated: string)
    | NotFound(dependency: string, dependent: string)
    | NilDereference

  /** `common.Find` over a dependency list: the first one not started, or the empty string. */
  function FirstUnstarted(deps: seq<string>, started: set<string>): (d: string)
    ensures (d !in started && d in deps) || (d == "" && forall x :: x in deps ==> x in started)
  {
    if deps == [] then "" else if deps[0] !in started then deps[0] else FirstUnstarted(deps[1..], started)
  }

  /** The recursive search. It only ever adds a tag of the index that is not yet on its path, so it terminates
      whatever the index holds. */
  function Lint(index: map<string, Outbound>, started: set<string>, path: seq<string>,
                current: Outbound)
    : (r: StartResult)
    ensures r.Circular? || r.NotFound?
    decreases index.Keys - (set t | t in path)
  {
    var problem := FirstUnstarted(current.Dependencies(), started);
    if problem in path then Circular(path, problem)
    else if problem !in index then NotFound(problem, current.tag)
    else
      assert problem in index.Keys - (set t | t in path);
      assert problem in path + [problem];
      Lint(index, started, path + [problem], index[problem])
  }

  /** The search follows the first dependency that is not started. */
  lemma {:induction false} FollowsFirstUnstarted(deps: seq<string>, started: set<string>, i: nat)
    requires i < |deps| && deps[i] !in started && forall j :: 0 <= j < i ==> deps[j] in started
    ensures FirstUnstarted(deps, started) == deps[i]
  {
    if i > 0 {
      assert deps[0] in started;
      FollowsFirstUnstarted(deps[1..], started, i - 1);
    }
  }

  /** What the search does at each outbound: a tag already on the way is circular, indexed or not; one neither on the
      way nor indexed is missing. */
  lemma LintDecides(index: map<string, Outbound>, started: set<string>, path: seq<string>, current: Outbound, i: nat)
    requires i < |current.Dependencies()| && current.Dependencies()[i] !in started
    requires forall j :: 0 <= j < i ==> current.Dependencies()[j] in started
    ensures var problem, r := current.Dependencies()[i], Lint(index, started, path, current);
      && (problem in path ==> r == Circular(path, problem))
      && (problem !in path && problem !in index ==> r == NotFound(problem, current.tag))
  {
    FollowsFirstUnstarted(current.Dependencies(), started, i);
  }

  /** A circular report tells the whole way from where the search began. */
  lemma {:induction false} LintTellsWholeWay(index: map<string, Outbound>, started: set<string>, path: seq<string>,
                                             current: Outbound)
    ensures var r := Lint(index, started, path, current); r.Circular? ==> path <= r.path
    decreases index.Keys - (set t | t in path)
  {
    var problem := FirstUnstarted(current.Dependencies(), started);
    if problem !in path && problem in index {
      assert problem in index.Keys - (set t | t in path) && problem in path + [problem];
      LintTellsWholeWay(index, started, path + [problem], index[problem]);
    }
  }

  /** The report is that of the search from the first outbound of the list that is not started. */
  ghost predicate FromFirstStuck(index: map<string, Outbound>, outbounds: seq<Outbound>, started: set<string>,
                                 r: StartResult)
  {
    exists i ::
      && 0 <= i < |outbounds| && outbounds[i].tag !in started
      && (forall j :: 0 <= j < i ==> outbounds[j].tag in started)
      && r == Lint(index, started, [outbounds[i].tag], outbounds[i])
  }

  /** The entries of `part` occur in `whole` in the same order, at these positions. */
  ghost predicate OccursAt(part: seq<Outbound>, whole: seq<Outbound>, positions: seq<nat>) {
    && |positions| == |part|
    && (forall k :: 0 <= k < |part| ==> positions[k] < |whole| && part[k] == whole[positions[k]])
    && forall k, l :: 0 <= k < l < |part| ==> positions[k] < positions[l]
  }

  ghost predicate Subsequence(part: seq<Outbound>, whole: seq<Outbound>) {
    exists positions :: OccursAt(part, whole, positions)
  }

  lemma SubsequenceWithin(part: seq<Outbound>, whole: seq<Outbound>, n: nat)
    requires n <= |whole| && Subsequence(part, whole[..n])
    ensures Subsequence(part, whole)
  {
    var positions :| OccursAt(part, whole[..n], positions);
    assert OccursAt(part, whole, positions);
  }

  lemma SubsequenceAppend(part: seq<Outbound>, whole: seq<Outbound>, n: nat)
    requires n < |whole| && Subsequence(part, whole[..n])
    ensures Subsequence(part, whole[..n + 1]) && Subsequence(part + [whole[n]], whole[..n + 1])
  {
    var positions :| OccursAt(part, whole[..n], positions);
    assert OccursAt(part, whole[..n + 1], positions);
    assert OccursAt(part + [whole[n]], whole[..n + 1], positions + [n]);
  }

  /** The index files outbounds of the list under their own tags; the list may hold endpoints besides. */
  ghost predicate IndexOfList(index: map<string, Outbound>, outbounds: seq<Outbound>) {
    forall t :: t in index ==> index[t].tag == t && index[t] in outbounds
  }

  /** What the search reports is so: a circular report carries a real walk whose repeated tag closes a real
      cycle; a not-found report names a real dependency that is neither started nor indexed. */
  ghost predicate TrueDiagnosis(index: map<string, Outbound>, outbounds: seq<Outbound>, started: set<string>,
                                r: StartResult)
  {
    match r
    case Circular(path, repeated) =>
      && IsWalk(outbounds, path + [repeated])
      && exists k :: 0 <= k < |path| && path[k] == repeated && IsCycle(outbounds, path[k..] + [repeated])
    case NotFound(dependency, dependent) =>
      DependsOn(outbounds, dependent, dependency) && dependency !in started && dependency !in index
    case _ => false
  }

  lemma {:induction false} LintDiagnoses(index: map<string, Outbound>, outbounds: seq<Outbound>, started: set<string>,
                                         path: seq<string>, current: Outbound)
    requires IndexOfList(index, outbounds) && Stuck(outbounds, started)
    requires current in outbounds && current.tag !in started
    requires path != [] && path[|path| - 1] == current.tag && IsWalk(outbounds, path)
    ensures TrueDiagnosis(index, outbounds, started, Lint(index, started, path, current))
    decreases index.Keys - (set t | t in path)
  {
    var problem := FirstUnstarted(current.Dependencies(), started);
    assert DependsOn(outbounds, current.tag, problem);
    ExtendWalk(outbounds, path, problem);
    if problem in path {
      var k :| 0 <= k < |path| && path[k] == problem;
      CycleFromRepeat(outbounds, path, problem, k);
    } else if problem in index {
      assert problem in index.Keys - (set t | t in path) && problem in path + [problem];
      LintDiagnoses(index, outbounds, started, path + [problem], index[problem]);
    }
  }

  /** The report is wrong when a stuck endpoint is what an outbound waits for: it is said not to exist. */
  lemma StuckEndpointReportedMissing(e: OutboundOption, n: OutboundOption)
    requires e.deps == ["ghost"] && n.deps == ["e"]
    ensures var endpoint, node := Outbound(0, "e", e), Outbound(1, "n", n);
      Lint(map["n" := node], {}, ["n"], node) == NotFound("e", "n") && "e" in TagSet([node, endpoint])
  {
    var endpoint, node := Outbound(0, "e", e), Outbound(1, "n", n);
    assert FirstUnstarted(["e"], {}) == "e";
    assert "e"[0] != "n"[0];
    assert [node, endpoint][1] in [node, endpoint];
  }
}

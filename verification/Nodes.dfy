/** The values every component passes around: node options, outbounds and small sequence helpers. */
module Nodes {

  datatype Option<+T> = None | Some(value: T)

  /** One node of a configuration or subscription: what the registry builds an outbound from. */
  datatype OutboundOption = OutboundOption(tag: string, kind: string, deps: seq<string>, settings: string)

  /** The zero value a Go map lookup yields for a missing key. */
  const ZERO_OPTION := OutboundOption("", "", [], "")

  /** A built outbound. `id` is the identity that pointer comparison sees; `origin` is the option it was built from. */
  datatype Outbound = Outbound(id: nat, tag: string, origin: OutboundOption) {
    function Dependencies(): seq<string> { origin.deps }
  }

  /** What the outside world answers for the object with a given identity: whether its constructor
      succeeds, whether its start stages succeed, whether closing it succeeds. */
  datatype Env = Env(builds: nat -> bool, starts: nat -> bool, closes: nat -> bool)

  /** Every constructor, start and close succeeds. */
  ghost predicate Smooth(env: Env) {
    forall id :: env.builds(id) && env.starts(id) && env.closes(id)
  }

  predicate Distinct<T(==)>(s: seq<T>) {
    forall i, j :: 0 <= i < j < |s| ==> s[i] != s[j]
  }

  lemma DistinctAppend<T>(s: seq<T>, x: T)
    requires Distinct(s) && x !in s
    ensures Distinct(s + [x])
  {
  }

  function Get<K, V>(m: map<K, seq<V>>, k: K): seq<V> {
    if k in m then m[k] else []
  }

  function Tags(s: seq<Outbound>): (r: seq<string>)
    ensures |r| == |s| && forall i :: 0 <= i < |s| ==> r[i] == s[i].tag
  {
    seq(|s|, i requires 0 <= i < |s| => s[i].tag)
  }

  lemma TagsConcat(a: seq<Outbound>, b: seq<Outbound>)
    ensures Tags(a + b) == Tags(a) + Tags(b)
  {
  }

  function TagSet(s: seq<Outbound>): set<string> {
    set o | o in s :: o.tag
  }

  predicate DistinctTags(s: seq<Outbound>) {
    forall i, j :: 0 <= i < j < |s| ==> s[i].tag != s[j].tag
  }

  lemma TagSetAppend(s: seq<Outbound>, o: Outbound)
    ensures TagSet(s + [o]) == TagSet(s) + {o.tag}
  {
    assert forall x :: x in s + [o] <==> x in s || x == o;
    assert o in s + [o];
  }

  lemma DistinctTagsAppend(s: seq<Outbound>, o: Outbound)
    ensures DistinctTags(s + [o]) <==> DistinctTags(s) && o.tag !in TagSet(s)
  {
    var w := s + [o];
    assert forall i :: 0 <= i < |s| ==> w[i] == s[i];
    if o.tag in TagSet(s) {
      var x :| x in s && x.tag == o.tag;
      var i :| 0 <= i < |s| && s[i] == x;
      assert w[i].tag == w[|s|].tag;
    } else {
      assert forall i :: 0 <= i < |s| ==> s[i] in s && s[i].tag != o.tag;
    }
  }

  /** A list of outbounds has as many tags as entries exactly when its tags are distinct. */
  lemma {:induction false} TagSetSize(s: seq<Outbound>)
    ensures |TagSet(s)| <= |s|
    ensures |TagSet(s)| == |s| <==> DistinctTags(s)
  {
    if s != [] {
      var init, last := s[..|s| - 1], s[|s| - 1];
      assert s == init + [last];
      TagSetAppend(init, last);
      DistinctTagsAppend(init, last);
      TagSetSize(init);
      if last.tag in TagSet(init) {
        assert TagSet(s) == TagSet(init);
      }
    }
  }

  /** The first position of an element, as `common.Index` finds it, or the length when absent. */
  function IndexOf<T(==)>(s: seq<T>, x: T): (i: nat)
    ensures i <= |s|
    ensures i < |s| ==> s[i] == x
    ensures i == |s| <==> x !in s
  {
    if s == [] then 0 else if s[0] == x then 0 else 1 + IndexOf(s[1..], x)
  }

  /** Cuts out the first occurrence of an element, if there is one. */
  function Cut<T(==)>(s: seq<T>, x: T): seq<T> {
    var i := IndexOf(s, x);
    if i == |s| then s else s[..i] + s[i + 1..]
  }

  lemma CutMembers<T>(s: seq<T>, x: T)
    requires Distinct(s)
    ensures Distinct(Cut(s, x))
    ensures forall y :: y in Cut(s, x) <==> y in s && y != x
  {
    var i := IndexOf(s, x);
    if i < |s| {
      var c := Cut(s, x);
      assert forall k :: 0 <= k < |c| ==> c[k] == s[if k < i then k else k + 1];
      forall y | y in s && y != x ensures y in c {
        var k :| 0 <= k < |s| && s[k] == y;
        assert c[if k < i then k else k - 1] == y;
      }
    }
  }

  /** `common.Filter` with the predicate "differs from x". */
  function Without<T(==, !new)>(s: seq<T>, x: T): (r: seq<T>)
    ensures forall y :: y in r <==> y in s && y != x
  {
    if s == [] then [] else (if s[0] == x then [] else [s[0]]) + Without(s[1..], x)
  }
}

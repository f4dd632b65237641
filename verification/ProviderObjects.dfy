/** The provider as the object the program holds: the shared adapter and the file-backed provider on top of it. */
module ProviderObjects {
  import opened Nodes
  import opened OutboundManager
  import opened ManagerObject
  import opened ProviderRefresh
  import opened ProviderWorld

  /** One call of a group's callback: whose it was, the provider it named, and what that provider then listed. */
  datatype Call = Call(callback: nat, providerTag: string, listed: seq<Outbound>)

  /** The calls of one notification, in the order of registration. */
  function Calls(callbacks: seq<nat>, providerTag: string, listed: seq<Outbound>): (r: seq<Call>)
    ensures |r| == |callbacks| && forall i :: 0 <= i < |r| ==> r[i] == Call(callbacks[i], providerTag, listed)
  {
    seq(|callbacks|, i requires 0 <= i < |callbacks| => Call(callbacks[i], providerTag, listed))
  }

  /** `callbacks` holds the registered groups; `notified` records the calls made to them. */
  class Adapter {
    const outbound: Manager
    const providerTag: string
    var outbounds: seq<Outbound>
    var outboundsByTag: map<string, Outbound>
    var callbacks: seq<nat>
    var notified: seq<Call>

    ghost function View(lastOpts: seq<OutboundOption>): Provider
      reads this
    {
      Provider(providerTag, outbounds, outboundsByTag, lastOpts)
    }

    constructor (outbound: Manager, providerTag: string)
      ensures this.outbound == outbound && this.providerTag == providerTag
      ensures View([]) == Provider(providerTag, [], map[], []) && callbacks == [] && notified == []
    {
      this.outbound := outbound;
      this.providerTag := providerTag;
      outbounds := [];
      outboundsByTag := map[];
      callbacks, notified := [], [];
    }

    /** The provider's own lookup. */
    method Find(tag: string) returns (r: Option<Outbound>)
      ensures forall last :: r == ProviderAnswer(View(last), tag)
    {
      r := if tag in outboundsByTag then Some(outboundsByTag[tag]) else None;
    }

    method RegisterCallback(callback: nat)
      modifies `callbacks
      ensures callbacks == old(callbacks) + [callback]
    {
      callbacks := callbacks + [callback];
    }

    /** Every registered group is called back with the provider's tag, and finds the present list. */
    method UpdateGroups()
      modifies `notified
      ensures notified == old(notified) + Calls(callbacks, providerTag, outbounds)
    {
      for i := 0 to |callbacks|
        invariant notified == old(notified) + Calls(callbacks[..i], providerTag, outbounds)
      {
        var call := Call(callbacks[i], providerTag, outbounds);
        assert Calls(callbacks[..i + 1], providerTag, outbounds) ==
          Calls(callbacks[..i], providerTag, outbounds) + [call];
        notified := notified + [call];
      }
      assert callbacks[..|callbacks|] == callbacks;
    }

    method RemoveUseless(newOpts: seq<OutboundOption>, env: Env)
      modifies outbound
      ensures outbound.View() == RemoveDropped(old(outbound.View()), outbounds, FullTags(providerTag, newOpts))
    {
      if |outbounds| == 0 {
        return;
      }
      var exists_: set<string> := {};
      for i := 0 to |newOpts|
        invariant forall t :: t in exists_ <==> t in FullTags(providerTag, newOpts)[..i]
      {
        var tags := FullTags(providerTag, newOpts);
        assert tags[..i + 1] == tags[..i] + [tags[i]];
        exists_ := exists_ + {FullTag(providerTag, i, newOpts[i])};
      }
      assert FullTags(providerTag, newOpts)[..|newOpts|] == FullTags(providerTag, newOpts);
      for i := 0 to |outbounds|
        invariant outbound.View() == RemoveDropped(old(outbound.View()), outbounds[..i], FullTags(providerTag, newOpts))
      {
        assert outbounds[..i + 1][..i] == outbounds[..i];
        if outbounds[i].tag !in exists_ {
          var _ := outbound.Remove(outbounds[i].tag, env);
        }
      }
      assert outbounds[..|outbounds|] == outbounds;
    }

    method IndexOptions(opts: seq<OutboundOption>) returns (byTag: map<string, OutboundOption>)
      ensures forall t :: OldOption(opts, t) == if t in byTag then byTag[t] else ZERO_OPTION
    {
      byTag := map[];
      for i := 0 to |opts|
        invariant forall t :: OldOption(opts[..i], t) == if t in byTag then byTag[t] else ZERO_OPTION
      {
        assert opts[..i + 1][..i] == opts[..i];
        byTag := byTag[opts[i].tag := opts[i]];
      }
      assert opts[..|opts|] == opts;
    }

    /** One iteration of the refresh: keep what is registered, or create and look it up again. */
    method Serve(tag: string, previous: OutboundOption, opt: OutboundOption, env: Env,
                 ghost oldOpts: seq<OutboundOption>)
      returns (found: Option<Outbound>)
      requires previous == OldOption(oldOpts, opt.tag)
      modifies outbound
      ensures (outbound.View(), found) == ReconcileOne(outbound.cfg, old(outbound.View()), tag, oldOpts, opt, env)
    {
      found := outbound.Find(tag);
      if found.None? || opt != previous {
        var err := outbound.Create(tag, opt, env);
        if err.Some? {
          return None;
        }
        found := outbound.Find(tag);
      }
    }

    method UpdateOutbounds(oldOpts: seq<OutboundOption>, newOpts: seq<OutboundOption>, env: Env)
      modifies `outbounds, `outboundsByTag, outbound
      ensures forall last ::
        (outbound.View(), View(last)) ==
        RefreshState(outbound.cfg, old(outbound.View()), old(View(last)), oldOpts, newOpts, env)
    {
      RemoveUseless(newOpts, env);
      ghost var m1 := outbound.View();
      var oldOptByTag := IndexOptions(oldOpts);
      var list: seq<Outbound>, byTag: map<string, Outbound> := [], map[];
      ghost var slots: seq<Option<Outbound>> := [];
      for i := 0 to |newOpts|
        invariant outbounds == old(outbounds) && outboundsByTag == old(outboundsByTag)
        invariant (outbound.View(), slots) == Reconcile(outbound.cfg, m1, providerTag, oldOpts, newOpts[..i], env)
        invariant list == Somes(slots) && byTag == SlotMap(providerTag, newOpts[..i], slots)
      {
        var opt := newOpts[i];
        var tag := FullTag(providerTag, i, opt);
        assert newOpts[..i + 1][..i] == newOpts[..i];
        var previous := if opt.tag in oldOptByTag then oldOptByTag[opt.tag] else ZERO_OPTION;
        var found := Serve(tag, previous, opt, env, oldOpts);
        assert (slots + [found])[..i] == slots;
        slots := slots + [found];
        if found.Some? {
          list := list + [found.value];
          byTag := byTag[tag := found.value];
        }
      }
      assert newOpts[..|newOpts|] == newOpts;
      outbounds := list;
      outboundsByTag := byTag;
    }

    /** Unregisters every listed outbound; a refused or failed removal is reported but does not stop the rest. */
    method Close(env: Env) returns (errors: nat)
      modifies `outbounds, outbound
      ensures forall last :: (outbound.View(), View(last)) == CloseProviderState(old(outbound.View()), old(View(last)))
      ensures errors <= |old(outbounds)|
    {
      var list := outbounds;
      outbounds := [];
      errors := 0;
      for i := 0 to |list|
        invariant outbounds == [] && outboundsByTag == old(outboundsByTag) && errors <= i
        invariant outbound.View() == RemoveDropped(old(outbound.View()), list[..i], [])
      {
        assert list[..i + 1][..i] == list[..i];
        var err := outbound.Remove(list[i].tag, env);
        if err.Some? {
          errors := errors + 1;
        }
      }
      assert list[..|list|] == list;
    }
  }

  /** What reading and parsing the provider's file gave. */
  datatype FileContent = Unreadable | Unparsable | Parsed(opts: seq<OutboundOption>)

  class LocalProvider {
    const adapter: Adapter
    var lastOutOpts: seq<OutboundOption>
    var lastUpdated: nat

    constructor (adapter: Adapter)
      ensures this.adapter == adapter && lastOutOpts == [] && lastUpdated == 0
    {
      this.adapter := adapter;
      lastOutOpts := [];
      lastUpdated := 0;
    }

    /** A reload that cannot read or parse the file moves nothing but the time stamp; one that can is a refresh
        against the options of the last successful reload. */
    method ReloadFile(modTime: Option<nat>, content: FileContent, env: Env) returns (ok: bool)
      modifies this, adapter`outbounds, adapter`outboundsByTag, adapter.outbound
      ensures ok == content.Parsed?
      ensures lastUpdated == if modTime.Some? then modTime.value else old(lastUpdated)
      ensures !ok ==> unchanged(adapter) && unchanged(adapter.outbound) && lastOutOpts == old(lastOutOpts)
      ensures ok ==> lastOutOpts == content.opts
      ensures ok ==> ((adapter.outbound.View(), adapter.View(lastOutOpts)) ==
                      RefreshFromLast(adapter.outbound.cfg, old(adapter.outbound.View()),
                        old(adapter.View(lastOutOpts)), content.opts, env))
    {
      if modTime.Some? {
        lastUpdated := modTime.value;
      }
      if content.Unreadable? {
        return false;
      }
      if content.Unparsable? {
        return false;
      }
      ghost var before := adapter.View(lastOutOpts);
      adapter.UpdateOutbounds(lastOutOpts, content.opts, env);
      assert adapter.View(before.lastOpts).(lastOpts := content.opts) == adapter.View(content.opts);
      lastOutOpts := content.opts;
      ok := true;
    }

    /** The watcher's callback: the file is reloaded, and the groups are called back whether or not that went well. */
    method OnFileChanged(modTime: Option<nat>, content: FileContent, env: Env)
      modifies this, adapter, adapter.outbound
      ensures adapter.callbacks == old(adapter.callbacks)
      ensures adapter.notified ==
        old(adapter.notified) + Calls(adapter.callbacks, adapter.providerTag, adapter.outbounds)
      ensures !content.Parsed? ==>
        && lastOutOpts == old(lastOutOpts) && adapter.outbounds == old(adapter.outbounds) && unchanged(adapter.outbound)
      ensures content.Parsed? ==>
        && lastOutOpts == content.opts
        && (adapter.outbound.View(), adapter.View(lastOutOpts)) ==
           RefreshFromLast(adapter.outbound.cfg, old(adapter.outbound.View()), old(adapter.View(lastOutOpts)),
                           content.opts, env)
    {
      var _ := ReloadFile(modTime, content, env);
      adapter.UpdateGroups();
    }
  }
}

/** A rule-set kept up to date by conditional requests (sections 13.1.2 and 15.4.5 of RFC 9110). */
module RemoteRuleSet {
  import opened Nodes

  datatype Metadata = Metadata(containsProcessRule: bool, containsWIFIRule: bool, containsIPCIDRRule: bool)

  /** What decoding and compiling a rule-set's content gives. */
  datatype Parsed = Parsed(rules: seq<string>, metadata: Metadata)

  type Parser = string -> Option<Parsed>

  datatype Saved = Saved(content: string, lastUpdated: nat, lastEtag: string)

  /** `rules` is empty-handed (`None`) before the first load and after they were dropped for want of references;
      `lastUpdated` is 0 for the zero time; `cache` is the rule-set's entry in the cache file. */
  datatype RuleSetState = RuleSetState(
    rules: Option<seq<string>>,
    metadata: Metadata,
    lastEtag: string,
    lastUpdated: nat,
    cache: Option<Saved>,
    refs: nat)

  datatype Response =
    | NetworkError
    | NotModified
    | OtherStatus
    | OK(body: Option<string>, etag: string)

  /** One fetch: the response to a request made conditional on `lastEtag` when there is one. */
  function FetchState(parse: Parser, s: RuleSetState, resp: Response, now: nat, saves: bool): (RuleSetState, bool) {
    match resp
    case NetworkError => (s, false)
    case OtherStatus => (s, false)
    case NotModified =>
      (s.(lastUpdated := now,
          cache := if s.cache.Some? && saves then Some(s.cache.value.(lastUpdated := now)) else s.cache), true)
    case OK(body, etag) =>
      if body.None? || parse(body.value).None? then (s, false)
      else
        var p := parse(body.value).value;
        var newEtag := if etag != "" then etag else s.lastEtag;
        (s.(rules := Some(p.rules), metadata := p.metadata, lastEtag := newEtag, lastUpdated := now,
            cache := if saves then Some(Saved(body.value, now, newEtag)) else s.cache), true)
  }

  /** A periodic update: a successful one drops the rules of a rule-set nobody refers to. */
  function UpdateOnceState(parse: Parser, s: RuleSetState, resp: Response, now: nat, saves: bool): (RuleSetState, bool)
  {
    var (s', ok) := FetchState(parse, s, resp, now, saves);
    (if ok && s'.refs == 0 then s'.(rules := None) else s', ok)
  }

  const NO_METADATA := Metadata(false, false, false)

  /** A start from the cache file. A download detour that is configured must be found; then the saved content is
      loaded if there is one, else a first fetch must succeed. */
  function StartFromCache(parse: Parser, cache: Option<Saved>, refs: nat, detourMissing: bool, resp: Response, now: nat,
                          saves: bool)
    : Option<RuleSetState>
  {
    var blank := RuleSetState(None, NO_METADATA, "", 0, cache, refs);
    if detourMissing then None
    else if cache.Some? && parse(cache.value.content).None? then None
    else
      var s := if cache.None? then blank
               else
                 var p := parse(cache.value.content).value;
                 blank.(rules := Some(p.rules), metadata := p.metadata,
                        lastUpdated := cache.value.lastUpdated, lastEtag := cache.value.lastEtag);
      if s.lastUpdated != 0 then Some(s)
      else
        var (s', ok) := FetchState(parse, s, resp, now, saves);
        if ok then Some(s') else None
  }

  // ---------------------------------------------------------------------------
  // The server
  // ---------------------------------------------------------------------------

  /** ETags that determine content, and are never empty. */
  ghost predicate ProperTags(etagOf: string -> string) {
    (forall c :: etagOf(c) != "") && forall c, d :: etagOf(c) == etagOf(d) ==> c == d
  }

  /** What a server with this content may answer a request conditional on `lastEtag` (empty: unconditional). */
  predicate Answers(etagOf: string -> string, content: string, lastEtag: string, resp: Response) {
    match resp
    case NetworkError => true
    case OtherStatus => true
    case NotModified => lastEtag != "" && lastEtag == etagOf(content)
    case OK(body, etag) => etag == etagOf(content) && (body.Some? ==> body.value == content)
  }

  // ---------------------------------------------------------------------------
  // Runs
  // ---------------------------------------------------------------------------

  datatype RuleSetStep =
    | ServerChange(content: string)
    | Update(resp: Response, now: nat, saves: bool)
    | SetRefs(refs: nat)
    | Cleanup
    | Restart(detourMissing: bool, resp: Response, now: nat, saves: bool)

  datatype Setting = Setting(content: string, s: RuleSetState)

  /** A restart that fails leaves the program stopped with its cache file; the run then stays where it was. */
  function ApplyRuleSet(parse: Parser, w: Setting, step: RuleSetStep): Setting {
    match step
    case ServerChange(content) => w.(content := content)
    case Update(resp, now, saves) => w.(s := UpdateOnceState(parse, w.s, resp, now, saves).0)
    case SetRefs(refs) => w.(s := w.s.(refs := refs))
    case Cleanup => if w.s.refs == 0 then w.(s := w.s.(rules := None)) else w
    case Restart(detourMissing, resp, now, saves) =>
      var r := StartFromCache(parse, w.s.cache, w.s.refs, detourMissing, resp, now, saves);
      if r.Some? then w.(s := r.value) else w
  }

  function RunRuleSet(parse: Parser, w: Setting, steps: seq<RuleSetStep>): Setting {
    if steps == [] then w else ApplyRuleSet(parse, RunRuleSet(parse, w, steps[..|steps| - 1]), steps[|steps| - 1])
  }

  /** Every answer of the run is one the server may give at that point. */
  ghost predicate ProperRun(parse: Parser, etagOf: string -> string, w: Setting, steps: seq<RuleSetStep>) {
    steps != [] ==>
      var before, step := RunRuleSet(parse, w, steps[..|steps| - 1]), steps[|steps| - 1];
      && ProperRun(parse, etagOf, w, steps[..|steps| - 1])
      && (step.Update? ==> Answers(etagOf, before.content, before.s.lastEtag, step.resp))
      && (step.Restart? ==>
        Answers(etagOf, before.content, if before.s.cache.Some? then before.s.cache.value.lastEtag else "", step.resp))
  }

  /** The remembered ETag belongs to a content that parses, whose rules are those loaded (unless dropped) and whose
      metadata is the present one. The saved content parses, and the saved ETag, if any, is its own. */
  ghost predicate Synced(parse: Parser, etagOf: string -> string, s: RuleSetState) {
    && (s.lastEtag != "" ==> exists c :: Describes(parse, etagOf, s, c))
    && (s.cache.Some? ==>
      parse(s.cache.value.content).Some? &&
      (s.cache.value.lastEtag == "" || s.cache.value.lastEtag == etagOf(s.cache.value.content)))
  }

  ghost predicate Describes(parse: Parser, etagOf: string -> string, s: RuleSetState, c: string) {
    && etagOf(c) == s.lastEtag && parse(c).Some?
    && (s.rules.Some? ==> s.rules == Some(parse(c).value.rules))
    && s.metadata == parse(c).value.metadata
  }

  /** A saved content has its ETag saved with it. */
  ghost predicate SavedTagged(s: RuleSetState) {
    s.cache.Some? ==> s.cache.value.lastEtag != ""
  }

  lemma FetchKeepsSynced(parse: Parser, etagOf: string -> string, s: RuleSetState, content: string, resp: Response,
                         now: nat, saves: bool)
    requires ProperTags(etagOf) && Synced(parse, etagOf, s) && Answers(etagOf, content, s.lastEtag, resp)
    ensures Synced(parse, etagOf, FetchState(parse, s, resp, now, saves).0)
    ensures Synced(parse, etagOf, UpdateOnceState(parse, s, resp, now, saves).0)
    ensures SavedTagged(s) ==> SavedTagged(UpdateOnceState(parse, s, resp, now, saves).0)
  {
    var s1, s2 := FetchState(parse, s, resp, now, saves).0, UpdateOnceState(parse, s, resp, now, saves).0;
    if resp.OK? && resp.body.Some? && parse(resp.body.value).Some? {
      assert Describes(parse, etagOf, s1, content) && Describes(parse, etagOf, s2, content);
    } else if s.lastEtag != "" {
      var c :| Describes(parse, etagOf, s, c);
      assert Describes(parse, etagOf, s1, c) && Describes(parse, etagOf, s2, c);
    }
  }

  lemma StartIsSynced(parse: Parser, etagOf: string -> string, s: RuleSetState, content: string, detourMissing: bool,
                      resp: Response, now: nat, saves: bool)
    requires ProperTags(etagOf) && Synced(parse, etagOf, s)
    requires Answers(etagOf, content, if s.cache.Some? then s.cache.value.lastEtag else "", resp)
    ensures var r := StartFromCache(parse, s.cache, s.refs, detourMissing, resp, now, saves);
      r.Some? ==> Synced(parse, etagOf, r.value) && (SavedTagged(s) ==> SavedTagged(r.value))
  {
    var blank := RuleSetState(None, NO_METADATA, "", 0, s.cache, s.refs);
    if s.cache.None? {
      FetchKeepsSynced(parse, etagOf, blank, content, resp, now, saves);
    } else {
      var p := parse(s.cache.value.content).value;
      var loaded := blank.(rules := Some(p.rules), metadata := p.metadata,
                           lastUpdated := s.cache.value.lastUpdated, lastEtag := s.cache.value.lastEtag);
      if loaded.lastEtag != "" { assert Describes(parse, etagOf, loaded, s.cache.value.content); }
      FetchKeepsSynced(parse, etagOf, loaded, content, resp, now, saves);
    }
  }

  /** Over every run, restarts included, the ETag and the saved pair stay true to what was loaded. */
  lemma {:induction false} RunKeepsSynced(parse: Parser, etagOf: string -> string, w: Setting, steps: seq<RuleSetStep>)
    requires ProperTags(etagOf) && Synced(parse, etagOf, w.s) && ProperRun(parse, etagOf, w, steps)
    ensures Synced(parse, etagOf, RunRuleSet(parse, w, steps).s)
    ensures SavedTagged(w.s) ==> SavedTagged(RunRuleSet(parse, w, steps).s)
  {
    if steps != [] {
      var init, step := steps[..|steps| - 1], steps[|steps| - 1];
      RunKeepsSynced(parse, etagOf, w, init);
      var before := RunRuleSet(parse, w, init);
      match step
      case Update(resp, now, saves) => FetchKeepsSynced(parse, etagOf, before.s, before.content, resp, now, saves);
      case Restart(detourMissing, resp, now, saves) =>
        StartIsSynced(parse, etagOf, before.s, before.content, detourMissing, resp, now, saves);
      case ServerChange(content) =>
      case SetRefs(refs) =>
        if before.s.lastEtag != "" {
          var c :| Describes(parse, etagOf, before.s, c);
          assert Describes(parse, etagOf, before.s.(refs := refs), c);
        }
      case Cleanup =>
        if before.s.lastEtag != "" {
          var c :| Describes(parse, etagOf, before.s, c);
          assert Describes(parse, etagOf, before.s.(rules := None), c);
        }
    }
  }

  /** After any run, a successful update of a referenced rule-set leaves the rules of the server's present content
      loaded exactly when it brought content or there were rules to confirm; the ETag and metadata are that
      content's in any case. A failed update changes nothing at all. */
  lemma UpdateLoadsPresentContent(parse: Parser, etagOf: string -> string, w: Setting, steps: seq<RuleSetStep>,
                                  resp: Response, now: nat, saves: bool)
    requires ProperTags(etagOf) && Synced(parse, etagOf, w.s) && ProperRun(parse, etagOf, w, steps)
    requires var before := RunRuleSet(parse, w, steps); Answers(etagOf, before.content, before.s.lastEtag, resp)
    ensures var before := RunRuleSet(parse, w, steps);
      var (after, ok) := UpdateOnceState(parse, before.s, resp, now, saves);
      && (!ok ==> after == before.s)
      && (ok ==> parse(before.content).Some?)
      && (ok ==> after.lastEtag == etagOf(before.content) && after.metadata == parse(before.content).value.metadata)
      && (ok ==> (after.rules == Some(parse(before.content).value.rules) <==>
        after.refs > 0 && (resp.OK? || before.s.rules.Some?)))
  {
    RunKeepsSynced(parse, etagOf, w, steps);
    var before := RunRuleSet(parse, w, steps);
    if resp.NotModified? {
      var c :| Describes(parse, etagOf, before.s, c);
      assert c == before.content;
    }
  }

  /** What a fetch stamps and saves. A success sets the time, in the cache too if there is something saved and saving
      works; a 304 touches nothing else; a 200 loads and saves its body with the ETag it leaves remembered. A failure
      changes nothing. */
  lemma FetchStampsExactly(parse: Parser, s: RuleSetState, resp: Response, now: nat, saves: bool)
    ensures var (s', ok) := FetchState(parse, s, resp, now, saves);
      && (ok <==> resp.NotModified? || (resp.OK? && resp.body.Some? && parse(resp.body.value).Some?))
      && (if ok then s'.lastUpdated == now else s' == s) && s'.refs == s.refs
      && (resp.NotModified? ==>
            && s'.rules == s.rules && s'.metadata == s.metadata && s'.lastEtag == s.lastEtag
            && s'.cache == (if s.cache.Some? && saves then Some(s.cache.value.(lastUpdated := now)) else s.cache))
      && (ok && resp.OK? ==>
            && s'.lastEtag == (if resp.etag != "" then resp.etag else s.lastEtag)
            && s'.rules == Some(parse(resp.body.value).value.rules)
            && s'.metadata == parse(resp.body.value).value.metadata
            && s'.cache == (if saves then Some(Saved(resp.body.value, now, s'.lastEtag)) else s.cache))
  {
  }

  /** A start needs no answer exactly when something with a time stamp was saved; otherwise its first fetch must
      succeed. A missing detour and a saved content that does not parse fail it. */
  lemma StartExactly(parse: Parser, cache: Option<Saved>, refs: nat, detourMissing: bool, resp: Response, now: nat,
                     saves: bool)
    ensures var r := StartFromCache(parse, cache, refs, detourMissing, resp, now, saves);
      var usable := cache.Some? && parse(cache.value.content).Some?;
      var fetched := resp.NotModified? || (resp.OK? && resp.body.Some? && parse(resp.body.value).Some?);
      && (r.Some? <==>
            && !detourMissing && (cache.Some? ==> usable)
            && ((usable && cache.value.lastUpdated != 0) || fetched))
      && (r.Some? && usable && cache.value.lastUpdated != 0 ==>
            var p := parse(cache.value.content).value;
            r.value ==
              RuleSetState(Some(p.rules), p.metadata, cache.value.lastEtag, cache.value.lastUpdated, cache, refs))
      && (r.Some? && cache.None? && resp.OK? ==>
            var p := parse(resp.body.value).value;
            r.value.rules == Some(p.rules) && r.value.lastEtag == resp.etag && r.value.lastUpdated == now)
  {
  }

  /** A saved update survives a restart: the same rules, metadata, ETag and time come back from the cache. */
  lemma SavedUpdateSurvivesRestart(parse: Parser, s: RuleSetState, body: string, etag: string, now: nat, resp: Response,
                                   later: nat, saves: bool)
    requires parse(body).Some? && now != 0
    ensures var s' := FetchState(parse, s, OK(Some(body), etag), now, true).0;
      StartFromCache(parse, s'.cache, s'.refs, false, resp, later, saves) == Some(s')
  {
  }

  /** Without an ETag on every 200 the promise needs a condition. The exact one, for content that parses: no ETag
      was remembered, or the kept one belongs to a content that reads the same, and if the update is saved, to this
      very content. */
  lemma UntaggedContentKeepsSyncedExactly(parse: Parser, etagOf: string -> string, s: RuleSetState, c2: string,
                                          now: nat, saves: bool)
    requires ProperTags(etagOf) && Synced(parse, etagOf, s) && parse(c2).Some?
    ensures Synced(parse, etagOf, FetchState(parse, s, OK(Some(c2), ""), now, saves).0) <==>
      || s.lastEtag == ""
      || if saves then etagOf(c2) == s.lastEtag else exists c :: etagOf(c) == s.lastEtag && parse(c) == parse(c2)
  {
    var s' := FetchState(parse, s, OK(Some(c2), ""), now, saves).0;
    if saves && s.lastEtag != "" && etagOf(c2) == s.lastEtag {
      assert Describes(parse, etagOf, s', c2);
    } else if c :| etagOf(c) == s.lastEtag && parse(c) == parse(c2) {
      assert Describes(parse, etagOf, s', c);
    }
    if s.lastEtag != "" && Synced(parse, etagOf, s') {
      var c :| Describes(parse, etagOf, s', c);
      assert parse(c) == parse(c2);
    }
  }

  /** The failing case in full: the old ETag is kept beside the new content, and when the
      server returns to the old content, the confirmed rules are those of the other one. */
  lemma TaglessContentIsConfirmedWrongly(parse: Parser, etagOf: string -> string, s: RuleSetState, c1: string,
                                         c2: string, now: nat, saves: bool)
    requires ProperTags(etagOf) && Describes(parse, etagOf, s, c1) && s.refs > 0
    requires parse(c2).Some? && parse(c2).value.rules != parse(c1).value.rules
    ensures var s1 := UpdateOnceState(parse, s, OK(Some(c2), ""), now, saves).0;
      var (s2, ok) := UpdateOnceState(parse, s1, NotModified, now, saves);
      && Answers(etagOf, c1, s1.lastEtag, NotModified) && ok && s2.rules.Some?
      && s2.rules != Some(parse(c1).value.rules)
  {
  }

  // ---------------------------------------------------------------------------
  // The object
  // ---------------------------------------------------------------------------

  class RuleSet {
    const parse: Parser
    var rules: Option<seq<string>>
    var metadata: Metadata
    var lastEtag: string
    var lastUpdated: nat
    var cache: Option<Saved>
    var refs: nat

    ghost function View(): RuleSetState
      reads this
    {
      RuleSetState(rules, metadata, lastEtag, lastUpdated, cache, refs)
    }

    constructor (parse: Parser, cache: Option<Saved>, refs: nat)
      ensures this.parse == parse && View() == RuleSetState(None, NO_METADATA, "", 0, cache, refs)
    {
      this.parse := parse;
      rules, metadata, lastEtag, lastUpdated := None, NO_METADATA, "", 0;
      this.cache, this.refs := cache, refs;
    }

    method LoadBytes(content: string) returns (ok: bool)
      modifies this
      ensures ok <==> parse(content).Some?
      ensures !ok ==> unchanged(this)
      ensures ok ==>
        View() == old(View()).(rules := Some(parse(content).value.rules), metadata := parse(content).value.metadata)
    {
      var p := parse(content);
      if p.None? {
        return false;
      }
      metadata := p.value.metadata;
      rules := Some(p.value.rules);
      ok := true;
    }

    method Fetch(resp: Response, now: nat, saves: bool) returns (ok: bool)
      modifies this
      ensures (View(), ok) == FetchState(parse, old(View()), resp, now, saves)
    {
      match resp {
        case NetworkError => return false;
        case OtherStatus => return false;
        case NotModified =>
          lastUpdated := now;
          if cache.Some? {
            var saved := cache.value.(lastUpdated := lastUpdated);
            if saves {
              cache := Some(saved);
            }
          }
          return true;
        case OK(body, etag) =>
          if body.None? {
            return false;
          }
          ok := LoadBytes(body.value);
          if !ok {
            return;
          }
          if etag != "" {
            lastEtag := etag;
          }
          lastUpdated := now;
          if saves {
            cache := Some(Saved(body.value, lastUpdated, lastEtag));
          }
      }
    }

    method UpdateOnce(resp: Response, now: nat, saves: bool) returns (ok: bool)
      modifies this
      ensures (View(), ok) == UpdateOnceState(parse, old(View()), resp, now, saves)
    {
      ok := Fetch(resp, now, saves);
      if ok && refs == 0 {
        rules := None;
      }
    }

    /** Drops the rules of a rule-set nobody refers to; the rest stays for a later confirmation. */
    method Cleanup()
      modifies this
      ensures refs == 0 ==> View() == old(View()).(rules := None)
      ensures refs != 0 ==> View() == old(View())
    {
      if refs == 0 {
        rules := None;
      }
    }

    method Start(detourMissing: bool, resp: Response, now: nat, saves: bool) returns (ok: bool)
      requires View() == RuleSetState(None, NO_METADATA, "", 0, cache, refs)
      modifies this
      ensures ok <==> StartFromCache(parse, old(cache), old(refs), detourMissing, resp, now, saves).Some?
      ensures ok ==> View() == StartFromCache(parse, old(cache), old(refs), detourMissing, resp, now, saves).value
    {
      if detourMissing {
        return false;
      }
      if cache.Some? {
        var loaded := LoadBytes(cache.value.content);
        if !loaded {
          return false;
        }
        lastUpdated := cache.value.lastUpdated;
        lastEtag := cache.value.lastEtag;
      }
      ok := true;
      if lastUpdated == 0 {
        ok := Fetch(resp, now, saves);
      }
    }
  }
}

/** A provider kept up to date by conditional requests, and the text it saves for a restart. */
module RemoteProvider {
  import opened Nodes
  import opened OutboundManager
  import opened Base64
  import opened RawSubscription
  import opened ProviderRefresh
  import opened ProviderWorld
  import opened ManagerObject
  import opened ProviderObjects

  const BRACE: byte := 123

  datatype Info = Info(upload: int, download: int, total: int, expire: int)

  const NO_INFO := Info(0, 0, 0, 0)

  /** The parsers and serialisers around the provider: the info line, the subscription with the provider's own
      include and exclude patterns applied, and the configuration written to the cache. */
  datatype Codec = Codec(
    parseInfo: Text -> Option<Info>,
    parse: Text -> Option<seq<OutboundOption>>,
    marshal: seq<OutboundOption> -> Text)

  datatype SavedText = SavedText(content: Text, lastUpdated: nat, lastEtag: string)

  datatype RemoteState = RemoteState(
    lastEtag: string,
    lastOutOpts: seq<OutboundOption>,
    info: Info,
    lastUpdated: nat,
    cache: Option<SavedText>)

  datatype Response =
    | NetworkError
    | NotModified(header: Text)
    | OtherStatus
    | OK(body: Option<Text>, etag: string, header: Text)

  // ---------------------------------------------------------------------------
  // Texts
  // ---------------------------------------------------------------------------

  /** `strings.Join` at LF. */
  function Join(lines: seq<Text>): Text {
    if lines == [] then [] else if |lines| == 1 then lines[0] else lines[0] + [LF] + Join(lines[1..])
  }

  function FirstLine(content: Text): (Text, Text) {
    var lines := Split(content);
    if |lines| == 1 then (lines[0], []) else (lines[0], Join(lines[1..]))
  }

  /** An optional info line in front of a body. */
  function WithInfo(line: Option<Text>, body: Text): Text {
    if line.Some? then line.value + [LF] + body else body
  }

  /** What a content is read as: the info line, from the header or else from the first line, and the text the
      subscription is parsed from. */
  function ReadContent(k: Codec, raw: Text, header: Text): (Option<Text>, Text) {
    var content := DecodeBase64URLSafe(raw);
    if k.parseInfo(header).Some? then (Some(header), content)
    else
      var (first, others) := FirstLine(content);
      if k.parseInfo(first).Some? then (Some(first), DecodeBase64URLSafe(others)) else (None, content)
  }

  /** A 304 with an info line replaces the first line of the saved text, if it has two. */
  function ReplaceFirstLine(content: Text, line: Text): Text {
    var i := IndexOf(content, LF);
    if i < |content| then line + [LF] + content[i + 1..] else content
  }

  // ---------------------------------------------------------------------------
  // Fetching and restarting
  // ---------------------------------------------------------------------------

  /** The saved text after a 304 that came with this info header. */
  function ConfirmedText(k: Codec, saved: SavedText, header: Text, now: nat): SavedText {
    var content := if k.parseInfo(header).Some? then ReplaceFirstLine(saved.content, header) else saved.content;
    SavedText(content, now, saved.lastEtag)
  }

  function FetchState(k: Codec, s: RemoteState, resp: Response, now: nat, saves: bool): (RemoteState, bool) {
    match resp
    case NetworkError => (s, false)
    case OtherStatus => (s, false)
    case NotModified(header) =>
      var info := k.parseInfo(header);
      (s.(info := if info.Some? then info.value else NO_INFO,
          lastUpdated := now,
          cache := if s.cache.Some? && saves then Some(ConfirmedText(k, s.cache.value, header, now)) else s.cache),
       true)
    case OK(body, etag, header) =>
      if body.None? then (s, false)
      else
        var s1 := if etag != "" then s.(lastEtag := etag) else s;
        var (line, text) := ReadContent(k, body.value, header);
        var opts := k.parse(text);
        if opts.None? then (s1, false)
        else
          var saved := SavedText(WithInfo(line, k.marshal(opts.value)), now, s1.lastEtag);
          (s1.(lastOutOpts := opts.value,
               info := if line.Some? then k.parseInfo(line.value).value else NO_INFO,
               lastUpdated := now,
               cache := if saves then Some(saved) else s1.cache), true)
  }

  /** The text a restart parses, and the info it finds in front of it. */
  function Restored(k: Codec, saved: Text): (Option<Info>, Text) {
    var content := DecodeBase64URLSafe(saved);
    var (first, others) := FirstLine(content);
    if k.parseInfo(first).Some? then (k.parseInfo(first), DecodeBase64URLSafe(others)) else (None, content)
  }

  /** The provider after its saved text has been parsed and applied. */
  function RestoredState(k: Codec, s: RemoteState): RemoteState
    requires s.cache.Some? && k.parse(Restored(k, s.cache.value.content).1).Some?
  {
    var (found, text) := Restored(k, s.cache.value.content);
    s.(lastEtag := s.cache.value.lastEtag, lastOutOpts := k.parse(text).value,
       info := if found.Some? then found.value else s.info, lastUpdated := s.cache.value.lastUpdated)
  }

  /** A restart of the program: only the saved text is left. It fails when that does not parse, or when the
      download detour is then not found. */
  function RestartState(k: Codec, s: RemoteState, detourMissing: bool): Option<RemoteState> {
    var blank := RemoteState("", [], NO_INFO, 0, s.cache);
    if s.cache.Some? && k.parse(Restored(k, s.cache.value.content).1).None? then None
    else if detourMissing then None
    else if s.cache.None? then Some(blank)
    else Some(RestoredState(k, blank))
  }

  // ---------------------------------------------------------------------------
  // The saved text
  // ---------------------------------------------------------------------------

  /** Serialised configurations are JSON objects on one line. */
  ghost predicate OneLineObjects(k: Codec) {
    forall opts :: var t := k.marshal(opts); t != [] && t[0] == BRACE && LF !in t
  }

  /** HTTP header values hold no line feed. */
  ghost predicate OneLineHeader(resp: Response) {
    match resp
    case NotModified(header) => LF !in header
    case OK(_, _, header) => LF !in header
    case _ => true
  }

  /** The saved text is an optional info line, itself recognised as one, in front of this body. */
  ghost predicate SavedIs(k: Codec, content: Text, body: Text) {
    content == body || exists line :: LF !in line && k.parseInfo(line).Some? && content == WithInfo(Some(line), body)
  }

  lemma {:induction false} SplitOneLine(s: Text)
    requires LF !in s
    ensures Split(s) == [s]
  {
    if s != [] {
      SplitOneLine(s[1..]);
      assert s == [s[0]] + s[1..];
    }
  }

  lemma JoinInFront(c: byte, lines: seq<Text>)
    requires lines != []
    ensures Join(InFront(c, lines)) == [c] + Join(lines)
  {
    if c == LF {
      assert ([[]] + lines)[1..] == lines;
    } else {
      assert InFront(c, lines)[1..] == lines[1..];
    }
  }

  lemma {:induction false} JoinInvertsSplit(s: Text)
    ensures Join(Split(s)) == s
  {
    if s != [] {
      JoinInvertsSplit(s[1..]);
      assert s == [s[0]] + s[1..];
      SplitStep(s[0], s[1..]);
      JoinInFront(s[0], Split(s[1..]));
    }
  }

  /** The first line and the rest of a text with an info line are recovered exactly. */
  lemma FirstLineRecovers(line: Text, body: Text)
    requires LF !in line
    ensures FirstLine(WithInfo(Some(line), body)) == (line, body)
  {
    SplitOfJoin(line, body);
    SplitOneLine(line);
    assert ([line] + Split(body))[1..] == Split(body);
    JoinInvertsSplit(body);
  }

  lemma {:induction false} FirstBreak(line: Text, body: Text)
    requires LF !in line
    ensures IndexOf(line + [LF] + body, LF) == |line|
  {
    if line != [] {
      FirstBreak(line[1..], body);
      assert (line + [LF] + body)[1..] == line[1..] + [LF] + body;
    }
  }

  /** Replacing the first line of a saved text changes only the info line. */
  lemma ReplacingKeepsBody(k: Codec, content: Text, body: Text, header: Text)
    requires SavedIs(k, content, body) && LF !in body && LF !in header && k.parseInfo(header).Some?
    ensures SavedIs(k, ReplaceFirstLine(content, header), body)
    ensures content == body ==> ReplaceFirstLine(content, header) == body
    ensures content != body ==> ReplaceFirstLine(content, header) == WithInfo(Some(header), body)
  {
    if content != body {
      var line :| LF !in line && k.parseInfo(line).Some? && content == WithInfo(Some(line), body);
      FirstBreak(line, body);
      assert content[|line| + 1..] == body;
    }
  }

  /** What one fetch does to the saved text, given what the last saved 200 wrote. */
  lemma FetchKeepsBody(k: Codec, s: RemoteState, body: Text, resp: Response, now: nat, saves: bool)
    requires OneLineObjects(k) && OneLineHeader(resp) && LF !in body
    requires s.cache.Some? ==> SavedIs(k, s.cache.value.content, body)
    ensures var (s', ok) := FetchState(k, s, resp, now, saves);
      s'.cache.Some? ==>
        SavedIs(k, s'.cache.value.content, if resp.OK? && ok && saves then k.marshal(s'.lastOutOpts) else body)
  {
    var (s', ok) := FetchState(k, s, resp, now, saves);
    match resp
    case NotModified(header) =>
      if s.cache.Some? && k.parseInfo(header).Some? {
        ReplacingKeepsBody(k, s.cache.value.content, body, header);
      }
    case OK(b, etag, header) =>
      if ok {
        var (line, text) := ReadContent(k, b.value, header);
        if line.Some? && line.value != header {
          FirstOfSplitIsOneLine(DecodeBase64URLSafe(b.value));
        }
      }
    case _ =>
  }

  lemma {:induction false} FirstOfSplitIsOneLine(s: Text)
    ensures LF !in Split(s)[0]
  {
    if s != [] { FirstOfSplitIsOneLine(s[1..]); }
  }

  datatype Fetch = Fetch(resp: Response, now: nat, saves: bool)

  function RunFetches(k: Codec, s: RemoteState, fetches: seq<Fetch>): RemoteState {
    if fetches == [] then s
    else
      var f := fetches[|fetches| - 1];
      FetchState(k, RunFetches(k, s, fetches[..|fetches| - 1]), f.resp, f.now, f.saves).0
  }

  /** What the last successful and saved 200 of a run wrote; before any, the text given. */
  function LastBody(k: Codec, s: RemoteState, fetches: seq<Fetch>, initial: Text): Text {
    if fetches == [] then initial
    else
      var init, f := fetches[..|fetches| - 1], fetches[|fetches| - 1];
      var (s', ok) := FetchState(k, RunFetches(k, s, init), f.resp, f.now, f.saves);
      if f.resp.OK? && ok && f.saves then k.marshal(s'.lastOutOpts) else LastBody(k, s, init, initial)
  }

  /** Over any run of responses, the saved text after its optional info line stays what the last successful and
      saved 200 wrote. */
  lemma {:induction false} RunKeepsBody(k: Codec, s: RemoteState, fetches: seq<Fetch>, initial: Text)
    requires OneLineObjects(k) && LF !in initial && (s.cache.Some? ==> SavedIs(k, s.cache.value.content, initial))
    requires forall f :: f in fetches ==> OneLineHeader(f.resp)
    ensures LF !in LastBody(k, s, fetches, initial)
    ensures var s' := RunFetches(k, s, fetches);
      s'.cache.Some? ==> SavedIs(k, s'.cache.value.content, LastBody(k, s, fetches, initial))
  {
    if fetches != [] {
      var init, f := fetches[..|fetches| - 1], fetches[|fetches| - 1];
      assert f in fetches;
      RunKeepsBody(k, s, init, initial);
      FetchKeepsBody(k, RunFetches(k, s, init), LastBody(k, s, init, initial), f.resp, f.now, f.saves);
    }
  }

  // ---------------------------------------------------------------------------
  // Restart
  // ---------------------------------------------------------------------------

  lemma BraceBlocksDecoding(s: Text)
    requires BRACE in s
    ensures DecodeBase64URLSafe(s) == s
  {
    ForeignByteBlocksDecoding(s, BRACE);
  }

  /** A restart parses exactly the saved body, unless no info line was saved and the body itself passes for one;
      then it parses the empty text. */
  lemma RestartReadsBodyExactly(k: Codec, content: Text, body: Text)
    requires SavedIs(k, content, body) && LF !in body && BRACE in body
    ensures Restored(k, content).1 == body <==> content != body || k.parseInfo(body).None?
    ensures content == body && k.parseInfo(body).Some? ==> Restored(k, content).1 == []
  {
    BraceBlocksDecoding(content);
    BraceBlocksDecoding(body);
    if content == body {
      SplitOneLine(body);
      SanitizeIsCleaning([]);
      assert DecodeBase64URLSafe([]) == [];
    } else {
      var line :| LF !in line && k.parseInfo(line).Some? && content == WithInfo(Some(line), body);
      FirstLineRecovers(line, body);
    }
  }

  /** After any run from an empty cache, a restart reads back exactly what the last saved 200 wrote, with that one
      exception. */
  lemma RunThenRestart(k: Codec, s: RemoteState, fetches: seq<Fetch>)
    requires OneLineObjects(k) && s.cache.None?
    requires forall f :: f in fetches ==> OneLineHeader(f.resp)
    requires RunFetches(k, s, fetches).cache.Some?
    ensures var content, body := RunFetches(k, s, fetches).cache.value.content, LastBody(k, s, fetches, k.marshal([]));
      Restored(k, content).1 == body <==> content != body || k.parseInfo(body).None?
  {
    RunKeepsBody(k, s, fetches, k.marshal([]));
    var opts := LastBodyIsMarshalled(k, s, fetches);
    RestartReadsBodyExactly(k, RunFetches(k, s, fetches).cache.value.content, LastBody(k, s, fetches, k.marshal([])));
  }

  lemma {:induction false} LastBodyIsMarshalled(k: Codec, s: RemoteState, fetches: seq<Fetch>)
    returns (opts: seq<OutboundOption>)
    ensures LastBody(k, s, fetches, k.marshal([])) == k.marshal(opts)
  {
    if fetches == [] {
      opts := [];
    } else {
      var init, f := fetches[..|fetches| - 1], fetches[|fetches| - 1];
      var (s', ok) := FetchState(k, RunFetches(k, s, init), f.resp, f.now, f.saves);
      if f.resp.OK? && ok && f.saves { opts := s'.lastOutOpts; } else { opts := LastBodyIsMarshalled(k, s, init); }
    }
  }

  // ---------------------------------------------------------------------------
  // ETags
  // ---------------------------------------------------------------------------

  /** What a content, served with a header, makes the provider apply. */
  function Reading(k: Codec, content: Text, header: Text): Option<seq<OutboundOption>> {
    k.parse(ReadContent(k, content, header).1)
  }

  ghost predicate TagsDetermineContent(etagOf: Text -> string) {
    (forall c :: etagOf(c) != "") && forall c, d :: etagOf(c) == etagOf(d) ==> c == d
  }

  /** An ETag belongs to a content that reads as these options. */
  ghost predicate TagFits(k: Codec, etagOf: Text -> string, etag: string, opts: seq<OutboundOption>) {
    etag != "" ==> exists c, header :: etagOf(c) == etag && Reading(k, c, header) == Some(opts)
  }

  /** The remembered ETag belongs to a content whose reading is what was last applied. */
  ghost predicate TagMatchesApplied(k: Codec, etagOf: Text -> string, s: RemoteState) {
    TagFits(k, etagOf, s.lastEtag, s.lastOutOpts)
  }

  predicate Answers(etagOf: Text -> string, content: Text, lastEtag: string, resp: Response) {
    match resp
    case NotModified(_) => lastEtag != "" && lastEtag == etagOf(content)
    case OK(body, etag, _) => etag == etagOf(content) && (body.Some? ==> body.value == content)
    case _ => true
  }

  /** Whether some header makes a content read as these options. */
  ghost predicate ReadableAs(k: Codec, content: Text, opts: seq<OutboundOption>) {
    exists header :: Reading(k, content, header) == Some(opts)
  }

  lemma MatchingMeansReadable(k: Codec, etagOf: Text -> string, s: RemoteState, content: Text)
    requires TagsDetermineContent(etagOf) && s.lastEtag == etagOf(content)
    ensures TagMatchesApplied(k, etagOf, s) <==> ReadableAs(k, content, s.lastOutOpts)
  {
    if TagMatchesApplied(k, etagOf, s) {
      var c, header :| etagOf(c) == s.lastEtag && Reading(k, c, header) == Some(s.lastOutOpts);
      assert c == content;
    }
  }

  /** The ETag is recorded before the content is parsed. So a fetch keeps the match exactly when it is not a 200
      whose content fails to parse, or fails only under this header and is what is applied already. */
  lemma FetchKeepsMatchExactly(k: Codec, etagOf: Text -> string, s: RemoteState, content: Text, resp: Response,
                               now: nat, saves: bool)
    requires TagsDetermineContent(etagOf) && TagMatchesApplied(k, etagOf, s)
    requires Answers(etagOf, content, s.lastEtag, resp)
    ensures TagMatchesApplied(k, etagOf, FetchState(k, s, resp, now, saves).0) <==>
      (resp.OK? && resp.body.Some? && Reading(k, content, resp.header).None? ==> ReadableAs(k, content, s.lastOutOpts))
  {
    var (s', ok) := FetchState(k, s, resp, now, saves);
    if resp.OK? && resp.body.Some? {
      MatchingMeansReadable(k, etagOf, s', content);
      if ok { assert Reading(k, content, resp.header) == Some(s'.lastOutOpts); }
    } else if s.lastEtag != "" {
      var c, header :| etagOf(c) == s.lastEtag && Reading(k, c, header) == Some(s.lastOutOpts);
      assert etagOf(c) == s'.lastEtag && Reading(k, c, header) == Some(s'.lastOutOpts);
    }
  }

  /** From a matching state every successful fetch leaves a reading of the server's present content applied: after
      a 200 the one under the header that came with it, after a 304 one under the header of an earlier 200. */
  lemma SuccessAppliesPresentContent(k: Codec, etagOf: Text -> string, s: RemoteState, content: Text, resp: Response,
                                     now: nat, saves: bool)
    requires TagsDetermineContent(etagOf) && TagMatchesApplied(k, etagOf, s)
    requires Answers(etagOf, content, s.lastEtag, resp)
    ensures var (s', ok) := FetchState(k, s, resp, now, saves);
      && (ok ==> ReadableAs(k, content, s'.lastOutOpts))
      && (ok && resp.OK? ==> Reading(k, content, resp.header) == Some(s'.lastOutOpts))
  {
    if resp.NotModified? {
      MatchingMeansReadable(k, etagOf, s, content);
    } else if resp.OK? && FetchState(k, s, resp, now, saves).1 {
      assert Reading(k, content, resp.header) == Some(FetchState(k, s, resp, now, saves).0.lastOutOpts);
    }
  }

  lemma {:induction false} ConfirmationsKeepApplied(k: Codec, s: RemoteState, fetches: seq<Fetch>)
    requires forall f :: f in fetches ==> f.resp.NotModified?
    ensures var s' := RunFetches(k, s, fetches);
      && s'.lastEtag == s.lastEtag && s'.lastOutOpts == s.lastOutOpts && (s'.cache.Some? <==> s.cache.Some?)
      && (s.cache.Some? ==> s'.cache.value.lastEtag == s.cache.value.lastEtag)
  {
    if fetches != [] {
      assert fetches[|fetches| - 1] in fetches;
      ConfirmationsKeepApplied(k, s, fetches[..|fetches| - 1]);
    }
  }

  /** The failing case in full: a content that does not parse is refused once, and from then on any number of 304
      answers may confirm it as if it had been applied, each with success, while the outbounds of the content before
      it stay in use. The saved ETag is still that older content's, so this ends with a restart at the latest. */
  lemma UnparsableContentKeepsBeingConfirmed(k: Codec, etagOf: Text -> string, s: RemoteState, content: Text,
                                             header: Text, now: nat, saves: bool, fetches: seq<Fetch>, next: Fetch)
    requires TagsDetermineContent(etagOf) && forall h :: Reading(k, content, h).None?
    requires next.resp.NotModified? && forall f :: f in fetches ==> f.resp.NotModified?
    ensures var (s1, ok1) := FetchState(k, s, OK(Some(content), etagOf(content), header), now, saves);
      var s2 := RunFetches(k, s1, fetches);
      && !ok1 && Answers(etagOf, content, s2.lastEtag, next.resp)
      && FetchState(k, s2, next.resp, next.now, next.saves).1
      && s2.lastOutOpts == s.lastOutOpts && !TagMatchesApplied(k, etagOf, s2)
      && (s2.cache.Some? ==> s.cache.Some? && s2.cache.value.lastEtag == s.cache.value.lastEtag)
  {
    var (s1, ok1) := FetchState(k, s, OK(Some(content), etagOf(content), header), now, saves);
    assert Reading(k, content, header).None?;
    ConfirmationsKeepApplied(k, s1, fetches);
    MatchingMeansReadable(k, etagOf, RunFetches(k, s1, fetches), content);
  }

  // ---------------------------------------------------------------------------
  // Runs with a changing server and restarts
  // ---------------------------------------------------------------------------

  /** A written configuration reads back as itself; an empty one has no servers to read. */
  ghost predicate Reloads(k: Codec, opts: seq<OutboundOption>) {
    k.parse(k.marshal(opts)) == if opts == [] then None else Some(opts)
  }

  /** What is taken for granted of the parsers and serialisers: configurations are written on one line, whatever a
      subscription reads as reloads, and the empty text has no servers. */
  ghost predicate ProperCodec(k: Codec) {
    && OneLineObjects(k)
    && (forall t :: k.parse(t).Some? ==> Reloads(k, k.parse(t).value))
    && k.parse([]).None?
  }

  /** The saved text was written for options that its ETag's content reads as. */
  ghost predicate SavedFor(k: Codec, etagOf: Text -> string, saved: SavedText, opts: seq<OutboundOption>) {
    SavedIs(k, saved.content, k.marshal(opts)) && Reloads(k, opts) && TagFits(k, etagOf, saved.lastEtag, opts)
  }

  ghost predicate SavedFits(k: Codec, etagOf: Text -> string, s: RemoteState) {
    s.cache.Some? ==> exists opts :: SavedFor(k, etagOf, s.cache.value, opts)
  }

  lemma FetchKeepsSaved(k: Codec, etagOf: Text -> string, s: RemoteState, content: Text, resp: Response, now: nat,
                        saves: bool)
    requires ProperCodec(k) && TagsDetermineContent(etagOf) && SavedFits(k, etagOf, s)
    requires OneLineHeader(resp) && Answers(etagOf, content, s.lastEtag, resp)
    ensures SavedFits(k, etagOf, FetchState(k, s, resp, now, saves).0)
  {
    var (s', ok) := FetchState(k, s, resp, now, saves);
    var old_ :| s.cache.Some? ==> SavedFor(k, etagOf, s.cache.value, old_);
    FetchKeepsBody(k, s, k.marshal(old_), resp, now, saves);
    if resp.OK? && ok && saves {
      assert Reading(k, content, resp.header) == Some(s'.lastOutOpts) && Reloads(k, s'.lastOutOpts);
      assert SavedFor(k, etagOf, s'.cache.value, s'.lastOutOpts);
    } else if s.cache.Some? {
      assert SavedFor(k, etagOf, s'.cache.value, old_);
    }
  }

  /** A restart from what was saved for some options succeeds exactly when there are any, and the saved text does
      not begin with a body that passes for an info line. Then it applies those very options. */
  lemma RestartSucceedsExactly(k: Codec, etagOf: Text -> string, s: RemoteState, opts: seq<OutboundOption>)
    requires ProperCodec(k) && s.cache.Some? && SavedFor(k, etagOf, s.cache.value, opts)
    ensures var r, body := RestartState(k, s, false), k.marshal(opts);
      && (r.Some? <==> opts != [] && (s.cache.value.content != body || k.parseInfo(body).None?))
      && (r.Some? ==> r.value.lastOutOpts == opts && r.value.lastEtag == s.cache.value.lastEtag)
  {
    RestartReadsBodyExactly(k, s.cache.value.content, k.marshal(opts));
  }

  /** So a subscription of which the provider's patterns keep nothing is applied and saved, and the next start
      fails on it. */
  lemma EmptyReadingBlocksRestart(k: Codec, etagOf: Text -> string, s: RemoteState, content: Text, header: Text,
                                  now: nat, detourMissing: bool)
    requires ProperCodec(k) && TagsDetermineContent(etagOf) && LF !in header
    requires Reading(k, content, header) == Some([])
    ensures var (s', ok) := FetchState(k, s, OK(Some(content), etagOf(content), header), now, true);
      ok && RestartState(k, s', detourMissing).None?
  {
    var blank := s.(cache := None);
    var resp := OK(Some(content), etagOf(content), header);
    var (s', ok) := FetchState(k, s, resp, now, true);
    FetchKeepsBody(k, blank, [], resp, now, true);
    assert s'.cache == FetchState(k, blank, resp, now, true).0.cache;
    assert Reloads(k, []);
    assert SavedFor(k, etagOf, s'.cache.value, []);
    RestartSucceedsExactly(k, etagOf, s', []);
  }

  datatype RemoteStep =
    | ServerChange(content: Text)
    | Update(fetch: Fetch)
    | Restart(detourMissing: bool)

  datatype Setting = Setting(content: Text, s: RemoteState)

  /** A restart that fails leaves the program stopped with its cache file; the run then stays where it was. */
  function ApplyRemote(k: Codec, w: Setting, step: RemoteStep): Setting {
    match step
    case ServerChange(content) => w.(content := content)
    case Update(f) => w.(s := FetchState(k, w.s, f.resp, f.now, f.saves).0)
    case Restart(detourMissing) =>
      var r := RestartState(k, w.s, detourMissing);
      if r.Some? then w.(s := r.value) else w
  }

  function RunRemote(k: Codec, w: Setting, steps: seq<RemoteStep>): Setting {
    if steps == [] then w else ApplyRemote(k, RunRemote(k, w, steps[..|steps| - 1]), steps[|steps| - 1])
  }

  /** Every answer of the run is one the server may give at that point. */
  ghost predicate ProperRun(k: Codec, etagOf: Text -> string, w: Setting, steps: seq<RemoteStep>) {
    steps != [] ==>
      var before, step := RunRemote(k, w, steps[..|steps| - 1]), steps[|steps| - 1];
      && ProperRun(k, etagOf, w, steps[..|steps| - 1])
      && (step.Update? ==>
        OneLineHeader(step.fetch.resp) && Answers(etagOf, before.content, before.s.lastEtag, step.fetch.resp))
  }

  /** Every content that arrives in the run parses. */
  ghost predicate AllParse(k: Codec, steps: seq<RemoteStep>) {
    forall x :: x in steps && x.Update? && x.fetch.resp.OK? && x.fetch.resp.body.Some? ==>
      Reading(k, x.fetch.resp.body.value, x.fetch.resp.header).Some?
  }

  /** Over every run of server changes, fetches and restarts the saved text and the saved ETag go together, even
      when contents that do not parse arrive; and while every content parses, the remembered ETag is that of a
      content whose reading is applied. */
  lemma {:induction false} RunKeepsMatch(k: Codec, etagOf: Text -> string, w: Setting, steps: seq<RemoteStep>)
    requires ProperCodec(k) && TagsDetermineContent(etagOf) && SavedFits(k, etagOf, w.s)
    requires ProperRun(k, etagOf, w, steps)
    ensures SavedFits(k, etagOf, RunRemote(k, w, steps).s)
    ensures TagMatchesApplied(k, etagOf, w.s) && AllParse(k, steps) ==>
      TagMatchesApplied(k, etagOf, RunRemote(k, w, steps).s)
  {
    if steps != [] {
      var init, step := steps[..|steps| - 1], steps[|steps| - 1];
      assert steps == init + [step];
      RunKeepsMatch(k, etagOf, w, init);
      var before := RunRemote(k, w, init);
      match step
      case ServerChange(content) =>
      case Update(f) =>
        FetchKeepsSaved(k, etagOf, before.s, before.content, f.resp, f.now, f.saves);
        if TagMatchesApplied(k, etagOf, w.s) && AllParse(k, steps) {
          assert step in steps;
          FetchKeepsMatchExactly(k, etagOf, before.s, before.content, f.resp, f.now, f.saves);
        }
      case Restart(detourMissing) => RestartMatches(k, etagOf, before.s, detourMissing);
    }
  }

  lemma RestartMatches(k: Codec, etagOf: Text -> string, s: RemoteState, detourMissing: bool)
    requires ProperCodec(k) && SavedFits(k, etagOf, s)
    ensures var r := RestartState(k, s, detourMissing);
      r.Some? ==> TagMatchesApplied(k, etagOf, r.value) && r.value.cache == s.cache
  {
    if s.cache.Some? {
      var opts :| SavedFor(k, etagOf, s.cache.value, opts);
      RestartSucceedsExactly(k, etagOf, s, opts);
    }
  }

  /** After any run whose contents all parse, restarts included, every successful fetch leaves a reading of the
      server's present content applied. */
  lemma RunThenFetch(k: Codec, etagOf: Text -> string, w: Setting, steps: seq<RemoteStep>, f: Fetch)
    requires ProperCodec(k) && TagsDetermineContent(etagOf) && SavedFits(k, etagOf, w.s)
    requires TagMatchesApplied(k, etagOf, w.s)
    requires ProperRun(k, etagOf, w, steps) && AllParse(k, steps)
    requires var before := RunRemote(k, w, steps); Answers(etagOf, before.content, before.s.lastEtag, f.resp)
    ensures var before := RunRemote(k, w, steps);
      var (s', ok) := FetchState(k, before.s, f.resp, f.now, f.saves);
      && (ok ==> ReadableAs(k, before.content, s'.lastOutOpts))
      && (ok && f.resp.OK? ==> Reading(k, before.content, f.resp.header) == Some(s'.lastOutOpts))
  {
    RunKeepsMatch(k, etagOf, w, steps);
    var before := RunRemote(k, w, steps);
    SuccessAppliesPresentContent(k, etagOf, before.s, before.content, f.resp, f.now, f.saves);
  }

  /** After any run at all, contents that do not parse included, a restart that succeeds brings ETag and options
      back together. */
  lemma RestartRepairsMatch(k: Codec, etagOf: Text -> string, w: Setting, steps: seq<RemoteStep>, detourMissing: bool)
    requires ProperCodec(k) && TagsDetermineContent(etagOf) && SavedFits(k, etagOf, w.s)
    requires ProperRun(k, etagOf, w, steps)
    ensures var r := RestartState(k, RunRemote(k, w, steps).s, detourMissing);
      r.Some? ==> TagMatchesApplied(k, etagOf, r.value)
  {
    RunKeepsMatch(k, etagOf, w, steps);
    RestartMatches(k, etagOf, RunRemote(k, w, steps).s, detourMissing);
  }

  // ---------------------------------------------------------------------------
  // The object
  // ---------------------------------------------------------------------------

  datatype StartOutcome = Ready | RestoreFailed | DetourMissing

  class RemoteSubscription {
    const k: Codec
    const adapter: Adapter
    const downloadDetour: string
    var lastEtag: string
    var lastOutOpts: seq<OutboundOption>
    var info: Info
    var lastUpdated: nat
    var cache: Option<SavedText>

    ghost function View(): RemoteState
      reads this
    {
      RemoteState(lastEtag, lastOutOpts, info, lastUpdated, cache)
    }

    constructor (k: Codec, adapter: Adapter, downloadDetour: string, cache: Option<SavedText>)
      ensures this.k == k && this.adapter == adapter && this.downloadDetour == downloadDetour
      ensures View() == RemoteState("", [], NO_INFO, 0, cache)
    {
      this.k, this.adapter, this.downloadDetour := k, adapter, downloadDetour;
      lastEtag, lastOutOpts, info, lastUpdated := "", [], NO_INFO, 0;
      this.cache := cache;
    }

    /** A content that parses is a refresh against the options applied last; one that does not moves nothing. */
    method UpdateProviderFromContent(content: Text, env: Env) returns (ok: bool)
      modifies `lastOutOpts, adapter`outbounds, adapter`outboundsByTag, adapter.outbound
      ensures ok <==> k.parse(content).Some?
      ensures !ok ==> unchanged(this) && unchanged(adapter) && unchanged(adapter.outbound)
      ensures ok ==> lastOutOpts == k.parse(content).value
      ensures ok ==> ((adapter.outbound.View(), adapter.View(lastOutOpts)) ==
                      RefreshFromLast(adapter.outbound.cfg, old(adapter.outbound.View()),
                        old(adapter.View(lastOutOpts)), k.parse(content).value, env))
    {
      var opts := k.parse(content);
      if opts.None? {
        return false;
      }
      ghost var before := adapter.View(lastOutOpts);
      adapter.UpdateOutbounds(lastOutOpts, opts.value, env);
      assert adapter.View(before.lastOpts).(lastOpts := opts.value) == adapter.View(opts.value);
      lastOutOpts := opts.value;
      ok := true;
    }

    /** A 304: the info and the time are renewed, here and in the saved text. */
    method Confirm(header: Text, now: nat, saves: bool)
      modifies `info, `lastUpdated, `cache
      ensures View() == FetchState(k, old(View()), NotModified(header), now, saves).0
    {
      var headerInfo := k.parseInfo(header);
      info := if headerInfo.Some? then headerInfo.value else NO_INFO;
      lastUpdated := now;
      if cache.Some? {
        var saved := cache.value;
        if headerInfo.Some? {
          var index := IndexOf(saved.content, LF);
          if index < |saved.content| {
            saved := saved.(content := header + [LF] + saved.content[index + 1..]);
          }
        }
        saved := saved.(lastUpdated := lastUpdated);
        if saves {
          cache := Some(saved);
        }
      }
    }

    /** A content that parses is applied, and then the groups are called back; they find the new list. */
    method ApplyContent(content: Text, env: Env) returns (ok: bool)
      modifies `lastOutOpts, adapter, adapter.outbound
      ensures ok <==> k.parse(content).Some?
      ensures !ok ==> unchanged(this) && unchanged(adapter) && unchanged(adapter.outbound)
      ensures ok ==> lastOutOpts == k.parse(content).value && adapter.callbacks == old(adapter.callbacks)
      ensures ok ==>
        adapter.notified == old(adapter.notified) + Calls(adapter.callbacks, adapter.providerTag, adapter.outbounds)
      ensures ok ==>
        (adapter.outbound.View(), adapter.View(lastOutOpts)) ==
        RefreshFromLast(adapter.outbound.cfg, old(adapter.outbound.View()), old(adapter.View(lastOutOpts)), lastOutOpts,
                        env)
    {
      ok := UpdateProviderFromContent(content, env);
      if ok {
        adapter.UpdateGroups();
      }
    }

    /** The body of a 200: its ETag is recorded, its info line is split off, and what remains is applied. */
    method Load(body: Text, etag: string, header: Text, now: nat, saves: bool, env: Env) returns (ok: bool)
      modifies this, adapter, adapter.outbound
      ensures (View(), ok) == FetchState(k, old(View()), OK(Some(body), etag, header), now, saves)
      ensures !ok ==> unchanged(adapter) && unchanged(adapter.outbound)
      ensures ok ==> adapter.callbacks == old(adapter.callbacks)
      ensures ok ==>
        adapter.notified == old(adapter.notified) + Calls(adapter.callbacks, adapter.providerTag, adapter.outbounds)
      ensures ok ==>
        (adapter.outbound.View(), adapter.View(lastOutOpts)) ==
        RefreshFromLast(adapter.outbound.cfg, old(adapter.outbound.View()), old(adapter.View(lastOutOpts)), lastOutOpts,
                        env)
    {
      if etag != "" {
        lastEtag := etag;
      }
      var content := DecodeBase64URLSafe(body);
      var line: Option<Text> := if k.parseInfo(header).Some? then Some(header) else None;
      if line.None? {
        var (first, others) := FirstLine(content);
        if k.parseInfo(first).Some? {
          line := Some(first);
          content := DecodeBase64URLSafe(others);
        }
      }
      assert (line, content) == ReadContent(k, body, header);
      ok := ApplyContent(content, env);
      if !ok {
        return;
      }
      info := if line.Some? then k.parseInfo(line.value).value else NO_INFO;
      lastUpdated := now;
      if saves {
        cache := Some(SavedText(WithInfo(line, k.marshal(lastOutOpts)), lastUpdated, lastEtag));
      }
    }

    /** An applied 200 is a refresh followed by the callbacks of the groups, which find the new list; nothing else
        touches the registry or calls a group. */
    method Fetch(resp: Response, now: nat, saves: bool, env: Env) returns (ok: bool)
      modifies this, adapter, adapter.outbound
      ensures (View(), ok) == FetchState(k, old(View()), resp, now, saves)
      ensures !(resp.OK? && ok) ==> unchanged(adapter) && unchanged(adapter.outbound)
      ensures resp.OK? && ok ==> adapter.callbacks == old(adapter.callbacks)
      ensures resp.OK? && ok ==>
        adapter.notified == old(adapter.notified) + Calls(adapter.callbacks, adapter.providerTag, adapter.outbounds)
      ensures resp.OK? && ok ==>
        (adapter.outbound.View(), adapter.View(lastOutOpts)) ==
        RefreshFromLast(adapter.outbound.cfg, old(adapter.outbound.View()), old(adapter.View(lastOutOpts)), lastOutOpts,
                        env)
    {
      match resp {
        case NetworkError => return false;
        case OtherStatus => return false;
        case NotModified(header) =>
          Confirm(header, now, saves);
          return true;
        case OK(body, etag, header) =>
          if body.None? {
            return false;
          }
          ok := Load(body.value, etag, header, now, saves, env);
      }
    }

    /** A start: the saved text, if any, is parsed and applied, and its failure is the start's. Then the download
        detour, if one is configured, is looked up in the registry as it is now. */
    method Start(env: Env) returns (outcome: StartOutcome)
      modifies this, adapter`outbounds, adapter`outboundsByTag, adapter.outbound
      ensures outcome.RestoreFailed? <==> old(cache).Some? && k.parse(Restored(k, old(cache).value.content).1).None?
      ensures !outcome.RestoreFailed? ==>
        (outcome.DetourMissing? <==>
          downloadDetour != "" && Lookup(adapter.outbound.cfg, adapter.outbound.View(), downloadDetour).None?)
      ensures old(cache).None? || outcome.RestoreFailed? ==> unchanged(adapter) && unchanged(adapter.outbound)
      ensures old(cache).None? ==> unchanged(this)
      ensures outcome.RestoreFailed? ==>
        var found := Restored(k, old(cache).value.content).0;
        View() == old(View()).(info := if found.Some? then found.value else old(info))
      ensures old(cache).Some? && !outcome.RestoreFailed? ==>
        && View() == RestoredState(k, old(View()))
        && (adapter.outbound.View(), adapter.View(lastOutOpts)) ==
           RefreshFromLast(adapter.outbound.cfg, old(adapter.outbound.View()), old(adapter.View(lastOutOpts)),
             lastOutOpts, env)
    {
      var restored := Restore(env);
      if !restored {
        return RestoreFailed;
      }
      if downloadDetour != "" {
        var detour := adapter.outbound.Find(downloadDetour);
        if detour.None? {
          return DetourMissing;
        }
      }
      outcome := Ready;
    }

    method Restore(env: Env) returns (ok: bool)
      modifies this, adapter`outbounds, adapter`outboundsByTag, adapter.outbound
      ensures ok <==> old(cache).None? || k.parse(Restored(k, old(cache).value.content).1).Some?
      ensures old(cache).None? || !ok ==> unchanged(adapter) && unchanged(adapter.outbound)
      ensures old(cache).None? ==> unchanged(this)
      ensures !ok ==>
        var found := Restored(k, old(cache).value.content).0;
        View() == old(View()).(info := if found.Some? then found.value else old(info))
      ensures old(cache).Some? && ok ==>
        && View() == RestoredState(k, old(View()))
        && (adapter.outbound.View(), adapter.View(lastOutOpts)) ==
           RefreshFromLast(adapter.outbound.cfg, old(adapter.outbound.View()), old(adapter.View(lastOutOpts)),
             lastOutOpts, env)
    {
      if cache.None? {
        return true;
      }
      var content := DecodeBase64URLSafe(cache.value.content);
      var (first, others) := FirstLine(content);
      var found := k.parseInfo(first);
      if found.Some? {
        info := found.value;
        content := DecodeBase64URLSafe(others);
      }
      ok := UpdateProviderFromContent(content, env);
      if !ok {
        return;
      }
      lastUpdated := cache.value.lastUpdated;
      lastEtag := cache.value.lastEtag;
    }
  }
}

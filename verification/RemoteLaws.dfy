/** Which text of a response a remote provider parses, what it keeps of the info around it, and what a restart brings
    back. */
module RemoteLaws {
  import opened Nodes
  import opened Base64
  import opened RawSubscription
  import opened ProviderRefresh
  import opened RemoteProvider

  // ---------------------------------------------------------------------------
  // Applying a 200
  // ---------------------------------------------------------------------------

  /** The provider after a 200 of which `text` is parsed and `line` is the info line. */
  ghost predicate AppliedAs(k: Codec, s: RemoteState, r: (RemoteState, bool), etag: string, line: Option<Text>,
                            text: Text, now: nat, saves: bool)
  {
    var (s', ok) := r;
    var newEtag := if etag != "" then etag else s.lastEtag;
    && (ok <==> k.parse(text).Some?)
    && s'.lastEtag == newEtag
    && (!ok ==> s' == s.(lastEtag := newEtag))
    && (ok ==>
          && s'.lastOutOpts == k.parse(text).value && s'.lastUpdated == now
          && (line.Some? ==> k.parseInfo(line.value) == Some(s'.info))
          && (line.None? ==> s'.info == NO_INFO)
          && s'.cache == if saves then Some(SavedText(WithInfo(line, k.marshal(k.parse(text).value)), now, newEtag))
                         else s.cache)
  }

  /** An info line in front of a base64 form of `x`, with no info in the header: `x` is what is parsed, and the line is
      kept. All it takes of the line is that it is recognised and has a byte of no alphabet, so that the whole is not
      base64 itself. */
  lemma EncodedBehindInfoLine(k: Codec, s: RemoteState, line: Text, c: byte, e: Text, a: Alphabet, padded: bool,
                              x: Text, etag: string, header: Text, now: nat, saves: bool)
    requires LF !in line && k.parseInfo(line).Some? && k.parseInfo(header).None?
    requires c in line && Cleaned(c) == [c] && Value(c).None?
    requires Transmitted(e, Encode(a, padded, x))
    ensures AppliedAs(k, s, FetchState(k, s, OK(Some(line + [LF] + e), etag, header), now, saves), etag, Some(line), x,
                      now, saves)
  {
    ForeignByteBlocksDecoding(line + [LF] + e, c);
    FirstLineRecovers(line, e);
    DecodeInvertsEveryForm(e, a, padded, x);
    assert ReadContent(k, line + [LF] + e, header) == (Some(line), x);
  }

  /** A base64 form of `x` under an info header: `x` is what is parsed, and the header is the info line. */
  lemma EncodedUnderInfoHeader(k: Codec, s: RemoteState, e: Text, a: Alphabet, padded: bool, x: Text, etag: string,
                               header: Text, now: nat, saves: bool)
    requires Transmitted(e, Encode(a, padded, x)) && k.parseInfo(header).Some?
    ensures AppliedAs(k, s, FetchState(k, s, OK(Some(e), etag, header), now, saves), etag, Some(header), x, now, saves)
  {
    DecodeInvertsEveryForm(e, a, padded, x);
  }

  /** A base64 form of `x` with no info anywhere: `x` is what is parsed, and there is no info line. */
  lemma EncodedWithoutInfo(k: Codec, s: RemoteState, e: Text, a: Alphabet, padded: bool, x: Text, etag: string,
                           header: Text, now: nat, saves: bool)
    requires Transmitted(e, Encode(a, padded, x))
    requires k.parseInfo(header).None? && k.parseInfo(FirstLine(x).0).None?
    ensures AppliedAs(k, s, FetchState(k, s, OK(Some(e), etag, header), now, saves), etag, None, x, now, saves)
  {
    DecodeInvertsEveryForm(e, a, padded, x);
  }

  /** The info line may be inside the encoding, and the text behind it encoded once more. */
  lemma EncodedAroundInfoLine(k: Codec, s: RemoteState, e: Text, a: Alphabet, padded: bool, line: Text, inner: Text,
                              b: Alphabet, innerPadded: bool, x: Text, etag: string, header: Text, now: nat,
                              saves: bool)
    requires LF !in line && k.parseInfo(line).Some? && k.parseInfo(header).None?
    requires Transmitted(e, Encode(a, padded, line + [LF] + inner))
    requires Transmitted(inner, Encode(b, innerPadded, x))
    ensures AppliedAs(k, s, FetchState(k, s, OK(Some(e), etag, header), now, saves), etag, Some(line), x, now, saves)
  {
    DecodeInvertsEveryForm(e, a, padded, line + [LF] + inner);
    DecodeInvertsEveryForm(inner, b, innerPadded, x);
    FirstLineRecovers(line, inner);
  }

  /** A plain text, one with a byte of no alphabet, is parsed as it is, or behind its own info line. */
  lemma PlainIsParsedAsIs(k: Codec, s: RemoteState, x: Text, c: byte, etag: string, header: Text, now: nat, saves: bool)
    requires c in x && Cleaned(c) == [c] && Value(c).None?
    ensures var r := FetchState(k, s, OK(Some(x), etag, header), now, saves);
      && (k.parseInfo(header).Some? ==> AppliedAs(k, s, r, etag, Some(header), x, now, saves))
      && (k.parseInfo(header).None? && k.parseInfo(FirstLine(x).0).None? ==>
            AppliedAs(k, s, r, etag, None, x, now, saves))
      && (k.parseInfo(header).None? && k.parseInfo(FirstLine(x).0).Some? ==>
            AppliedAs(k, s, r, etag, Some(FirstLine(x).0), DecodeBase64URLSafe(FirstLine(x).1), now, saves))
  {
    ForeignByteBlocksDecoding(x, c);
  }

  /** A text that is a base64 form as a whole is decoded as a whole, whatever its first line looks like: an info line
      of letters, digits and '=' alone can be swallowed so. */
  lemma WholeEncodingWins(k: Codec, raw: Text, a: Alphabet, padded: bool, z: Text, header: Text)
    requires Transmitted(raw, Encode(a, padded, z)) && k.parseInfo(header).None?
    ensures ReadContent(k, raw, header) ==
      if k.parseInfo(FirstLine(z).0).Some? then (Some(FirstLine(z).0), DecodeBase64URLSafe(FirstLine(z).1))
      else (None, z)
  {
    DecodeInvertsEveryForm(raw, a, padded, z);
  }

  /** The other answers. A 304 confirms options and ETag, takes the info from its header, or none, and stamps the time
      here and in the saved text; everything else changes nothing. */
  lemma OtherAnswersExactly(k: Codec, s: RemoteState, resp: Response, now: nat, saves: bool)
    requires !resp.OK? || resp.body.None?
    ensures var (s', ok) := FetchState(k, s, resp, now, saves);
      && (ok <==> resp.NotModified?)
      && (!ok ==> s' == s)
      && (ok ==>
            && s'.lastOutOpts == s.lastOutOpts && s'.lastEtag == s.lastEtag && s'.lastUpdated == now
            && s'.info == (if k.parseInfo(resp.header).Some? then k.parseInfo(resp.header).value else NO_INFO)
            && (s.cache.None? || !saves ==> s'.cache == s.cache)
            && (s.cache.Some? && saves ==>
                  && s'.cache.Some? && s'.cache.value.lastUpdated == now
                  && s'.cache.value.lastEtag == s.cache.value.lastEtag
                  && (k.parseInfo(resp.header).None? ==> s'.cache.value.content == s.cache.value.content)))
  {
  }

  // ---------------------------------------------------------------------------
  // Restarts
  // ---------------------------------------------------------------------------

  /** A restart fails exactly when something saved does not parse or the download detour is then missing. With nothing
      saved it begins blank. */
  lemma RestartExactly(k: Codec, s: RemoteState, detourMissing: bool)
    ensures var r := RestartState(k, s, detourMissing);
      && (r.Some? <==>
            !detourMissing && (s.cache.Some? ==> k.parse(Restored(k, s.cache.value.content).1).Some?))
      && (r.Some? ==> r.value.cache == s.cache)
      && (r.Some? && s.cache.None? ==> r.value == RemoteState("", [], NO_INFO, 0, None))
  {
  }

  /** A restart reads the saved text as a fetch reads a body that comes without an info header. */
  lemma RestartReadsLikeFetch(k: Codec, content: Text, header: Text)
    requires k.parseInfo(header).None?
    ensures var (line, text) := ReadContent(k, content, header);
      Restored(k, content) == (if line.Some? then k.parseInfo(line.value) else None, text)
  {
  }

  /** An update that was saved comes back whole: options, ETag, time and info. */
  lemma SavedUpdateRestoresAll(k: Codec, s: RemoteState, line: Option<Text>, opts: seq<OutboundOption>)
    requires ProperCodec(k) && Reloads(k, opts) && opts != [] && s.lastOutOpts == opts
    requires line.Some? ==> LF !in line.value && k.parseInfo(line.value) == Some(s.info)
    requires line.None? ==> s.info == NO_INFO && k.parseInfo(k.marshal(opts)).None?
    requires s.cache == Some(SavedText(WithInfo(line, k.marshal(opts)), s.lastUpdated, s.lastEtag))
    ensures RestartState(k, s, false) == Some(s)
  {
    var body := k.marshal(opts);
    BraceBlocksDecoding(body);
    BraceBlocksDecoding(WithInfo(line, body));
    if line.Some? {
      FirstLineRecovers(line.value, body);
    } else {
      SplitOneLine(body);
    }
  }

  /** So after a 200 that was applied and saved, with servers and with an info line, a restart changes nothing. */
  lemma FetchThenRestart(k: Codec, s: RemoteState, line: Text, c: byte, e: Text, a: Alphabet, padded: bool, x: Text,
                         etag: string, header: Text, now: nat)
    requires ProperCodec(k) && LF !in line && k.parseInfo(line).Some? && k.parseInfo(header).None?
    requires c in line && Cleaned(c) == [c] && Value(c).None?
    requires Transmitted(e, Encode(a, padded, x)) && k.parse(x).Some? && k.parse(x).value != []
    ensures var s' := FetchState(k, s, OK(Some(line + [LF] + e), etag, header), now, true).0;
      RestartState(k, s', false) == Some(s')
  {
    EncodedBehindInfoLine(k, s, line, c, e, a, padded, x, etag, header, now, true);
    var s' := FetchState(k, s, OK(Some(line + [LF] + e), etag, header), now, true).0;
    SavedUpdateRestoresAll(k, s', Some(line), k.parse(x).value);
  }

  /** A 304 without an info header forgets the info shown, but not the saved line: a restart brings it back, so it
      shows what was shown before exactly when there was no info to forget. */
  lemma ConfirmationForgetsInfo(k: Codec, s: RemoteState, line: Text, opts: seq<OutboundOption>, header: Text, now: nat)
    requires ProperCodec(k) && Reloads(k, opts) && opts != [] && s.lastOutOpts == opts
    requires LF !in line && k.parseInfo(line) == Some(s.info) && k.parseInfo(header).None?
    requires s.cache == Some(SavedText(WithInfo(Some(line), k.marshal(opts)), s.lastUpdated, s.lastEtag))
    ensures var s' := FetchState(k, s, NotModified(header), now, true).0;
      var r := RestartState(k, s', false);
      && s'.info == NO_INFO && r.Some? && r.value.info == s.info
      && (r.value == s' <==> s.info == NO_INFO)
  {
    var s' := FetchState(k, s, NotModified(header), now, true).0;
    SavedUpdateRestoresAll(k, s'.(info := s.info), Some(line), opts);
  }
}

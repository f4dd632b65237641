/** The reader of raw subscriptions: one link a line, the whole possibly base64-encoded. */
module RawSubscription {
  import opened Nodes
  import opened Base64

  /** The parser of one link; a line it cannot use yields nothing. */
  type LinkParser = Text -> Option<OutboundOption>

  /** Every link has a colon, the start of "://". */
  ghost predicate LinksHaveColons(link: LinkParser) {
    forall line :: link(line).Some? ==> COLON in line
  }

  // ---------------------------------------------------------------------------
  // Lines
  // ---------------------------------------------------------------------------

  /** `strings.ReplaceAll` of CR LF by LF. */
  function Unix(s: Text): Text {
    if |s| >= 2 && s[0] == CR && s[1] == LF then [LF] + Unix(s[2..])
    else if s == [] then []
    else [s[0]] + Unix(s[1..])
  }

  /** `strings.Split` at LF: one line more than there are breaks. */
  function Split(s: Text): (lines: seq<Text>)
    ensures lines != []
  {
    if s == [] then [[]]
    else
      var rest := Split(s[1..]);
      if s[0] == LF then [[]] + rest else [[s[0]] + rest[0]] + rest[1..]
  }

  function Servers(link: LinkParser, lines: seq<Text>): seq<OutboundOption> {
    if lines == [] then []
    else
      var last := link(lines[|lines| - 1]);
      Servers(link, lines[..|lines| - 1]) + if last.Some? then [last.value] else []
  }

  /** The servers of a plain subscription; none is the error "no servers found". */
  function ParsePlain(link: LinkParser, content: Text): seq<OutboundOption> {
    Servers(link, Split(Unix(content)))
  }

  /** The decoded reading if it has any server, else the plain one. */
  function ParseRaw(link: LinkParser, content: Text): seq<OutboundOption> {
    if ParsePlain(link, DecodeBase64URLSafe(content)) != [] then ParsePlain(link, DecodeBase64URLSafe(content))
    else ParsePlain(link, content)
  }

  method ParseRawLines(link: LinkParser, content: Text) returns (servers: seq<OutboundOption>)
    ensures servers == ParsePlain(link, content)
  {
    servers := [];
    var linkList := Split(Unix(content));
    for i := 0 to |linkList|
      invariant servers == Servers(link, linkList[..i])
    {
      assert linkList[..i + 1][..i] == linkList[..i];
      var server := link(linkList[i]);
      if server.None? {
        continue;
      }
      servers := servers + [server.value];
    }
    assert linkList[..|linkList|] == linkList;
  }

  method ParseRawSubscription(link: LinkParser, content: Text) returns (servers: seq<OutboundOption>)
    ensures servers == ParseRaw(link, content)
  {
    servers := ParseRawLines(link, DecodeBase64URLSafe(content));
    if |servers| > 0 {
      return;
    }
    servers := ParseRawLines(link, content);
  }

  // ---------------------------------------------------------------------------
  // A text without a colon has no servers
  // ---------------------------------------------------------------------------

  lemma {:induction false} UnixKeepsColons(s: Text)
    ensures COLON in Unix(s) ==> COLON in s
  {
    if |s| >= 2 && s[0] == CR && s[1] == LF {
      UnixKeepsColons(s[2..]);
    } else if s != [] {
      UnixKeepsColons(s[1..]);
    }
  }

  lemma {:induction false} SplitKeepsColons(s: Text)
    ensures forall line :: line in Split(s) && COLON in line ==> COLON in s
  {
    if s != [] {
      SplitKeepsColons(s[1..]);
      var rest := Split(s[1..]);
      forall line | line in Split(s) && COLON in line ensures COLON in s {
        if s[0] == LF {
          assert line == [] || line in rest;
        } else {
          assert line == [s[0]] + rest[0] || line in rest;
        }
      }
    }
  }

  lemma {:induction false} NoColonNoServers(link: LinkParser, lines: seq<Text>)
    requires LinksHaveColons(link) && forall line :: line in lines ==> COLON !in line
    ensures Servers(link, lines) == []
  {
    if lines != [] {
      NoColonNoServers(link, lines[..|lines| - 1]);
      assert lines[|lines| - 1] in lines;
    }
  }

  lemma ServersNeedColon(link: LinkParser, content: Text)
    requires LinksHaveColons(link) && ParsePlain(link, content) != []
    ensures COLON in content
  {
    UnixKeepsColons(content);
    SplitKeepsColons(Unix(content));
    if COLON !in content { NoColonNoServers(link, Split(Unix(content))); }
  }

  lemma EncodingHasNoColon(a: Alphabet, padded: bool, x: Text)
    ensures COLON !in Encode(a, padded, x)
  {
  }

  /** A text that has servers as it stands is read as it stands. */
  lemma PlainSubscriptionIsReadAsIs(link: LinkParser, x: Text)
    requires LinksHaveColons(link) && ParsePlain(link, x) != []
    ensures ParseRaw(link, x) == ParsePlain(link, x)
  {
    ServersNeedColon(link, x);
    ForeignByteBlocksDecoding(x, COLON);
  }

  /** For every text, reading any base64 form of it gives exactly the servers of the text's own lines. */
  lemma EncodedSubscriptionReadsTheSame(link: LinkParser, e: Text, a: Alphabet, padded: bool, x: Text)
    requires LinksHaveColons(link) && Transmitted(e, Encode(a, padded, x))
    ensures ParseRaw(link, e) == ParsePlain(link, x)
  {
    DecodeInvertsEveryForm(e, a, padded, x);
    EncodingHasNoColon(a, padded, x);
    TransmissionHasNoColon(e, Encode(a, padded, x));
    if ParsePlain(link, e) != [] { ServersNeedColon(link, e); }
  }

  /** Encoding never changes what the reader answers, except for a text whose servers only show once it is itself
      decoded: the reader decodes one layer, not two. */
  lemma EncodingChangesNothingExactly(link: LinkParser, e: Text, a: Alphabet, padded: bool, x: Text)
    requires LinksHaveColons(link) && Transmitted(e, Encode(a, padded, x))
    ensures ParseRaw(link, e) == ParseRaw(link, x) <==>
      ParsePlain(link, x) != [] || ParsePlain(link, DecodeBase64URLSafe(x)) == []
  {
    EncodedSubscriptionReadsTheSame(link, e, a, padded, x);
    if ParsePlain(link, x) != [] { PlainSubscriptionIsReadAsIs(link, x); }
  }

  // ---------------------------------------------------------------------------
  // Joining texts, and line endings
  // ---------------------------------------------------------------------------

  /** A text without the carriage return it may end in. */
  function Chomp(s: Text): Text {
    if s != [] && s[|s| - 1] == CR then s[..|s| - 1] else s
  }

  lemma UnixPair(s: Text)
    ensures Unix([CR, LF] + s) == [LF] + Unix(s)
  {
    assert ([CR, LF] + s)[2..] == s;
  }

  lemma UnixOther(c: byte, s: Text)
    requires c == CR && s != [] ==> s[0] != LF
    ensures Unix([c] + s) == [c] + Unix(s)
  {
    var t := [c] + s;
    assert t[1..] == s && (|t| >= 2 ==> t[1] == s[0]);
  }

  lemma ChompStep(c: byte, s: Text)
    ensures s != [] || c != CR ==> Chomp([c] + s) == [c] + Chomp(s)
  {
  }

  /** What joining promises for a first text. */
  ghost predicate UnixJoins(a: Text, b: Text) {
    Unix(a + [LF] + b) == Unix(Chomp(a)) + [LF] + Unix(b)
  }

  lemma OtherInFront(c: byte, rest: Text, b: Text)
    ensures [c] + rest + [LF] + b == [c] + (rest + [LF] + b)
  {
  }

  lemma ChompPair(rest: Text)
    ensures Chomp([CR, LF] + rest) == [CR, LF] + Chomp(rest)
  {
  }

  lemma PairInFront(rest: Text, b: Text)
    ensures [CR, LF] + rest + [LF] + b == [CR, LF] + (rest + [LF] + b)
  {
  }

  lemma UnixJoinsAfterPair(rest: Text, b: Text)
    requires UnixJoins(rest, b)
    ensures UnixJoins([CR, LF] + rest, b)
  {
    PairInFront(rest, b);
    UnixPair(rest + [LF] + b);
    ChompPair(rest);
    UnixPair(Chomp(rest));
    OtherInFront(LF, Unix(Chomp(rest)), Unix(b));
  }

  lemma UnixJoinsAfterOther(c: byte, rest: Text, b: Text)
    requires UnixJoins(rest, b) && (rest != [] || c != CR) && (c == CR ==> rest[0] != LF)
    ensures UnixJoins([c] + rest, b)
  {
    OtherInFront(c, rest, b);
    UnixOther(c, rest + [LF] + b);
    ChompStep(c, rest);
    UnixOther(c, Chomp(rest));
    OtherInFront(c, Unix(Chomp(rest)), Unix(b));
  }

  lemma {:induction false} UnixOfJoin(a: Text, b: Text)
    ensures UnixJoins(a, b)
  {
    if a == [] {
      assert a + [LF] + b == [LF] + b;
      UnixOther(LF, b);
    } else if a == [CR] {
      assert a + [LF] + b == [CR, LF] + b;
      UnixPair(b);
    } else if |a| >= 2 && a[0] == CR && a[1] == LF {
      UnixOfJoin(a[2..], b);
      UnixJoinsAfterPair(a[2..], b);
      assert a == [CR, LF] + a[2..];
    } else {
      UnixOfJoin(a[1..], b);
      UnixJoinsAfterOther(a[0], a[1..], b);
      assert a == [a[0]] + a[1..];
    }
  }

  /** One more byte in front of some lines. */
  function InFront(c: byte, lines: seq<Text>): seq<Text>
    requires lines != []
  {
    if c == LF then [[]] + lines else [[c] + lines[0]] + lines[1..]
  }

  lemma InFrontOfConcat(c: byte, p: seq<Text>, q: seq<Text>)
    requires p != []
    ensures InFront(c, p + q) == InFront(c, p) + q
  {
    assert (p + q)[1..] == p[1..] + q;
  }

  lemma SplitStep(c: byte, s: Text)
    ensures Split([c] + s) == InFront(c, Split(s))
  {
    assert ([c] + s)[1..] == s;
  }

  lemma {:induction false} SplitOfJoin(a: Text, b: Text)
    ensures Split(a + [LF] + b) == Split(a) + Split(b)
  {
    if a == [] {
      assert a + [LF] + b == [LF] + b;
      SplitStep(LF, b);
    } else {
      var c, rest := a[0], a[1..];
      assert a == [c] + rest && a + [LF] + b == [c] + (rest + [LF] + b);
      SplitOfJoin(rest, b);
      SplitStep(c, rest + [LF] + b);
      SplitStep(c, rest);
      InFrontOfConcat(c, Split(rest), Split(b));
    }
  }

  lemma {:induction false} ServersOfConcat(link: LinkParser, a: seq<Text>, b: seq<Text>)
    ensures Servers(link, a + b) == Servers(link, a) + Servers(link, b)
  {
    if b == [] {
      assert a + b == a;
    } else {
      var init, last := b[..|b| - 1], b[|b| - 1];
      ServersOfConcat(link, a, init);
      assert (a + b)[..|a + b| - 1] == a + init;
    }
  }

  /** Reading a join is reading its parts, the first without the carriage return the joining break absorbs. */
  lemma ParseOfJoin(link: LinkParser, a: Text, b: Text)
    ensures ParsePlain(link, a + [LF] + b) == ParsePlain(link, Chomp(a)) + ParsePlain(link, b)
  {
    UnixOfJoin(a, b);
    SplitOfJoin(Unix(Chomp(a)), Unix(b));
    ServersOfConcat(link, Split(Unix(Chomp(a))), Split(Unix(b)));
  }

  /** So reading is a homomorphism over newline joins exactly where a final carriage return does not matter. */
  lemma ParseOfJoinExactly(link: LinkParser, a: Text, b: Text)
    ensures ParsePlain(link, a + [LF] + b) == ParsePlain(link, a) + ParsePlain(link, b) <==>
      ParsePlain(link, Chomp(a)) == ParsePlain(link, a)
  {
    ParseOfJoin(link, a, b);
    var p, q, r := ParsePlain(link, Chomp(a)), ParsePlain(link, a), ParsePlain(link, b);
    if p + r == q + r {
      assert |p| == |q|;
      assert p == (p + r)[..|p|] && q == (q + r)[..|q|];
    }
  }

  /** LF line endings turned into CR LF ones. */
  function Dos(s: Text): Text {
    if s == [] then [] else (if s[0] == LF then [CR, LF] else [s[0]]) + Dos(s[1..])
  }

  /** The reader's normalisation undoes the conversion of any text. */
  lemma {:induction false} UnixUndoesDos(s: Text)
    ensures Unix(Dos(s)) == s
  {
    if s != [] {
      UnixUndoesDos(s[1..]);
      var d := Dos(s);
      if s[0] == LF {
        assert d[2..] == Dos(s[1..]);
      } else {
        assert d[1..] == Dos(s[1..]);
        assert |d| >= 2 && d[0] == CR ==> d[1] != LF by {
          if |s| >= 2 { assert d[1] == Dos(s[1..])[0]; }
        }
      }
    }
  }

  lemma {:induction false} UnixKeepsUnix(s: Text)
    requires forall i :: 0 <= i < |s| - 1 ==> !(s[i] == CR && s[i + 1] == LF)
    ensures Unix(s) == s
  {
    if s != [] {
      assert |s| >= 2 ==> !(s[0] == CR && s[0 + 1] == LF);
      forall i | 0 <= i < |s[1..]| - 1 ensures !(s[1..][i] == CR && s[1..][i + 1] == LF) {
        assert !(s[i + 1] == CR && s[i + 1 + 1] == LF);
      }
      UnixKeepsUnix(s[1..]);
    }
  }

  lemma {:induction false} DosCleansAway(x: Text)
    ensures CleanAll(Dos(x)) == CleanAll(x)
  {
    if x != [] {
      DosCleansAway(x[1..]);
      var d, rest := if x[0] == LF then [CR, LF] else [x[0]], Dos(x[1..]);
      assert Dos(x) == d + rest;
      CleanConcat(d, rest);
      CleanStep(x[0], []);
      assert [x[0]] + [] == [x[0]];
      if x[0] == LF { CleanStep(CR, [LF]); assert [CR] + [LF] == [CR, LF]; }
    }
  }

  /** Line endings make no difference to the decoder: what it decodes is the same, and when it does not decode, each
      text is handed back as it came. */
  lemma DecodingIgnoresLineEndings(x: Text)
    ensures RawUrlDecode(Sanitize(Dos(x))) == RawUrlDecode(Sanitize(x))
  {
    SanitizeIsCleaning(x);
    SanitizeIsCleaning(Dos(x));
    DosCleansAway(x);
  }

  /** A text free of CR LF pairs is read the same after conversion to CR LF line endings, line by line and by the
      whole reader, decoding included. */
  lemma LineEndingsDoNotMatter(link: LinkParser, x: Text)
    requires forall i :: 0 <= i < |x| - 1 ==> !(x[i] == CR && x[i + 1] == LF)
    ensures ParsePlain(link, Dos(x)) == ParsePlain(link, x)
    ensures ParseRaw(link, Dos(x)) == ParseRaw(link, x)
  {
    UnixUndoesDos(x);
    UnixKeepsUnix(x);
    DecodingIgnoresLineEndings(x);
  }
}

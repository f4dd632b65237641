/** Base64 as RFC 4648 defines it, and the tolerant decoder of subscriptions. */
module Base64 {
  import opened Nodes

  type byte = x: int | 0 <= x < 256
  type Text = seq<byte>
  type sextet = x: int | 0 <= x < 64

  const LF: byte := 10
  const CR: byte := 13
  const SPACE: byte := 32
  const PLUS: byte := 43
  const MINUS: byte := 45
  const SLASH: byte := 47
  const COLON: byte := 58
  const EQUALS: byte := 61
  const UNDERSCORE: byte := 95

  // ---------------------------------------------------------------------------
  // Encoding: sections 4 and 5 of RFC 4648
  // ---------------------------------------------------------------------------

  datatype Alphabet = Standard | UrlSafe

  function Symbol(a: Alphabet, v: sextet): byte {
    if v < 26 then 65 + v
    else if v < 52 then 71 + v
    else if v < 62 then v - 4
    else if v == 62 then (if a.Standard? then PLUS else MINUS)
    else if a.Standard? then SLASH else UNDERSCORE
  }

  function Symbols(a: Alphabet, v: seq<sextet>): (r: Text)
    ensures |r| == |v| && forall i :: 0 <= i < |v| ==> r[i] == Symbol(a, v[i])
  {
    seq(|v|, i requires 0 <= i < |v| => Symbol(a, v[i]))
  }

  /** Three bytes as four symbols. */
  function Group(a: byte, b: byte, c: byte): (g: seq<sextet>)
    ensures |g| == 4
  {
    [a / 4, a % 4 * 16 + b / 16, b % 16 * 4 + c / 64, c % 64]
  }

  /** One or two bytes left over give as many symbols as hold their bits, the last one filled up with zeros. */
  function Sextets(x: Text): seq<sextet> {
    if |x| == 0 then []
    else if |x| == 1 then Group(x[0], 0, 0)[..2]
    else if |x| == 2 then Group(x[0], x[1], 0)[..3]
    else Group(x[0], x[1], x[2]) + Sextets(x[3..])
  }

  function Padding(x: Text): Text {
    if |x| % 3 == 1 then [EQUALS, EQUALS] else if |x| % 3 == 2 then [EQUALS] else []
  }

  function Encode(a: Alphabet, padded: bool, x: Text): Text {
    Symbols(a, Sextets(x)) + if padded then Padding(x) else []
  }

  // ---------------------------------------------------------------------------
  // Decoding
  // ---------------------------------------------------------------------------

  /** The value of a symbol of the URL-safe alphabet. */
  function Value(c: byte): Option<sextet> {
    if 65 <= c <= 90 then Some(c - 65)
    else if 97 <= c <= 122 then Some(c - 71)
    else if 48 <= c <= 57 then Some(c + 4)
    else if c == MINUS then Some(62)
    else if c == UNDERSCORE then Some(63)
    else None
  }

  /** The decoder skips line breaks wherever they stand. */
  function SkipBreaks(s: Text): Text {
    if s == [] then [] else (if s[0] == CR || s[0] == LF then [] else [s[0]]) + SkipBreaks(s[1..])
  }

  function Values(s: Text): Option<seq<sextet>> {
    if s == [] then Some([])
    else
      var v, rest := Value(s[0]), Values(s[1..]);
      if v.None? || rest.None? then None else Some([v.value] + rest.value)
  }

  /** The three bytes that four symbols hold. */
  function First(p: int, q: int): byte
    requires 0 <= p < 64 && 0 <= q < 64
  {
    p * 4 + q / 16
  }

  function Second(q: int, r: int): byte
    requires 0 <= q < 64 && 0 <= r < 64
  {
    q % 16 * 16 + r / 4
  }

  function Third(r: int, t: int): byte
    requires 0 <= r < 64 && 0 <= t < 64
  {
    r % 4 * 64 + t
  }

  /** Unpadded groups; a single left-over symbol is an error, left-over bits are not looked at. */
  function Bytes(v: seq<sextet>): Option<Text> {
    if |v| == 0 then Some([])
    else if |v| == 1 then None
    else if |v| == 2 then Some([First(v[0], v[1])])
    else if |v| == 3 then Some([First(v[0], v[1]), Second(v[1], v[2])])
    else
      var rest := Bytes(v[4..]);
      if rest.None? then None
      else Some([First(v[0], v[1]), Second(v[1], v[2]), Third(v[2], v[3])] + rest.value)
  }

  function RawUrlDecode(s: Text): Option<Text> {
    var v := Values(SkipBreaks(s));
    if v.None? then None else Bytes(v.value)
  }

  /** `strings.ReplaceAll` for a one-byte pattern. */
  function Replace(s: Text, c: byte, replacement: Text): Text {
    if s == [] then [] else (if s[0] == c then replacement else [s[0]]) + Replace(s[1..], c, replacement)
  }

  function Sanitize(s: Text): Text {
    Replace(Replace(Replace(Replace(s, SPACE, [MINUS]), SLASH, [UNDERSCORE]), PLUS, [MINUS]), EQUALS, [])
  }

  /** Anything that does not decode is handed back as it came. */
  function DecodeBase64URLSafe(content: Text): Text {
    var r := RawUrlDecode(Sanitize(content));
    if r.Some? then r.value else content
  }

  // ---------------------------------------------------------------------------
  // The decoder inverts every form of the encoding
  // ---------------------------------------------------------------------------

  /** `e` is `s` with any of its '+' turned into spaces and line breaks put in anywhere. */
  predicate Transmitted(e: Text, s: Text) {
    if e == [] then s == []
    else if e[0] == CR || e[0] == LF then Transmitted(e[1..], s)
    else s != [] && (e[0] == s[0] || (s[0] == PLUS && e[0] == SPACE)) && Transmitted(e[1..], s[1..])
  }

  /** What one byte becomes on its way into the decoder. */
  function Cleaned(c: byte): Text {
    if c == SPACE || c == PLUS then [MINUS]
    else if c == SLASH then [UNDERSCORE]
    else if c == EQUALS || c == CR || c == LF then []
    else [c]
  }

  function CleanAll(s: Text): Text {
    if s == [] then [] else Cleaned(s[0]) + CleanAll(s[1..])
  }

  lemma ReplaceStep(d: byte, s: Text, c: byte, replacement: Text)
    ensures Replace([d] + s, c, replacement) == (if d == c then replacement else [d]) + Replace(s, c, replacement)
  {
    assert ([d] + s)[1..] == s;
  }

  lemma {:induction false} ReplaceConcat(a: Text, b: Text, c: byte, replacement: Text)
    ensures Replace(a + b, c, replacement) == Replace(a, c, replacement) + Replace(b, c, replacement)
  {
    if a == [] {
      assert a + b == b;
    } else {
      var d, rest := a[0], a[1..];
      assert a == [d] + rest && a + b == [d] + (rest + b);
      ReplaceConcat(rest, b, c, replacement);
      ReplaceStep(d, rest, c, replacement);
      ReplaceStep(d, rest + b, c, replacement);
    }
  }

  lemma SkipStep(d: byte, s: Text)
    ensures SkipBreaks([d] + s) == (if d == CR || d == LF then [] else [d]) + SkipBreaks(s)
  {
    assert ([d] + s)[1..] == s;
  }

  lemma {:induction false} SkipConcat(a: Text, b: Text)
    ensures SkipBreaks(a + b) == SkipBreaks(a) + SkipBreaks(b)
  {
    if a == [] {
      assert a + b == b;
    } else {
      var d, rest := a[0], a[1..];
      assert a == [d] + rest && a + b == [d] + (rest + b);
      SkipConcat(rest, b);
      SkipStep(d, rest);
      SkipStep(d, rest + b);
    }
  }

  lemma ReplaceOne(d: byte, c: byte, replacement: Text)
    ensures Replace([d], c, replacement) == if d == c then replacement else [d]
  {
    assert [d][1..] == [];
  }

  lemma SanitizeConcat(a: Text, b: Text)
    ensures Sanitize(a + b) == Sanitize(a) + Sanitize(b)
  {
    ReplaceConcat(a, b, SPACE, [MINUS]);
    var a1, b1 := Replace(a, SPACE, [MINUS]), Replace(b, SPACE, [MINUS]);
    ReplaceConcat(a1, b1, SLASH, [UNDERSCORE]);
    var a2, b2 := Replace(a1, SLASH, [UNDERSCORE]), Replace(b1, SLASH, [UNDERSCORE]);
    ReplaceConcat(a2, b2, PLUS, [MINUS]);
    ReplaceConcat(Replace(a2, PLUS, [MINUS]), Replace(b2, PLUS, [MINUS]), EQUALS, []);
  }

  lemma SanitizeOne(c: byte)
    ensures SkipBreaks(Sanitize([c])) == Cleaned(c)
  {
    ReplaceOne(c, SPACE, [MINUS]);
    var c1 := if c == SPACE then MINUS else c;
    ReplaceOne(c1, SLASH, [UNDERSCORE]);
    var c2 := if c1 == SLASH then UNDERSCORE else c1;
    ReplaceOne(c2, PLUS, [MINUS]);
    var c3 := if c2 == PLUS then MINUS else c2;
    ReplaceOne(c3, EQUALS, []);
    assert [c3][1..] == [];
  }

  /** The four replacements and the skipping of line breaks, byte by byte. */
  lemma {:induction false} SanitizeIsCleaning(s: Text)
    ensures SkipBreaks(Sanitize(s)) == CleanAll(s)
  {
    if s != [] {
      assert s == [s[0]] + s[1..];
      SanitizeConcat([s[0]], s[1..]);
      SkipConcat(Sanitize([s[0]]), Sanitize(s[1..]));
      SanitizeOne(s[0]);
      SanitizeIsCleaning(s[1..]);
    }
  }

  lemma {:induction false} TransmissionCleansAway(e: Text, s: Text)
    requires Transmitted(e, s)
    ensures CleanAll(e) == CleanAll(s)
  {
    if e != [] {
      if e[0] == CR || e[0] == LF {
        TransmissionCleansAway(e[1..], s);
      } else {
        TransmissionCleansAway(e[1..], s[1..]);
      }
    }
  }

  lemma CleanStep(d: byte, s: Text)
    ensures CleanAll([d] + s) == Cleaned(d) + CleanAll(s)
  {
    assert ([d] + s)[1..] == s;
  }

  lemma {:induction false} CleanConcat(a: Text, b: Text)
    ensures CleanAll(a + b) == CleanAll(a) + CleanAll(b)
  {
    if a == [] {
      assert a + b == b;
    } else {
      var d, rest := a[0], a[1..];
      assert a == [d] + rest && a + b == [d] + (rest + b);
      CleanConcat(rest, b);
      CleanStep(d, rest);
      CleanStep(d, rest + b);
    }
  }

  lemma {:induction false} SymbolsClean(a: Alphabet, v: seq<sextet>)
    ensures CleanAll(Symbols(a, v)) == Symbols(UrlSafe, v)
  {
    if v != [] {
      SymbolsClean(a, v[1..]);
      assert Symbols(a, v)[1..] == Symbols(a, v[1..]);
      assert Symbols(UrlSafe, v) == [Symbol(UrlSafe, v[0])] + Symbols(UrlSafe, v[1..]);
    }
  }

  lemma EncodingCleans(a: Alphabet, padded: bool, x: Text)
    ensures CleanAll(Encode(a, padded, x)) == Symbols(UrlSafe, Sextets(x))
  {
    SymbolsClean(a, Sextets(x));
    CleanConcat(Symbols(a, Sextets(x)), if padded then Padding(x) else []);
    assert CleanAll([EQUALS]) == [] by { assert [EQUALS][1..] == []; }
    assert CleanAll([EQUALS, EQUALS]) == [] by { assert [EQUALS, EQUALS][1..] == [EQUALS]; }
  }

  lemma {:induction false} ValuesInvertSymbols(v: seq<sextet>)
    ensures Values(Symbols(UrlSafe, v)) == Some(v)
  {
    if v != [] {
      ValuesInvertSymbols(v[1..]);
      assert Symbols(UrlSafe, v)[1..] == Symbols(UrlSafe, v[1..]);
      assert v == [v[0]] + v[1..];
    }
  }

  lemma GroupInverts(a: byte, b: byte, c: byte)
    ensures var g := Group(a, b, c); First(g[0], g[1]) == a && Second(g[1], g[2]) == b && Third(g[2], g[3]) == c
  {
  }

  lemma BytesOfGroup(g: seq<sextet>, rest: seq<sextet>)
    requires |g| == 4 && Bytes(rest).Some?
    ensures Bytes(g + rest) == Some([First(g[0], g[1]), Second(g[1], g[2]), Third(g[2], g[3])] + Bytes(rest).value)
    ensures Bytes(g[..2]) == Some([First(g[0], g[1])])
    ensures Bytes(g[..3]) == Some([First(g[0], g[1]), Second(g[1], g[2])])
  {
    assert (g + rest)[4..] == rest;
  }

  lemma {:induction false} BytesInvertSextets(x: Text)
    ensures Bytes(Sextets(x)) == Some(x)
  {
    if |x| >= 3 {
      BytesInvertSextets(x[3..]);
      BytesOfGroup(Group(x[0], x[1], x[2]), Sextets(x[3..]));
      GroupInverts(x[0], x[1], x[2]);
      assert x == [x[0], x[1], x[2]] + x[3..];
    } else if |x| == 2 {
      BytesOfGroup(Group(x[0], x[1], 0), []);
      GroupInverts(x[0], x[1], 0);
      assert x == [x[0], x[1]];
    } else if |x| == 1 {
      BytesOfGroup(Group(x[0], 0, 0), []);
      GroupInverts(x[0], 0, 0);
      assert x == [x[0]];
    }
  }

  /** For every text, every alphabet, with or without padding, '+' possibly turned into a space, and line breaks
      anywhere: decoding gives the text back. */
  lemma DecodeInvertsEveryForm(e: Text, a: Alphabet, padded: bool, x: Text)
    requires Transmitted(e, Encode(a, padded, x))
    ensures DecodeBase64URLSafe(e) == x
  {
    SanitizeIsCleaning(e);
    TransmissionCleansAway(e, Encode(a, padded, x));
    EncodingCleans(a, padded, x);
    ValuesInvertSymbols(Sextets(x));
    BytesInvertSextets(x);
  }

  /** A byte of no alphabet, such as a colon or a brace, makes the decoder hand its input back. */
  lemma {:induction false} ForeignByteBlocksDecoding(s: Text, c: byte)
    requires c in s && Cleaned(c) == [c] && Value(c).None?
    ensures DecodeBase64URLSafe(s) == s
  {
    SanitizeIsCleaning(s);
    ForeignByteSurvives(s, c);
    ForeignByteHasNoValue(CleanAll(s), c);
  }

  lemma {:induction false} ForeignByteSurvives(s: Text, c: byte)
    requires c in s && Cleaned(c) == [c]
    ensures c in CleanAll(s)
  {
    if s[0] != c { ForeignByteSurvives(s[1..], c); }
  }

  lemma {:induction false} ForeignByteHasNoValue(s: Text, c: byte)
    requires c in s && Value(c).None?
    ensures Values(s).None?
  {
    if s[0] != c { ForeignByteHasNoValue(s[1..], c); }
  }

  lemma {:induction false} TransmissionHasNoColon(e: Text, s: Text)
    requires Transmitted(e, s) && COLON !in s
    ensures COLON !in e
  {
    if e != [] {
      assert e == [e[0]] + e[1..];
      if e[0] == CR || e[0] == LF {
        TransmissionHasNoColon(e[1..], s);
      } else {
        TransmissionHasNoColon(e[1..], s[1..]);
      }
    }
  }
}

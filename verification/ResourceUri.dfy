/** Qualified resource URIs: a space and a note path printed as one percent-encoded component, and read
    back. Percent-encoding is that of sections 2.1 and 2.3 of RFC 3986 over UTF-8 (section 3 of RFC 3629). */
module ResourceUri {
  import opened PythonText
  import Frontmatter

  type Byte = b: nat | b < 256 witness 0

  // ----- UTF-8, strictly

  function EncodeChar(c: char): seq<Byte> {
    var n := c as int;
    if n < 0x80 then [n]
    else if n < 0x800 then [0xC0 + n / 64, 0x80 + n % 64]
    else if n < 0x1_0000 then [0xE0 + n / 64 / 64, 0x80 + n / 64 % 64, 0x80 + n % 64]
    else [0xF0 + n / 64 / 64 / 64, 0x80 + n / 64 / 64 % 64, 0x80 + n / 64 % 64, 0x80 + n % 64]
  }

  function Encode(s: string): seq<Byte>
    decreases |s|
  {
    if s == "" then [] else EncodeChar(s[0]) + Encode(s[1..])
  }

  predicate Trail(b: Byte) { 0x80 <= b < 0xC0 }

  /** A byte's payload below its mark. */
  function Low(b: Byte, mark: nat): nat
    requires mark <= b
  {
    (b as nat) - mark
  }

  /** The first code point and the number of its bytes; overlong forms and surrogates are errors. */
  function DecodeFirst(b: seq<Byte>): (r: Option<(char, nat)>)
    requires b != []
    ensures r.Some? ==> 1 <= r.value.1 <= |b|
  {
    if b[0] < 0x80 then Some((b[0] as char, 1))
    else if 0xC2 <= b[0] < 0xE0 && |b| >= 2 && Trail(b[1]) then
      Some(((Low(b[0], 0xC0) * 64 + Low(b[1], 0x80)) as char, 2))
    else if 0xE0 <= b[0] < 0xF0 && |b| >= 3 && Trail(b[1]) && Trail(b[2]) then
      var n := (Low(b[0], 0xE0) * 64 + Low(b[1], 0x80)) * 64 + Low(b[2], 0x80);
      if 0x800 <= n < 0xD800 || 0xE000 <= n then Some((n as char, 3)) else None
    else if 0xF0 <= b[0] < 0xF5 && |b| >= 4 && Trail(b[1]) && Trail(b[2]) && Trail(b[3]) then
      var n := ((Low(b[0], 0xF0) * 64 + Low(b[1], 0x80)) * 64 + Low(b[2], 0x80)) * 64 + Low(b[3], 0x80);
      if 0x1_0000 <= n < 0x11_0000 then Some((n as char, 4)) else None
    else None
  }

  function Decode(b: seq<Byte>): Option<string>
    decreases |b|
  {
    if b == [] then Some("")
    else
      match DecodeFirst(b)
      case None => None
      case Some((c, n)) =>
        match Decode(b[n..])
        case None => None
        case Some(rest) => Some([c] + rest)
  }

  lemma CharDecodes(c: char, rest: seq<Byte>)
    ensures DecodeFirst(EncodeChar(c) + rest) == Some((c, |EncodeChar(c)|))
  {
    var n := c as int;
    var p, q, r := n / 64, n / 64 / 64, n / 64 / 64 / 64;
    assert n == p * 64 + n % 64 && p == q * 64 + p % 64 && q == r * 64 + q % 64;
  }

  /** Strict decoding undoes encoding. */
  lemma {:induction false} EncodeDecodes(s: string)
    ensures Decode(Encode(s)) == Some(s)
    decreases |s|
  {
    if s != "" {
      CharDecodes(s[0], Encode(s[1..]));
      EncodeDecodes(s[1..]);
      var e := EncodeChar(s[0]);
      assert (e + Encode(s[1..]))[|e|..] == Encode(s[1..]);
      assert [s[0]] + s[1..] == s;
    }
  }

  // ----- percent-encoding

  predicate Unreserved(c: char) {
    'A' <= c <= 'Z' || 'a' <= c <= 'z' || '0' <= c <= '9' || c == '_' || c == '.' || c == '-' || c == '~'
  }

  function UpperHex(n: nat): char
    requires n < 16
  {
    "0123456789ABCDEF"[n]
  }

  function QuoteByte(b: Byte): string {
    if b < 0x80 && Unreserved(b as char) then [b as char] else ['%', UpperHex(b / 16), UpperHex(b % 16)]
  }

  function QuoteBytes(b: seq<Byte>): string
    decreases |b|
  {
    if b == [] then "" else QuoteByte(b[0]) + QuoteBytes(b[1..])
  }

  /** `quote(path, safe='')`. */
  function Quote(path: string): string { QuoteBytes(Encode(path)) }

  predicate EscapeAt(t: string, i: nat) {
    i + 3 <= |t| && t[i] == '%' && Frontmatter.HexValue(t[i + 1]).Some? && Frontmatter.HexValue(t[i + 2]).Some?
  }

  predicate HasEscape(t: string) { exists i :: 0 <= i < |t| && EscapeAt(t, i) }

  /** `unquote_to_bytes`: escapes become bytes, everything else is encoded as it stands. */
  function UnquoteBytes(t: string): seq<Byte>
    decreases |t|
  {
    if t == "" then []
    else if EscapeAt(t, 0) then
      [Frontmatter.HexValue(t[1]).value * 16 + Frontmatter.HexValue(t[2]).value] + UnquoteBytes(t[3..])
    else EncodeChar(t[0]) + UnquoteBytes(t[1..])
  }

  lemma ByteUnquotes(b: Byte, rest: string)
    ensures UnquoteBytes(QuoteByte(b) + rest) == [b] + UnquoteBytes(rest)
  {
    var q := QuoteByte(b);
    assert (q + rest)[|q|..] == rest;
    if |q| == 3 {
      HexReadsBack(b / 16);
      HexReadsBack(b % 16);
      assert EscapeAt(q + rest, 0);
    } else {
      assert (q + rest)[0] != '%';
      assert EncodeChar(q[0]) == [b];
    }
  }

  lemma HexReadsBack(n: nat)
    requires n < 16
    ensures Frontmatter.HexValue(UpperHex(n)) == Some(n)
  {
  }

  lemma {:induction false} BytesUnquote(b: seq<Byte>)
    ensures UnquoteBytes(QuoteBytes(b)) == b
    decreases |b|
  {
    if b != [] {
      ByteUnquotes(b[0], QuoteBytes(b[1..]));
      BytesUnquote(b[1..]);
    }
  }

  /** Quoting loses nothing: the component decodes to the path, so distinct paths have distinct components. */
  lemma QuoteDecodes(path: string)
    ensures Decode(UnquoteBytes(Quote(path))) == Some(path)
  {
    BytesUnquote(Encode(path));
    EncodeDecodes(path);
  }

  lemma {:induction false} EncodeConcat(a: string, b: string)
    ensures Encode(a + b) == Encode(a) + Encode(b)
    decreases |a|
  {
    if a == "" {
      assert a + b == b;
    } else {
      assert (a + b)[1..] == a[1..] + b;
      EncodeConcat(a[1..], b);
    }
  }

  lemma {:induction false} QuoteBytesConcat(a: seq<Byte>, b: seq<Byte>)
    ensures QuoteBytes(a + b) == QuoteBytes(a) + QuoteBytes(b)
    decreases |a|
  {
    if a == [] {
      assert a + b == b;
    } else {
      assert (a + b)[1..] == a[1..] + b;
      QuoteBytesConcat(a[1..], b);
    }
  }

  /** Bytes written as escapes: a percent sign and two hexadecimal digits, in capitals, for each. */
  ghost predicate Escaped(t: string, b: seq<Byte>) {
    && |t| == 3 * |b|
    && forall k :: 0 <= k < |b| ==>
         t[3 * k] == '%' && t[3 * k + 1] == "0123456789ABCDEF"[b[k] / 16] && t[3 * k + 2] == "0123456789ABCDEF"[b[k] % 16]
  }

  lemma {:induction false} OthersEscaped(b: seq<Byte>)
    requires forall k :: 0 <= k < |b| ==> b[k] >= 0x80 || !Unreserved(b[k] as char)
    ensures Escaped(QuoteBytes(b), b)
    decreases |b|
  {
    if b != [] {
      var q, rest := QuoteByte(b[0]), QuoteBytes(b[1..]);
      OthersEscaped(b[1..]);
      forall k | 0 <= k < |b|
        ensures var t := q + rest;
                t[3 * k] == '%' && t[3 * k + 1] == "0123456789ABCDEF"[b[k] / 16] && t[3 * k + 2] == "0123456789ABCDEF"[b[k] % 16]
      {
        if k > 0 {
          assert b[k] == b[1..][k - 1];
          assert (q + rest)[3 * k] == rest[3 * (k - 1)] && (q + rest)[3 * k + 1] == rest[3 * (k - 1) + 1]
              && (q + rest)[3 * k + 2] == rest[3 * (k - 1) + 2];
        }
      }
    }
  }

  lemma QuoteOne(c: char)
    ensures Encode([c]) == EncodeChar(c)
    ensures Unreserved(c) ==> Quote([c]) == [c]
    ensures !Unreserved(c) ==> Escaped(Quote([c]), EncodeChar(c))
  {
    assert Encode([c]) == EncodeChar(c) + Encode([]);
    if Unreserved(c) {
      assert EncodeChar(c) == [c as int];
      assert QuoteBytes([c as int]) == QuoteByte(c as int) + QuoteBytes([]);
    } else {
      assert c as int < 0x80 ==> EncodeChar(c) == [c as int];
      hide EncodeChar, Escaped, QuoteBytes;
      HighBytes(c);
      OthersEscaped(EncodeChar(c));
    }
  }

  lemma HighBytes(c: char)
    ensures c as int >= 0x80 ==> forall b <- EncodeChar(c) :: b >= 0x80
  {
  }

  /** A path is quoted character by character: letters, digits and four marks stand for themselves, and any other
      character for the escapes of its bytes. */
  lemma QuotedByCharacter(a: string, c: char)
    ensures Quote(a + [c])
         == Quote(a) + if 'A' <= c <= 'Z' || 'a' <= c <= 'z' || '0' <= c <= '9' || c in "_.-~" then [c] else Quote([c])
    ensures !('A' <= c <= 'Z' || 'a' <= c <= 'z' || '0' <= c <= '9' || c in "_.-~") ==> Escaped(Quote([c]), EncodeChar(c))
    ensures Quote("") == ""
  {
    assert Unreserved(c) <==> 'A' <= c <= 'Z' || 'a' <= c <= 'z' || '0' <= c <= '9' || c in "_.-~";
    hide Unreserved, Encode, EncodeChar, QuoteBytes, Escaped;
    QuoteOne(c);
    EncodeConcat(a, [c]);
    QuoteBytesConcat(Encode(a), Encode([c]));
    NothingQuoted();
  }

  lemma NothingQuoted()
    ensures Quote("") == ""
  {
  }

  // ----- the URI

  const SCHEME := "vaultbridge://space/"
  const NOTE := "/note/"
  const PATH_BYTES := 1024

  predicate SpaceIdChar(c: char) { 'a' <= c <= 'z' || '0' <= c <= '9' || c == '_' || c == '-' }

  predicate IsSpaceId(s: string) {
    1 <= |s| <= 64 && 'a' <= s[0] <= 'z' && forall c <- s :: SpaceIdChar(c)
  }

  /** `scoped_resource_uri`, for a valid space. */
  function Print(space: string, path: string): string { SCHEME + space + NOTE + Quote(path) }

  datatype Parsed = Qualified(space: string, path: string) | InvalidRequest | InvalidScope

  datatype Shape = Shape(space: string, component: string)

  predicate Component(t: string) { t != "" && forall c <- t :: c != '/' && c != '?' && c != '#' }

  /** The match of the whole URI; the space ends at the first slash. */
  function Match(uri: string): Option<Shape> {
    if SCHEME <= uri then MatchRest(uri[|SCHEME|..]) else None
  }

  function MatchRest(rest: string): Option<Shape> {
    var k := First(rest, 0, |rest|, {'/'});
    var tail := rest[k..];
    if IsSpaceId(rest[..k]) && NOTE <= tail && Component(tail[|NOTE|..]) then Some(Shape(rest[..k], tail[|NOTE|..])) else None
  }

  /** `parse_resource_uri`. A path of an unacceptable length is the domain's own error, not a bad request. */
  function Parse(uri: string): Parsed {
    match Match(uri)
    case None => InvalidRequest
    case Some(m) =>
      match Decode(UnquoteBytes(m.component))
      case None => InvalidRequest
      case Some(path) =>
        if HasEscape(path) || Print(m.space, path) != uri then InvalidRequest
        else if 1 <= Utf8Size(path, 0, |path|) <= PATH_BYTES then Qualified(m.space, path)
        else InvalidScope
  }

  lemma {:induction false} QuotedIsComponent(b: seq<Byte>)
    ensures forall c <- QuoteBytes(b) :: c != '/' && c != '?' && c != '#'
    ensures b != [] ==> QuoteBytes(b) != ""
    decreases |b|
  {
    if b != [] {
      QuotedIsComponent(b[1..]);
      assert forall c <- QuoteByte(b[0]) :: Unreserved(c) || c == '%' by {
        assert forall n: nat | n < 16 :: Unreserved(UpperHex(n));
      }
    }
  }

  lemma PrintMatches(space: string, path: string)
    requires IsSpaceId(space)
    ensures Match(Print(space, path)) == if path == "" then None else Some(Shape(space, Quote(path)))
  {
    var uri, q := Print(space, path), Quote(path);
    QuotedIsComponent(Encode(path));
    assert Component(q) <==> path != "";
    hide Quote, MatchRest, IsSpaceId, Component;
    assert uri == SCHEME + (space + (NOTE + q));
    assert uri[|SCHEME|..] == space + (NOTE + q);
    RestMatches(space, q);
  }

  lemma RestMatches(space: string, q: string)
    requires IsSpaceId(space)
    ensures MatchRest(space + (NOTE + q)) == if Component(q) then Some(Shape(space, q)) else None
  {
    var rest, k := space + (NOTE + q), |space|;
    forall i | 0 <= i < k ensures rest[i] != '/' {
      assert rest[i] == space[i] && space[i] in space;
    }
    hide IsSpaceId, Component;
    assert rest[k] == (NOTE + q)[0];
    FirstIs(rest, 0, |rest|, {'/'}, k);
    assert rest[..k] == space && rest[k..] == NOTE + q;
    assert (NOTE + q)[|NOTE|..] == q;
  }

  /** Exactly which identities a printed URI reads back as: all but those whose path is empty, too long or
      itself contains a percent-escape, which are refused. */
  lemma PrintedParses(space: string, path: string)
    requires IsSpaceId(space)
    ensures Parse(Print(space, path)) ==
              if path == "" || HasEscape(path) then InvalidRequest
              else if Utf8Size(path, 0, |path|) > PATH_BYTES then InvalidScope
              else Qualified(space, path)
  {
    hide Match, Quote, UnquoteBytes, Decode, HasEscape;
    PrintMatches(space, path);
    QuoteDecodes(path);
  }

  /** The other half of the bijection, which the parser's own last check secures: every accepted URI prints back to
      itself, from a valid identity. */
  lemma ParsedPrints(uri: string)
    ensures Parse(uri).Qualified? ==>
              var id := Parse(uri);
              IsSpaceId(id.space) && id.path != "" && !HasEscape(id.path)
              && Utf8Size(id.path, 0, |id.path|) <= PATH_BYTES && Print(id.space, id.path) == uri
  {
  }

  /** No two identities share a URI. */
  lemma PrintIsInjective(space: string, path: string, other: string, elsewhere: string)
    requires IsSpaceId(space) && IsSpaceId(other) && path != "" && elsewhere != ""
    requires Print(space, path) == Print(other, elsewhere)
    ensures space == other && path == elsewhere
  {
    PrintMatches(space, path);
    PrintMatches(other, elsewhere);
    QuoteDecodes(path);
    QuoteDecodes(elsewhere);
  }
}

/** The frontmatter envelope: the emitter's one line, the scanner that cuts the envelope out again, and its
    saturating byte count. */
module Frontmatter {
  import opened PythonText

  const MAX_FRONTMATTER_BYTES := 65_536
  const MAX_SCALAR_BYTES := 8_192
  const MAX_MAPPING_KEY_BYTES := 256
  const MAX_CONTAINER_DEPTH := 8
  const MAX_ITEMS := 1_024

  // ----- quoted strings (section 7 of RFC 8259)

  function HexDigit(n: nat): char
    requires n < 16
  {
    "0123456789abcdef"[n]
  }

  /** `\u` and four digits. */
  function Unicode(c: char): string
    requires c as int < 0x1_0000
  {
    var n := c as int;
    ['\\', 'u', HexDigit(n / 16 / 16 / 16), HexDigit(n / 16 / 16 % 16), HexDigit(n / 16 % 16), HexDigit(n % 16)]
  }

  /** `json.dumps` without ASCII escaping, and the three line breaks YAML would see inside quotes escaped. */
  function EscapeChar(c: char): string {
    if c == '"' then "\\\""
    else if c == '\\' then "\\\\"
    else if c == '\n' then "\\n"
    else if c == '\r' then "\\r"
    else if c == '\t' then "\\t"
    else if c == '\U{0C}' then "\\f"
    else if c == '\U{08}' then "\\b"
    else if c < ' ' || c == '\U{85}' || c == '\U{2028}' || c == '\U{2029}' then Unicode(c)
    else [c]
  }

  function Escape(s: string): string
    decreases |s|
  {
    if s == "" then "" else EscapeChar(s[0]) + Escape(s[1..])
  }

  function Quote(s: string): string { "\"" + Escape(s) + "\"" }

  function HexValue(c: char): Option<nat> {
    if '0' <= c <= '9' then Some(c as int - '0' as int)
    else if 'a' <= c <= 'f' then Some(c as int - 'a' as int + 10)
    else if 'A' <= c <= 'F' then Some(c as int - 'A' as int + 10)
    else None
  }

  /** The character four hexadecimal digits name, unless they name half a surrogate pair. */
  function FourDigits(t: string): Option<char>
    requires |t| >= 4
  {
    match (HexValue(t[0]), HexValue(t[1]), HexValue(t[2]), HexValue(t[3]))
    case (Some(a), Some(b), Some(c), Some(d)) =>
      var n := a * 0x1000 + b * 0x100 + c * 0x10 + d;
      if n < 0xD800 || 0xE000 <= n < 0x1_0000 then Some(n as char) else None
    case _ => None
  }

  function Simple(c: char): Option<char> {
    if c == '"' || c == '\\' || c == '/' then Some(c)
    else if c == 'b' then Some('\U{08}')
    else if c == 'f' then Some('\U{0C}')
    else if c == 'n' then Some('\n')
    else if c == 'r' then Some('\r')
    else if c == 't' then Some('\t')
    else None
  }

  datatype Reading = Reading(value: string, rest: string)

  /** A reader of quoted strings, from after the opening quote. */
  function Unquote(t: string): Option<Reading>
    decreases |t|
  {
    if t == "" then None
    else if t[0] == '"' then Some(Reading("", t[1..]))
    else if t[0] == '\\' then
      if |t| >= 6 && t[1] == 'u' then
        (match FourDigits(t[2..6])
         case Some(c) => Prepend(c, Unquote(t[6..]))
         case None => None)
      else if |t| >= 2 && Simple(t[1]).Some? then Prepend(Simple(t[1]).value, Unquote(t[2..]))
      else None
    else if t[0] < ' ' then None
    else Prepend(t[0], Unquote(t[1..]))
  }

  function Prepend(c: char, r: Option<Reading>): Option<Reading> {
    if r.Some? then Some(Reading([c] + r.value.value, r.value.rest)) else None
  }

  lemma DigitsReadBack(c: char)
    requires c as int < 0x1_0000
    ensures FourDigits(Unicode(c)[2..6]) == Some(c)
  {
    var n := c as int;
    var p, q, r := n / 16, n / 16 / 16, n / 16 / 16 / 16;
    assert n == p * 16 + n % 16 && p == q * 16 + p % 16 && q == r * 16 + q % 16;
    DigitReadsBack(r);
    DigitReadsBack(q % 16);
    DigitReadsBack(p % 16);
    DigitReadsBack(n % 16);
    var t := Unicode(c)[2..6];
    hide HexValue, HexDigit;
    assert t == [HexDigit(r), HexDigit(q % 16), HexDigit(p % 16), HexDigit(n % 16)];
    assert n == r * 0x1000 + (q % 16) * 0x100 + (p % 16) * 0x10 + n % 16;
  }

  lemma DigitReadsBack(n: nat)
    requires n < 16
    ensures HexValue(HexDigit(n)) == Some(n)
  {
  }

  lemma EscapedCharReadsBack(c: char, rest: string)
    ensures Unquote(EscapeChar(c) + rest) == Prepend(c, Unquote(rest))
  {
    var e := EscapeChar(c);
    assert (e + rest)[|e|..] == rest;
    if |e| == 6 {
      DigitsReadBack(c);
      assert (e + rest)[2..6] == Unicode(c)[2..6];
    }
  }

  /** Every quoted string reads back as itself, and the reader stops at its closing quote. */
  lemma {:induction false} QuotedReadsBack(s: string, rest: string)
    ensures Unquote(Escape(s) + "\"" + rest) == Some(Reading(s, rest))
    decreases |s|
  {
    if s == "" {
      assert Escape(s) + "\"" + rest == "\"" + rest;
    } else {
      var tail := Escape(s[1..]) + "\"" + rest;
      assert Escape(s) + "\"" + rest == EscapeChar(s[0]) + tail;
      EscapedCharReadsBack(s[0], tail);
      QuotedReadsBack(s[1..], rest);
      assert [s[0]] + s[1..] == s;
    }
  }

  // ----- the emitter

  predicate OneLine(t: string) { forall c <- t :: c !in BREAKS }

  predicate NumberChar(c: char) { '0' <= c <= '9' || 'a' <= c <= 'f' || c in "+-.exn" }

  /** Numbers are carried as the text Python prints for them. */
  type NumberText = s: string | s != "" && forall c <- s :: NumberChar(c) witness "0"

  datatype Value =
    | Text(s: string)
    | Number(source: NumberText)
    | Truth(b: bool)
    | Null
    | List(members: seq<Value>)
    | Mapping(entries: seq<Member>)

  datatype Member = Member(key: string, value: Value)

  datatype Reason =
    ScalarTooLarge | ContainerTooDeep | TooManyItems | KeyTooLarge | DuplicateKey | EnvelopeTooLarge | NotAccepted

  /** The text and the item counter after it, or why the value was rejected. */
  datatype Emission = Emitted(text: string, items: nat) | Rejected(reason: Reason)

  function Bytes(s: string): nat { Utf8Size(s, 0, |s|) }

  function Scalar(source: string, items: nat): Emission {
    if Bytes(source) > MAX_SCALAR_BYTES then Rejected(ScalarTooLarge) else Emitted(source, items)
  }

  function Emit(v: Value, depth: nat, items: nat): Emission
    decreases v
  {
    match v
    case Text(s) => Scalar(Quote(s), items)
    case Number(source) => Scalar(source, items)
    case Truth(b) => Scalar(if b then "true" else "false", items)
    case Null => Scalar("null", items)
    case List(members) =>
      if depth > MAX_CONTAINER_DEPTH then Rejected(ContainerTooDeep)
      else if items + |members| > MAX_ITEMS then Rejected(TooManyItems)
      else Wrapped("[", EmitMembers(members, depth + 1, items + |members|), "]")
    case Mapping(entries) =>
      if depth > MAX_CONTAINER_DEPTH then Rejected(ContainerTooDeep)
      else if items + |entries| > MAX_ITEMS then Rejected(TooManyItems)
      else Wrapped("{", EmitEntries(entries, depth + 1, items + |entries|, {}), "}")
  }

  function Wrapped(open: string, e: Emission, close: string): Emission {
    if e.Emitted? then Emitted(open + e.text + close, e.items) else e
  }

  /** `first` and, after a comma, what follows it. */
  function Joined(first: string, rest: Emission, more: bool): Emission {
    if rest.Emitted? then Emitted(first + (if more then ", " else "") + rest.text, rest.items) else rest
  }

  function EmitMembers(members: seq<Value>, depth: nat, items: nat): Emission
    decreases members
  {
    if members == [] then Emitted("", items)
    else
      match Emit(members[0], depth, items)
      case Rejected(reason) => Rejected(reason)
      case Emitted(text, n) => Joined(text, EmitMembers(members[1..], depth, n), |members| > 1)
  }

  function EmitEntries(entries: seq<Member>, depth: nat, items: nat, seen: set<string>): Emission
    decreases entries
  {
    if entries == [] then Emitted("", items)
    else
      var m := entries[0];
      if Bytes(m.key) > MAX_MAPPING_KEY_BYTES then Rejected(KeyTooLarge)
      else if m.key in seen then Rejected(DuplicateKey)
      else if Scalar(Quote(m.key), items).Rejected? then Scalar(Quote(m.key), items)
      else
        match Emit(m.value, depth, items)
        case Rejected(reason) => Rejected(reason)
        case Emitted(text, n) =>
          Joined(Quote(m.key) + ": " + text, EmitEntries(entries[1..], depth, n, seen + {m.key}), |entries| > 1)
  }

  lemma OneLineJoin(a: string, b: string)
    requires OneLine(a) && OneLine(b)
    ensures OneLine(a + b)
  {
  }

  lemma Punctuation()
    ensures OneLine("") && OneLine("\"") && OneLine("[") && OneLine("]") && OneLine("{") && OneLine("}")
    ensures OneLine(", ") && OneLine(": ") && OneLine("true") && OneLine("false") && OneLine("null")
  {
  }

  lemma HexDigitIsOneLine(n: nat)
    requires n < 16
    ensures HexDigit(n) !in BREAKS
  {
    var c := HexDigit(n);
    assert '0' <= c <= '9' || 'a' <= c <= 'f';
  }

  lemma UnicodeIsOneLine(c: char)
    requires c as int < 0x1_0000
    ensures OneLine(Unicode(c))
  {
    var n := c as int;
    HexDigitIsOneLine(n / 16 / 16 / 16);
    HexDigitIsOneLine(n / 16 / 16 % 16);
    HexDigitIsOneLine(n / 16 % 16);
    HexDigitIsOneLine(n % 16);
    assert '\\' !in BREAKS && 'u' !in BREAKS;
    hide HexDigit;
  }

  lemma EscapedCharIsOneLine(c: char)
    ensures OneLine(EscapeChar(c))
  {
    if c as int < 0x1_0000 {
      UnicodeIsOneLine(c);
    }
    hide Unicode;
  }

  lemma {:induction false} EscapeIsOneLine(s: string)
    ensures OneLine(Escape(s))
    decreases |s|
  {
    hide OneLine, EscapeChar;
    Punctuation();
    if s != "" {
      EscapedCharIsOneLine(s[0]);
      EscapeIsOneLine(s[1..]);
      OneLineJoin(EscapeChar(s[0]), Escape(s[1..]));
    }
  }

  lemma QuoteIsOneLine(s: string)
    ensures OneLine(Quote(s))
  {
    hide OneLine, Escape;
    Punctuation();
    EscapeIsOneLine(s);
    OneLineJoin("\"", Escape(s));
    OneLineJoin("\"" + Escape(s), "\"");
  }

  lemma NumberIsOneLine(source: NumberText)
    ensures OneLine(source)
  {
    assert forall c :: NumberChar(c) ==> c !in BREAKS;
  }

  ghost predicate EmitsOneLine(e: Emission) { e.Emitted? ==> OneLine(e.text) }

  lemma WrapIsOneLine(open: string, e: Emission, close: string)
    requires OneLine(open) && OneLine(close) && EmitsOneLine(e)
    ensures EmitsOneLine(Wrapped(open, e, close))
  {
    if e.Emitted? {
      OneLineJoin(open, e.text);
      OneLineJoin(open + e.text, close);
    }
  }

  lemma JoinIsOneLine(first: string, rest: Emission, more: bool)
    requires OneLine(first) && EmitsOneLine(rest)
    ensures EmitsOneLine(Joined(first, rest, more))
  {
    if rest.Emitted? {
      Punctuation();
      var comma := if more then ", " else "";
      OneLineJoin(first, comma);
      OneLineJoin(first + comma, rest.text);
    }
  }

  /** Whatever is emitted is one line. */
  lemma {:induction false} EmitIsOneLine(v: Value, depth: nat, items: nat)
    ensures EmitsOneLine(Emit(v, depth, items))
    decreases v
  {
    hide OneLine, Quote, Bytes, Wrapped, EmitMembers, EmitEntries;
    Punctuation();
    match v
    case Text(s) => QuoteIsOneLine(s);
    case Number(source) => NumberIsOneLine(source);
    case Truth(_) =>
    case Null =>
    case List(members) =>
      MembersAreOneLine(members, depth + 1, items + |members|);
      WrapIsOneLine("[", EmitMembers(members, depth + 1, items + |members|), "]");
    case Mapping(entries) =>
      EntriesAreOneLine(entries, depth + 1, items + |entries|, {});
      WrapIsOneLine("{", EmitEntries(entries, depth + 1, items + |entries|, {}), "}");
  }

  lemma {:induction false} MembersAreOneLine(members: seq<Value>, depth: nat, items: nat)
    ensures EmitsOneLine(EmitMembers(members, depth, items))
    decreases members
  {
    hide OneLine, Joined, Emit;
    Punctuation();
    if members != [] {
      EmitIsOneLine(members[0], depth, items);
      var e := Emit(members[0], depth, items);
      if e.Emitted? {
        MembersAreOneLine(members[1..], depth, e.items);
        JoinIsOneLine(e.text, EmitMembers(members[1..], depth, e.items), |members| > 1);
      }
    }
  }

  lemma {:induction false} EntriesAreOneLine(entries: seq<Member>, depth: nat, items: nat, seen: set<string>)
    ensures EmitsOneLine(EmitEntries(entries, depth, items, seen))
    decreases entries
  {
    hide OneLine, Joined, Emit, Quote, Bytes;
    Punctuation();
    if entries != [] {
      var key := Quote(entries[0].key);
      QuoteIsOneLine(entries[0].key);
      EmitIsOneLine(entries[0].value, depth, items);
      var e := Emit(entries[0].value, depth, items);
      if e.Emitted? {
        OneLineJoin(key, ": ");
        OneLineJoin(key + ": ", e.text);
        EntriesAreOneLine(entries[1..], depth, e.items, seen + {entries[0].key});
        JoinIsOneLine(key + ": " + e.text, EmitEntries(entries[1..], depth, e.items, seen + {entries[0].key}), |entries| > 1);
      }
    }
  }

  function EnvelopeOf(line: string): string { "---\n" + line + "\n---\n" }

  /** `serialize_frontmatter`: one quoted line between two fences, within the byte limit. `accepted` is the
      owning parser's verdict on the result. */
  function Serialize(metadata: seq<Member>, accepted: bool): Emission {
    match Emit(Mapping(metadata), 1, 0)
    case Rejected(reason) => Rejected(reason)
    case Emitted(line, items) =>
      if Bytes(EnvelopeOf(line)) > MAX_FRONTMATTER_BYTES then Rejected(EnvelopeTooLarge)
      else if !accepted then Rejected(NotAccepted)
      else Emitted(EnvelopeOf(line), items)
  }

  /** The emitted envelope holds one line, which opens with a brace. */
  lemma SerializedShape(metadata: seq<Member>, accepted: bool)
    ensures var e := Serialize(metadata, accepted);
            e.Emitted? ==> exists line :: e.text == EnvelopeOf(line) && OneLine(line) && line != "" && line[0] == '{'
                             && Bytes(e.text) <= MAX_FRONTMATTER_BYTES
  {
    EmitIsOneLine(Mapping(metadata), 1, 0);
  }

  // ----- cutting the envelope out

  datatype Bounds = Bounds(end: nat, next: Option<nat>)

  /** `_line_bounds`: only a line feed ends a line, and a carriage return before it is not content. */
  function LineBounds(t: string, start: nat): (r: Bounds)
    requires start <= |t|
    ensures start <= r.end <= |t|
    ensures r.next.Some? ==> r.end < r.next.value <= |t|
    ensures r.next.Some? ==> var feed := r.next.value - 1;
                             t[feed] == '\n' && (forall k :: start <= k < feed ==> t[k] != '\n')
                             && r.end == if feed > start && t[feed - 1] == '\r' then feed - 1 else feed
    ensures r.next.None? ==> r.end == |t| && forall k :: start <= k < |t| ==> t[k] != '\n'
  {
    var f := First(t, start, |t|, {'\n'});
    if f == |t| then Bounds(|t|, None)
    else Bounds(if f > start && t[f - 1] == '\r' then f - 1 else f, Some(f + 1))
  }

  predicate ClosesAt(t: string, start: nat, end: nat)
    requires start <= end <= |t|
  {
    t[start..end] in {"---", "..."}
  }

  datatype Extraction = Envelope(payload: string, offset: nat) | NoEnvelope | Malformed | TooLarge

  datatype Closer = Closer(start: nat, end: nat)

  /** The first closing line at or after `position`, with the end of its segment. */
  function FindCloser(t: string, position: nat): (r: Option<Closer>)
    requires position <= |t|
    ensures r.Some? ==> position <= r.value.start <= r.value.end <= |t|
    decreases |t| - position
  {
    var b := LineBounds(t, position);
    var end := if b.next.Some? then b.next.value else |t|;
    if ClosesAt(t, position, b.end) then Some(Closer(position, end))
    else if b.next.Some? then FindCloser(t, b.next.value)
    else None
  }

  /** What the scanner is to return, the size of the envelope measured exactly. */
  function ExtractSpec(t: string): Extraction {
    var start := if t != "" && t[0] == '\U{FEFF}' then 1 else 0;
    var b := LineBounds(t, start);
    if t[start..b.end] != "---" then NoEnvelope
    else if b.next.None? then Malformed
    else CutAt(t, start, b.next.value, FindCloser(t, b.next.value))
  }

  function CutAt(t: string, start: nat, payload: nat, closer: Option<Closer>): Extraction
    requires start <= payload <= |t| && (closer.Some? ==> payload <= closer.value.start <= closer.value.end <= |t|)
  {
    match closer
    case None => Malformed
    case Some(c) =>
      if Utf8Size(t, start, c.end) > MAX_FRONTMATTER_BYTES then TooLarge else Envelope(t[payload..c.start], c.end)
  }

  /** Sizes of adjacent segments add up. */
  lemma {:induction false} SizesAdd(t: string, a: nat, b: nat, c: nat)
    requires a <= b <= c <= |t|
    ensures Utf8Size(t, a, c) == Utf8Size(t, a, b) + Utf8Size(t, b, c)
    decreases c - b
  {
    if b < c {
      SizesAdd(t, a, b, c - 1);
    }
  }

  function Saturated(size: nat, limit: nat): nat { if size > limit then limit + 1 else size }

  /** `_bounded_utf8_size`: the encoded size, or one more than the limit. */
  method BoundedUtf8Size(t: string, start: nat, end: nat, limit: nat) returns (size: nat)
    requires start <= end <= |t|
    ensures size == Saturated(Utf8Size(t, start, end), limit)
  {
    size := 0;
    for index := start to end
      invariant size == Utf8Size(t, start, index) <= limit
    {
      var c := t[index];
      if c <= '\U{7F}' {
        size := size + 1;
      } else if c <= '\U{7FF}' {
        size := size + 2;
      } else if c <= '\U{FFFF}' {
        size := size + 3;
      } else {
        size := size + 4;
      }
      if size > limit {
        SizesAdd(t, start, index + 1, end);
        return limit + 1;
      }
    }
  }

  /** `_extract_envelope`: saturating counts decide exactly as the encoded size would. */
  method ExtractEnvelope(t: string) returns (r: Extraction)
    ensures r == ExtractSpec(t)
  {
    var start := if t != "" && t[0] == '\U{FEFF}' then 1 else 0;
    var opener := LineBounds(t, start);
    if opener.end - start != 3 || t[start..opener.end] != "---" {
      return NoEnvelope;
    }
    if opener.next.None? {
      return Malformed;
    }
    var payloadStart := opener.next.value;
    r := ScanEnvelope(t, start, payloadStart);
  }

  /** The scan for the closer, counting on until the limit is passed. */
  method ScanEnvelope(t: string, start: nat, payloadStart: nat) returns (r: Extraction)
    requires start <= payloadStart <= |t|
    ensures r == CutAt(t, start, payloadStart, FindCloser(t, payloadStart))
  {
    hide Utf8Size, LineBounds, CutAt, FindCloser, ClosesAt;
    var bytes := BoundedUtf8Size(t, start, payloadStart, MAX_FRONTMATTER_BYTES);
    var position := payloadStart;
    while true
      invariant payloadStart <= position <= |t|
      invariant FindCloser(t, payloadStart) == FindCloser(t, position)
      invariant bytes == Saturated(Utf8Size(t, start, position), MAX_FRONTMATTER_BYTES)
      decreases |t| - position
    {
      var line := LineBounds(t, position);
      var closes := line.end - position == 3 && ClosesAt(t, position, line.end);
      var end := if line.next.None? then |t| else line.next.value;
      CloserStep(t, position);
      SizesAdd(t, start, position, end);
      if bytes <= MAX_FRONTMATTER_BYTES {
        var more := BoundedUtf8Size(t, position, end, MAX_FRONTMATTER_BYTES - bytes);
        bytes := bytes + more;
      }
      if closes {
        Cut(t, start, payloadStart, Closer(position, end));
        return if bytes > MAX_FRONTMATTER_BYTES then TooLarge else Envelope(t[payloadStart..position], end);
      }
      if line.next.None? {
        NoCut(t, start, payloadStart);
        return Malformed;
      }
      position := line.next.value;
    }
  }

  lemma CloserStep(t: string, position: nat)
    requires position <= |t|
    ensures var b := LineBounds(t, position);
            var end := if b.next.Some? then b.next.value else |t|;
            && FindCloser(t, position) == (if b.end - position == 3 && ClosesAt(t, position, b.end) then Some(Closer(position, end))
                                           else if b.next.Some? then FindCloser(t, b.next.value) else None)
  {
  }

  lemma Cut(t: string, start: nat, payload: nat, c: Closer)
    requires start <= payload <= c.start <= c.end <= |t|
    ensures CutAt(t, start, payload, Some(c))
         == if Utf8Size(t, start, c.end) > MAX_FRONTMATTER_BYTES then TooLarge else Envelope(t[payload..c.start], c.end)
  {
  }

  lemma NoCut(t: string, start: nat, payload: nat)
    requires start <= payload <= |t|
    ensures CutAt(t, start, payload, None) == Malformed
  {
  }
}

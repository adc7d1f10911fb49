/** A reader of JSON flow collections, and the proof that it reads every emitted mapping back. It knows nothing of
    the emitter: it skips white space, reads quoted strings, words and nested collections, and keeps the order. */
module FlowReader {
  import opened Frontmatter
  import opened PythonText

  /** What was read and what is left. */
  datatype Read<+T> = Read(value: T, rest: string)

  function Skip(t: string): (r: string)
    ensures |r| <= |t|
  {
    if t != "" && t[0] == ' ' then Skip(t[1..]) else t
  }

  /** The characters that end a word. */
  const ENDS: set<char> := {',', ']', '}', ' ', '\n'}

  function WordEnd(t: string): (r: nat)
    ensures r <= |t|
  {
    First(t, 0, |t|, ENDS)
  }

  function Word(w: string): Option<Value> {
    if w == "true" then Some(Truth(true))
    else if w == "false" then Some(Truth(false))
    else if w == "null" then Some(Null)
    else if w != "" && forall c <- w :: NumberChar(c) then Some(Number(w))
    else None
  }

  function ReadValue(t: string): (r: Option<Read<Value>>)
    ensures r.Some? ==> |r.value.rest| < |t|
    decreases |t|, 1
  {
    if t == "" then None
    else if t[0] == '"' then
      UnquoteShrinks(t[1..]);
      match Unquote(t[1..]) case None => None case Some(q) => Some(Read(Text(q.value), q.rest))
    else if t[0] == '[' then
      var s := Skip(t[1..]);
      if s != "" && s[0] == ']' then Some(Read(List([]), s[1..]))
      else match ReadMembers(s) case None => None case Some(m) => Some(Read(List(m.value), m.rest))
    else if t[0] == '{' then
      var s := Skip(t[1..]);
      if s != "" && s[0] == '}' then Some(Read(Mapping([]), s[1..]))
      else match ReadEntries(s) case None => None case Some(m) => Some(Read(Mapping(m.value), m.rest))
    else
      var e := WordEnd(t);
      match Word(t[..e]) case None => None case Some(v) => Some(Read(v, t[e..]))
  }

  lemma UnquoteShrinks(t: string)
    ensures Unquote(t).Some? ==> |Unquote(t).value.rest| < |t|
    decreases |t|
  {
  }

  /** One value and what follows it up to the closing bracket. */
  function ReadMembers(t: string): (r: Option<Read<seq<Value>>>)
    ensures r.Some? ==> |r.value.rest| < |t|
    decreases |t|, 2
  {
    match ReadValue(t)
    case None => None
    case Some(v) =>
      var s := Skip(v.rest);
      if s == "" then None
      else if s[0] == ']' then Some(Read([v.value], s[1..]))
      else if s[0] == ',' then
        match ReadMembers(Skip(s[1..])) case None => None case Some(m) => Some(Read([v.value] + m.value, m.rest))
      else None
  }

  /** A quoted key, a colon, a value, and what follows it up to the closing brace. */
  function ReadEntries(t: string): (r: Option<Read<seq<Member>>>)
    ensures r.Some? ==> |r.value.rest| < |t|
    decreases |t|, 2
  {
    if t == "" || t[0] != '"' then None
    else
      UnquoteShrinks(t[1..]);
      match Unquote(t[1..])
      case None => None
      case Some(q) =>
        var c := Skip(q.rest);
        if c == "" || c[0] != ':' then None
        else
          match ReadValue(Skip(c[1..]))
          case None => None
          case Some(v) =>
            var s := Skip(v.rest);
            if s == "" then None
            else if s[0] == '}' then Some(Read([Member(q.value, v.value)], s[1..]))
            else if s[0] == ',' then
              match ReadEntries(Skip(s[1..]))
              case None => None
              case Some(m) => Some(Read([Member(q.value, v.value)] + m.value, m.rest))
            else None
  }

  // ----- what is emitted reads back

  /** Where a value ends. */
  predicate Delimited(rest: string) { rest == "" || rest[0] in ENDS }

  /** How every emitted value begins. */
  predicate Solid(t: string) { t != "" && t[0] != ' ' && t[0] != ']' && t[0] != '}' }

  lemma Skipped(t: string)
    ensures t == "" || t[0] != ' ' ==> Skip(t) == t && Skip(" " + t) == t
  {
    assert (" " + t)[1..] == t;
  }

  lemma WordReads(w: string, v: Value, rest: string)
    requires w != "" && (forall c <- w :: c !in ENDS) && w[0] !in {'"', '[', '{'} && Word(w) == Some(v) && Delimited(rest)
    ensures Solid(w) && ReadValue(w + rest) == Some(Read(v, rest))
  {
    var t := w + rest;
    assert forall k :: 0 <= k < |w| ==> t[k] == w[k] && w[k] in w;
    FirstIs(t, 0, |t|, ENDS, |w|);
    assert t[..|w|] == w && t[|w|..] == rest;
  }

  lemma NumberIsNoWord(source: NumberText)
    ensures Word(source) == Some(Number(source))
  {
    assert !NumberChar('r') && "true"[1] == 'r' && !NumberChar('l') && "false"[2] == 'l' && "null"[2] == 'l';
    assert source[|source| - 1] in source && (|source| > 2 ==> source[1] in source && source[2] in source);
  }

  lemma NumberReads(source: NumberText, rest: string)
    requires Delimited(rest)
    ensures Solid(source) && ReadValue(source + rest) == Some(Read(Number(source), rest))
  {
    NumberIsNoWord(source);
    forall c | c in source ensures c !in ENDS && c !in {'"', '[', '{'} {
      assert NumberChar(c);
    }
    hide Word, ReadValue, NumberChar;
    assert source[0] in source;
    WordReads(source, Number(source), rest);
  }

  lemma TextReads(s: string, rest: string)
    ensures Solid(Quote(s)) && ReadValue(Quote(s) + rest) == Some(Read(Text(s), rest))
  {
    hide Unquote, Escape;
    QuotedReadsBack(s, rest);
    assert (Quote(s) + rest)[1..] == Escape(s) + "\"" + rest;
  }

  lemma EmptyReads(rest: string)
    ensures ReadValue("[]" + rest) == Some(Read(List([]), rest)) && ReadValue("{}" + rest) == Some(Read(Mapping([]), rest))
  {
    assert ("[]" + rest)[1..] == "]" + rest && ("]" + rest)[1..] == rest;
    assert ("{}" + rest)[1..] == "}" + rest && ("}" + rest)[1..] == rest;
  }

  lemma ListReads(t: string, members: seq<Value>, rest: string)
    requires Solid(t) && ReadMembers(t) == Some(Read(members, rest))
    ensures ReadValue("[" + t) == Some(Read(List(members), rest))
  {
    hide ReadMembers;
    assert ("[" + t)[1..] == t;
    Skipped(t);
  }

  lemma MappingReads(t: string, entries: seq<Member>, rest: string)
    requires Solid(t) && ReadEntries(t) == Some(Read(entries, rest))
    ensures ReadValue("{" + t) == Some(Read(Mapping(entries), rest))
  {
    hide ReadEntries;
    assert ("{" + t)[1..] == t;
    Skipped(t);
  }

  lemma LastMember(t: string, v: Value, rest: string)
    requires ReadValue(t) == Some(Read(v, "]" + rest))
    ensures ReadMembers(t) == Some(Read([v], rest))
  {
    hide ReadValue;
    Skipped("]" + rest);
    assert ("]" + rest)[1..] == rest;
  }

  lemma AnotherMember(t: string, v: Value, tail: string, members: seq<Value>, rest: string)
    requires ReadValue(t) == Some(Read(v, ", " + tail)) && Solid(tail) && ReadMembers(tail) == Some(Read(members, rest))
    ensures ReadMembers(t) == Some(Read([v] + members, rest))
  {
    hide ReadValue;
    Skipped(", " + tail);
    Skipped(tail);
    assert (", " + tail)[1..] == " " + tail;
  }

  /** After its key and colon, an entry is read like a member. */
  lemma KeyReads(key: string, t: string)
    requires Solid(t)
    ensures var k := Quote(key) + (": " + t);
            && k != "" && k[0] == '"' && Unquote(k[1..]) == Some(Reading(key, ": " + t))
            && Skip(": " + t) == ": " + t && Skip((": " + t)[1..]) == t
  {
    hide Unquote, Escape, Skip;
    QuotedReadsBack(key, ": " + t);
    assert (Quote(key) + (": " + t))[1..] == Escape(key) + "\"" + (": " + t);
    Skipped(": " + t);
    Skipped(t);
    assert (": " + t)[1..] == " " + t;
  }

  lemma LastEntry(key: string, t: string, v: Value, rest: string)
    requires Solid(t) && ReadValue(t) == Some(Read(v, "}" + rest))
    ensures ReadEntries(Quote(key) + (": " + t)) == Some(Read([Member(key, v)], rest))
  {
    hide ReadValue, Unquote, Quote;
    KeyReads(key, t);
    Skipped("}" + rest);
    assert ("}" + rest)[1..] == rest;
  }

  lemma AnotherEntry(key: string, t: string, v: Value, tail: string, entries: seq<Member>, rest: string)
    requires Solid(t) && ReadValue(t) == Some(Read(v, ", " + tail)) && Solid(tail)
    requires ReadEntries(tail) == Some(Read(entries, rest))
    ensures ReadEntries(Quote(key) + (": " + t)) == Some(Read([Member(key, v)] + entries, rest))
  {
    hide ReadValue, Unquote, Quote;
    KeyReads(key, t);
    Skipped(", " + tail);
    Skipped(tail);
    assert (", " + tail)[1..] == " " + tail;
  }

  lemma {:induction false} EmittedReads(v: Value, depth: nat, items: nat, rest: string)
    requires Emit(v, depth, items).Emitted? && Delimited(rest)
    ensures Solid(Emit(v, depth, items).text)
    ensures ReadValue(Emit(v, depth, items).text + rest) == Some(Read(v, rest))
    decreases v
  {
    hide Quote, Bytes, EmitMembers, EmitEntries, ReadValue, ReadMembers, ReadEntries, Delimited, Solid;
    match v
    case Text(s) => TextReads(s, rest);
    case Number(source) => NumberReads(source, rest);
    case Truth(b) => TruthReads(b, rest);
    case Null => NullReads(rest);
    case List(members) => ListEmitted(members, depth + 1, items + |members|, rest);
    case Mapping(entries) => MappingEmitted(entries, depth + 1, items + |entries|, rest);
  }

  lemma TruthReads(b: bool, rest: string)
    requires Delimited(rest)
    ensures var w := if b then "true" else "false"; Solid(w) && ReadValue(w + rest) == Some(Read(Truth(b), rest))
  {
    WordReads(if b then "true" else "false", Truth(b), rest);
  }

  lemma NullReads(rest: string)
    requires Delimited(rest)
    ensures Solid("null") && ReadValue("null" + rest) == Some(Read(Null, rest))
  {
    WordReads("null", Null, rest);
  }

  lemma ListEmitted(members: seq<Value>, depth: nat, items: nat, rest: string)
    requires EmitMembers(members, depth, items).Emitted?
    ensures var t := "[" + EmitMembers(members, depth, items).text + "]";
            Solid(t) && ReadValue(t + rest) == Some(Read(List(members), rest))
    decreases members, 1
  {
    hide EmitMembers, ReadValue, ReadMembers;
    var e := EmitMembers(members, depth, items);
    assert "[" + e.text + "]" + rest == "[" + (e.text + ("]" + rest));
    if members == [] {
      NothingEmitted(depth, items);
      EmptyReads(rest);
      assert "[" + ("" + ("]" + rest)) == "[]" + rest;
    } else {
      MembersRead(members, depth, items, rest);
      ListReads(e.text + ("]" + rest), members, rest);
    }
  }

  lemma MappingEmitted(entries: seq<Member>, depth: nat, items: nat, rest: string)
    requires EmitEntries(entries, depth, items, {}).Emitted?
    ensures var t := "{" + EmitEntries(entries, depth, items, {}).text + "}";
            Solid(t) && ReadValue(t + rest) == Some(Read(Mapping(entries), rest))
    decreases entries, 1
  {
    hide EmitEntries, ReadValue, ReadEntries;
    var e := EmitEntries(entries, depth, items, {});
    assert "{" + e.text + "}" + rest == "{" + (e.text + ("}" + rest));
    if entries == [] {
      NothingEmitted(depth, items);
      EmptyReads(rest);
      assert "{" + ("" + ("}" + rest)) == "{}" + rest;
    } else {
      EntriesRead(entries, depth, items, {}, rest);
      MappingReads(e.text + ("}" + rest), entries, rest);
    }
  }

  lemma NothingEmitted(depth: nat, items: nat)
    ensures EmitMembers([], depth, items) == Emitted("", items)
    ensures EmitEntries([], depth, items, {}) == Emitted("", items)
  {
  }

  lemma {:induction false} MembersRead(members: seq<Value>, depth: nat, items: nat, rest: string)
    requires members != [] && EmitMembers(members, depth, items).Emitted?
    ensures Solid(EmitMembers(members, depth, items).text)
    ensures ReadMembers(EmitMembers(members, depth, items).text + ("]" + rest)) == Some(Read(members, rest))
    decreases members, 0
  {
    hide Emit, ReadValue, ReadMembers;
    var e := Emit(members[0], depth, items);
    if |members| == 1 {
      EmittedReads(members[0], depth, items, "]" + rest);
      LastMember(e.text + ("]" + rest), members[0], rest);
      assert members == [members[0]];
      assert e.text + "" + "" == e.text;
    } else {
      var m := EmitMembers(members[1..], depth, e.items);
      var tail := m.text + ("]" + rest);
      MembersRead(members[1..], depth, e.items, rest);
      EmittedReads(members[0], depth, items, ", " + tail);
      AnotherMember(e.text + (", " + tail), members[0], tail, members[1..], rest);
      assert members == [members[0]] + members[1..];
      assert e.text + ", " + m.text + ("]" + rest) == e.text + (", " + tail);
    }
  }

  lemma {:induction false} EntriesRead(entries: seq<Member>, depth: nat, items: nat, seen: set<string>, rest: string)
    requires entries != [] && EmitEntries(entries, depth, items, seen).Emitted?
    ensures Solid(EmitEntries(entries, depth, items, seen).text)
    ensures ReadEntries(EmitEntries(entries, depth, items, seen).text + ("}" + rest)) == Some(Read(entries, rest))
    decreases entries, 0
  {
    hide Emit, ReadValue, ReadEntries, Quote, Bytes, Scalar;
    var first := entries[0];
    TextReads(first.key, "");
    var e := Emit(first.value, depth, items);
    if |entries| == 1 {
      EmittedReads(first.value, depth, items, "}" + rest);
      LastEntry(first.key, e.text + ("}" + rest), first.value, rest);
      assert entries == [first];
      assert Quote(first.key) + ": " + e.text + "" + "" + ("}" + rest) == Quote(first.key) + (": " + (e.text + ("}" + rest)));
    } else {
      var m := EmitEntries(entries[1..], depth, e.items, seen + {first.key});
      var tail := m.text + ("}" + rest);
      EntriesRead(entries[1..], depth, e.items, seen + {first.key}, rest);
      EmittedReads(first.value, depth, items, ", " + tail);
      AnotherEntry(first.key, e.text + (", " + tail), first.value, tail, entries[1..], rest);
      assert entries == [first] + entries[1..];
      assert Quote(first.key) + ": " + e.text + ", " + m.text + ("}" + rest)
          == Quote(first.key) + (": " + (e.text + (", " + tail)));
    }
  }

  /** The line a serialised envelope holds reads back as the metadata: every key in its place with its own value, and
      nothing besides. */
  lemma SerializedReadsBack(metadata: seq<Member>, accepted: bool)
    ensures var e := Serialize(metadata, accepted);
            e.Emitted? ==> exists line :: e.text == EnvelopeOf(line) && ReadValue(line) == Some(Read(Mapping(metadata), ""))
  {
    hide Emit, ReadValue;
    var e := Emit(Mapping(metadata), 1, 0);
    if e.Emitted? {
      EmittedReads(Mapping(metadata), 1, 0, "");
      assert e.text + "" == e.text;
    }
  }
}

/** Which metadata the emitter accepts: measured on the values, without the counters it carries along. */
module FrontmatterLimits {
  import opened Frontmatter
  import opened PythonText

  /** How many containers stand inside one another. */
  function Depth(v: Value): nat
    decreases v
  {
    match v
    case List(members) => 1 + DeepestMember(members)
    case Mapping(entries) => 1 + DeepestEntry(entries)
    case _ => 0
  }

  function Max(a: nat, b: nat): nat { if a < b then b else a }

  function DeepestMember(members: seq<Value>): nat
    decreases members
  {
    if members == [] then 0 else Max(Depth(members[0]), DeepestMember(members[1..]))
  }

  function DeepestEntry(entries: seq<Member>): nat
    decreases entries
  {
    if entries == [] then 0 else Max(Depth(entries[0].value), DeepestEntry(entries[1..]))
  }

  /** How many members and entries all its containers hold together. */
  function Items(v: Value): nat
    decreases v
  {
    match v
    case List(members) => |members| + MemberItems(members)
    case Mapping(entries) => |entries| + EntryItems(entries)
    case _ => 0
  }

  function MemberItems(members: seq<Value>): nat
    decreases members
  {
    if members == [] then 0 else Items(members[0]) + MemberItems(members[1..])
  }

  function EntryItems(entries: seq<Member>): nat
    decreases entries
  {
    if entries == [] then 0 else Items(entries[0].value) + EntryItems(entries[1..])
  }

  /** Every scalar is at most 8,192 bytes as it is printed, every key at most 256 bytes and printed as a scalar, and no
      mapping has a key twice. */
  ghost predicate Sized(v: Value)
    decreases v
  {
    match v
    case Text(s) => Bytes(Quote(s)) <= 8_192
    case Number(source) => Bytes(source) <= 8_192
    case Truth(_) => true
    case Null => true
    case List(members) => forall i :: 0 <= i < |members| ==> Sized(members[i])
    case Mapping(entries) =>
      && (forall i :: 0 <= i < |entries| ==> KeySized(entries[i].key) && Sized(entries[i].value))
      && forall i, j :: 0 <= i < j < |entries| ==> entries[i].key != entries[j].key
  }

  predicate KeySized(key: string) { Bytes(key) <= 256 && Bytes(Quote(key)) <= 8_192 }

  lemma WordsAreShort()
    ensures Bytes("true") <= 8_192 && Bytes("false") <= 8_192 && Bytes("null") <= 8_192
  {
    assert Utf8Size("true", 0, 4) == 4 && Utf8Size("false", 0, 5) == 5 && Utf8Size("null", 0, 4) == 4;
  }

  /** At depth d, with n items counted before, a value is emitted exactly if it is sized, its containers reach no deeper
      than 8, and they hold no more than 1,024 items with those before; its own are counted. */
  lemma {:induction false} Accepted(v: Value, depth: nat, items: nat)
    requires items <= 1_024
    ensures var e := Emit(v, depth, items);
            && (e.Emitted? <==> Sized(v) && (Depth(v) > 0 ==> depth + Depth(v) <= 9) && items + Items(v) <= 1_024)
            && (e.Emitted? ==> e.items == items + Items(v))
    decreases v
  {
    hide Bytes, Quote, EmitMembers, EmitEntries;
    WordsAreShort();
    match v
    case Text(_) =>
    case Number(_) =>
    case Truth(_) =>
    case Null =>
    case List(members) =>
      if items + |members| <= 1_024 {
        MembersAccepted(members, depth + 1, items + |members|);
      }
    case Mapping(entries) =>
      if items + |entries| <= 1_024 {
        EntriesAccepted(entries, depth + 1, items + |entries|, {});
      }
  }

  lemma {:induction false} MembersAccepted(members: seq<Value>, depth: nat, items: nat)
    requires items <= 1_024
    ensures var e := EmitMembers(members, depth, items);
            && (e.Emitted? <==> && (forall i :: 0 <= i < |members| ==> Sized(members[i]))
                                && (DeepestMember(members) > 0 ==> depth + DeepestMember(members) <= 9)
                                && items + MemberItems(members) <= 1_024)
            && (e.Emitted? ==> e.items == items + MemberItems(members))
    decreases members
  {
    hide Emit, Sized, Depth, Items;
    if members != [] {
      Accepted(members[0], depth, items);
      var e := Emit(members[0], depth, items);
      assert forall i :: 0 < i < |members| ==> members[i] == members[1..][i - 1];
      if e.Emitted? {
        MembersAccepted(members[1..], depth, e.items);
      }
    }
  }

  lemma {:induction false} EntriesAccepted(entries: seq<Member>, depth: nat, items: nat, seen: set<string>)
    requires items <= 1_024
    ensures var e := EmitEntries(entries, depth, items, seen);
            && (e.Emitted? <==>
                  && (forall i :: 0 <= i < |entries| ==> KeySized(entries[i].key) && Sized(entries[i].value))
                  && (forall i, j :: 0 <= i < j < |entries| ==> entries[i].key != entries[j].key)
                  && (forall i :: 0 <= i < |entries| ==> entries[i].key !in seen)
                  && (DeepestEntry(entries) > 0 ==> depth + DeepestEntry(entries) <= 9)
                  && items + EntryItems(entries) <= 1_024)
            && (e.Emitted? ==> e.items == items + EntryItems(entries))
    decreases entries
  {
    hide Emit, Sized, Depth, Items, Bytes, Quote;
    if entries != [] {
      var first := entries[0];
      Accepted(first.value, depth, items);
      var e := Emit(first.value, depth, items);
      assert forall i :: 0 < i < |entries| ==> entries[i] == entries[1..][i - 1];
      if e.Emitted? {
        EntriesAccepted(entries[1..], depth, e.items, seen + {first.key});
      }
    }
  }

  /** The emitter accepts exactly the metadata within its limits: the printed envelope, and the parser's own verdict,
      decide about the rest. */
  lemma SerializedExactly(metadata: seq<Member>, accepted: bool)
    ensures Serialize(metadata, accepted).Emitted?
        <==> && Sized(Mapping(metadata)) && Depth(Mapping(metadata)) <= 8 && Items(Mapping(metadata)) <= 1_024 && accepted
             && Emit(Mapping(metadata), 1, 0).Emitted? && Bytes(EnvelopeOf(Emit(Mapping(metadata), 1, 0).text)) <= 65_536
  {
    Accepted(Mapping(metadata), 1, 0);
    hide Emit, Bytes, Sized, Items;
  }
}

/** The bounded derivation of a note's relationships, and its agreement with the eager one. */
module Relationships {
  import opened PythonText
  import opened LinkGrammar
  import opened LinkRefinement
  import opened ScanBounds
  import opened ScanCosts
  import ScanWitness
  import EagerLinks
  import opened ScopedBudget
  import opened ScopedLinks

  datatype Resolution = Resolved | Missing | Ambiguous | Unsafe

  datatype Occurrence = Occurrence(
    sourcePath: string, writtenTarget: string, resolvedPath: Option<string>, resolution: Resolution,
    origin: Origin, fragment: Option<string>, caption: Option<string>, sourceOrder: nat)

  /** `state` is "complete" or "limited"; the reason follows from the state. */
  datatype Derivation = Derivation(occurrences: seq<Occurrence>, complete: bool)

  /** The supplied universe's answer for a written target. */
  type Resolver = (string, Origin, string) -> (Option<string>, Resolution)

  function OccurrenceOf(path: string, resolve: Resolver, item: Item, order: nat): Occurrence {
    var (target, reason) := resolve(path, item.origin, item.spec.target);
    Occurrence(path, item.spec.target, target, reason, item.origin, item.spec.fragment, item.spec.caption, order)
  }

  /** The occurrences of the given items, numbered 0, 1, 2, ... in their order. */
  function Occurrences(path: string, resolve: Resolver, items: seq<Item>): (r: seq<Occurrence>)
    ensures |r| == |items|
  {
    seq(|items|, k requires 0 <= k < |items| => OccurrenceOf(path, resolve, items[k], k))
  }

  lemma OccurrencesAppend(path: string, resolve: Resolver, items: seq<Item>, item: Item)
    ensures Occurrences(path, resolve, items + [item])
         == Occurrences(path, resolve, items) + [OccurrenceOf(path, resolve, item, |items|)]
  {
  }

  lemma PrefixGrows(done: seq<Item>, item: Item, rest: seq<Item>)
    ensures (done + [item]) + rest == done + ([item] + rest)
  {
  }

  /** Drain the generator: while an occurrence may be admitted it recognises exactly the text's links, exactly when
      the credit covers what recognising the text costs. */
  method Recognize(content: string, view: RelationshipView) returns (r: Outcome<seq<Item>>)
    requires view.Valid()
    modifies view`parseLeft, view.owner`parseProbes, view.owner`spaceParseProbes
    ensures view.Valid()
    ensures r.Ok? ==> r.value <= Recognition(content)
    ensures r.Ok? && view.Admissible() > 0 ==> r.value == Recognition(content)
    ensures view.Admissible() == old(view.Admissible())
    ensures view.Admissible() > 0 ==> (r.Ok? <==> old(view.parseLeft) >= RecognitionCost(content))
    ensures view.Admissible() > 0 && r.Ok? ==> view.parseLeft == old(view.parseLeft) - RecognitionCost(content)
    ensures !r.Ok? ==> r == Exhausted(Relationships) && view.parseLeft == 0
    ensures old(view.parseLeft) > 50 * |content| * (|content| + 1) ==> r.Ok?
  {
    QuadraticSuffices(content);
    hide RelationshipView.Valid, Pending, Sound, Work, Recognition, RecognitionCost;
    var items := [];
    var generator := new Recognizer(content, view);
    while true
      invariant generator.Valid() && generator.text == content && generator.view == view && fresh(generator)
      invariant Recognition(content) == items + Pending(content, generator.State())
      invariant generator.Margin() == old(view.parseLeft) - RecognitionCost(content)
      invariant view.Admissible() == old(view.Admissible())
      decreases |Pending(content, generator.State())|
    {
      ghost var before := Pending(content, generator.State());
      var item :- generator.Next();
      if item.None? {
        return Ok(items);
      }
      PrefixGrows(items, item.value, Pending(content, generator.State()));
      items := items + [item.value];
    }
  }

  /** Some quadratic credit suffices for any text. */
  lemma QuadraticSuffices(t: string)
    ensures RecognitionCost(t) <= 50 * |t| * (|t| + 1)
  {
    hide *;
    RecognitionBound(t);
    RescansBound(t);
    RowsAreFew(|t|);
  }

  lemma RowsAreFew(n: nat)
    ensures 15 * n + Rows(n, 3 * n + 2) <= 50 * n * (n + 1)
  {
    var square := n * n;
    assert n * (3 * n + 2) == 3 * square + 2 * n;
    assert 50 * n * (n + 1) == 50 * square + 50 * n;
  }

  /** What one derivation may report of `all`, the links of the whole text. */
  ghost predicate Honest(r: Derivation, all: seq<Item>, path: string, resolve: Resolver) {
    && |r.occurrences| <= |all|
    && r.occurrences == Occurrences(path, resolve, all[..|r.occurrences|])
    && (r.complete ==> |r.occurrences| == |all|)
  }

  /** Under any credit the result is a numbered prefix of the text's links. It is called complete exactly when more
      occurrences may be admitted than there are, every written target can be resolved within the session's budget,
      which covers `resolutions` of them, and the 16 probes per byte exceed what recognising the text costs. Each
      occurrence is admitted once, and so is the link whose resolution ran out. */
  method DeriveBounded(content: string, sourcePath: string, view: RelationshipView, resolve: Resolver, resolutions: nat)
    returns (r: Outcome<Derivation>)
    requires view.Valid()
    modifies view`parseLeft, view.owner
    ensures view.Valid()
    ensures r.Ok? || r == Rejected
    ensures r == Rejected <==> && old(view.Admissible()) > 0
                               && !(&& (view.sid, sourcePath) !in old(view.owner.relationshipSources)
                                    && Utf8Size(content, 0, |content|) + old(view.owner.sourceBytes[view.sid])
                                       <= old(view.owner.used[Bytes][view.sid]))
    ensures r.Ok? ==> Honest(r.value, Recognition(content), sourcePath, resolve)
    ensures r.Ok? ==> forall k :: 0 <= k < |r.value.occurrences| ==>
              var o, link := r.value.occurrences[k], Recognition(content)[k];
              && o.sourcePath == sourcePath && o.sourceOrder == k
              && o.writtenTarget == link.spec.target && o.fragment == link.spec.fragment && o.caption == link.spec.caption
              && o.origin == link.origin && (o.resolvedPath, o.resolution) == resolve(sourcePath, o.origin, o.writtenTarget)
    ensures r.Ok? ==> |r.value.occurrences| <= resolutions
    ensures r.Ok? ==> var admitted := old(view.Admissible()) - view.Admissible();
                      || admitted == |r.value.occurrences|
                      || (admitted == |r.value.occurrences| + 1 && |r.value.occurrences| == resolutions && !r.value.complete)
    ensures r.Ok? ==> (r.value.complete <==> Covered(content, 16 * Utf8Size(content, 0, |content|), old(view.Admissible()), resolutions))
  {
    hide RelationshipView.Valid, Recognition, RecognitionCost, Utf8Size;
    if view.Admissible() == 0 {
      return Ok(Derivation([], false));
    }
    var accepted := view.Source(sourcePath, Utf8Size(content, 0, |content|));
    if !accepted.Ok? {
      return Rejected;
    }
    r := DeriveSource(content, sourcePath, view, resolve, resolutions);
  }

  /** What a complete derivation takes. */
  ghost predicate Covered(content: string, credit: nat, admissible: nat, resolutions: nat) {
    && admissible > |Recognition(content)| && resolutions >= |Recognition(content)|
    && (content == "" || credit > RecognitionCost(content))
  }

  /** The derivation loop over an accepted source. */
  method DeriveSource(content: string, sourcePath: string, view: RelationshipView, resolve: Resolver, resolutions: nat)
    returns (r: Outcome<Derivation>)
    requires view.Valid() && view.Admissible() > 0
    modifies view`parseLeft, view.owner
    ensures view.Valid() && r.Ok?
    ensures Honest(r.value, Recognition(content), sourcePath, resolve) && |r.value.occurrences| <= resolutions
    ensures forall k :: 0 <= k < |r.value.occurrences| ==>
              var o, link := r.value.occurrences[k], Recognition(content)[k];
              && o.sourcePath == sourcePath && o.sourceOrder == k
              && o.writtenTarget == link.spec.target && o.fragment == link.spec.fragment && o.caption == link.spec.caption
              && o.origin == link.origin && (o.resolvedPath, o.resolution) == resolve(sourcePath, o.origin, o.writtenTarget)
    ensures var admitted := old(view.Admissible()) - view.Admissible();
            || admitted == |r.value.occurrences|
            || (admitted == |r.value.occurrences| + 1 && |r.value.occurrences| == resolutions && !r.value.complete)
    ensures r.value.complete <==> Covered(content, old(view.parseLeft), old(view.Admissible()), resolutions)
  {
    hide RelationshipView.Valid, Pending, Sound, Work, Recognition, RecognitionCost, Occurrences, OccurrenceOf, Honest;
    var occurrences: seq<Occurrence> := [];
    ghost var items: seq<Item> := [];
    var generator := new Recognizer(content, view);
    NothingToPay(content);
    while true
      invariant generator.Valid() && generator.text == content && generator.view == view && fresh(generator)
      invariant view.Valid() && 0 < view.Admissible() == old(view.Admissible()) - |items|
      invariant Recognition(content) == items + Pending(content, generator.State())
      invariant generator.Margin() == old(view.parseLeft) - RecognitionCost(content)
      invariant occurrences == Occurrences(sourcePath, resolve, items) && |items| <= resolutions
      decreases |Pending(content, generator.State())|
    {
      ghost var before := Pending(content, generator.State());
      PrefixIsHonest(items, before, sourcePath, resolve);
      SoundIndex(content, generator.State());
      var next := generator.Next();
      if next.Ok? && next.value.None? {
        return Ok(Derivation(occurrences, content == "" || view.parseLeft > 0));
      }
      if !next.Ok? {
        return Ok(Derivation(occurrences, false));
      }
      var admitted := view.TryAdmit();
      if !admitted.Ok? {
        return Ok(Derivation(occurrences, false));
      }
      if |occurrences| == resolutions {
        return Ok(Derivation(occurrences, false));
      }
      var item := next.value.value;
      OccurrencesAppend(sourcePath, resolve, items, item);
      PrefixGrows(items, item, Pending(content, generator.State()));
      occurrences := occurrences + [OccurrenceOf(sourcePath, resolve, item, |occurrences|)];
      items := items + [item];
      PrefixIsHonest(items, Pending(content, generator.State()), sourcePath, resolve);
      if view.Admissible() == 0 {
        return Ok(Derivation(occurrences, false));
      }
    }
  }

  /** Where every code span attempt closes, the credit of 16 probes per byte always covers the text: only occurrences
      and resolutions can limit the derivation. */
  lemma ClosedSpansAreCovered(content: string, admissible: nat, resolutions: nat)
    requires Rescans(content) == 0
    ensures Covered(content, 16 * Utf8Size(content, 0, |content|), admissible, resolutions)
        <==> admissible > |Recognition(content)| && resolutions >= |Recognition(content)|
  {
    if content != "" {
      ClosedSpansSuffice(content);
    }
  }

  /** In general it does not: a text without a link is called limited, however many occurrences may be admitted. */
  lemma SomeTextIsNeverComplete(tail: nat, admissible: nat, resolutions: nat)
    requires tail > 440
    ensures var t := ScanWitness.Ladder(9, tail);
            Recognition(t) == [] && !Covered(t, 16 * Utf8Size(t, 0, |t|), admissible, resolutions)
  {
    ScanWitness.SixteenPerByteRunOut(tail);
  }

  lemma NothingToPay(content: string)
    ensures content == "" ==> RecognitionCost(content) == 0 && Recognition(content) == []
  {
  }

  lemma PrefixIsHonest(items: seq<Item>, rest: seq<Item>, path: string, resolve: Resolver)
    ensures Honest(Derivation(Occurrences(path, resolve, items), false), items + rest, path, resolve)
    ensures rest == [] ==> Honest(Derivation(Occurrences(path, resolve, items), true), items + rest, path, resolve)
    ensures forall k :: 0 <= k < |items| ==>
              var o, link := Occurrences(path, resolve, items)[k], (items + rest)[k];
              && o.sourcePath == path && o.sourceOrder == k
              && o.writtenTarget == link.spec.target && o.fragment == link.spec.fragment && o.caption == link.spec.caption
              && o.origin == link.origin && (o.resolvedPath, o.resolution) == resolve(path, o.origin, o.writtenTarget)
  {
    assert (items + rest)[..|items|] == items;
  }

  /** In terms of both eager parses: sorted by position and numbered they are the complete bounded derivation. */
  lemma CompleteIsEager(content: string, r: Derivation, sorted: seq<Item>, path: string, resolve: Resolver)
    requires Honest(r, Recognition(content), path, resolve) && r.complete
    requires multiset(sorted) == multiset(EagerParse(ObsidianWikilink, content)) + multiset(EagerParse(MarkdownLink, content))
    requires NonDecreasing(sorted)
    ensures r.occurrences == Occurrences(path, resolve, sorted)
  {
    OnePassIsSortedEager(content, sorted);
    assert sorted[..|sorted|] == sorted;
  }

  // ----- the eager derivation

  /** A parsed link, in the fields of its own dialect. */
  datatype Link =
    | Wikilink(target: string, heading: Option<string>, alias: Option<string>)
    | InlineLink(destination: string, fragment: Option<string>, text: Option<string>)

  /** One entry of the list both dialects are gathered in. */
  datatype Positioned = Positioned(
    position: nat, origin: Origin, link: Link, resolvedPath: Option<string>, resolution: Resolution)

  /** The parsed link an entry was made of. */
  ghost function Parsed(p: Positioned): Item {
    Item(p.position, p.origin, match p.link
      case Wikilink(target, heading, alias) => Spec(target, heading, alias)
      case InlineLink(destination, fragment, text) => Spec(destination, fragment, text))
  }

  ghost function AllParsed(ps: seq<Positioned>): (r: seq<Item>)
    ensures |r| == |ps|
  {
    seq(|ps|, k requires 0 <= k < |ps| => Parsed(ps[k]))
  }

  lemma ParsedConcat(a: seq<Positioned>, b: seq<Positioned>)
    ensures AllParsed(a + b) == AllParsed(a) + AllParsed(b)
  {
  }

  lemma CutOut(b: seq<Positioned>, j: nat)
    requires j < |b|
    ensures var rest := b[..j] + b[j + 1..];
            && multiset(b) == multiset(rest) + multiset{b[j]}
            && multiset(AllParsed(b)) == multiset(AllParsed(rest)) + multiset{Parsed(b[j])}
  {
    hide Parsed;
    var front, back := b[..j], b[j + 1..];
    assert b == front + ([b[j]] + back);
    ParsedConcat(front, [b[j]] + back);
    ParsedConcat([b[j]], back);
    ParsedConcat(front, back);
    assert AllParsed([b[j]]) == [Parsed(b[j])];
  }

  lemma {:induction false} PermutedParsed(a: seq<Positioned>, b: seq<Positioned>)
    requires multiset(a) == multiset(b)
    ensures multiset(AllParsed(a)) == multiset(AllParsed(b))
  {
    hide Parsed, AllParsed;
    if a == [] {
      assert |multiset(a)| == |multiset(b)|;
    } else {
      assert a[0] in multiset(b);
      var j :| 0 <= j < |b| && b[j] == a[0];
      var others, rest := a[..0] + a[1..], b[..j] + b[j + 1..];
      CutOut(a, 0);
      CutOut(b, j);
      assert multiset(others) == multiset(a) - multiset{a[0]} == multiset(rest);
      PermutedParsed(others, rest);
    }
  }

  predicate InOrder(ps: seq<Positioned>) {
    forall j, k :: 0 <= j < k < |ps| ==> ps[j].position <= ps[k].position
  }

  function With(sorted: seq<Positioned>, at: nat, entry: Positioned): (r: seq<Positioned>)
    requires at <= |sorted|
    ensures |r| == |sorted| + 1
    ensures forall k :: 0 <= k < |r| ==> r[k] == if k < at then sorted[k] else if k == at then entry else sorted[k - 1]
  {
    sorted[..at] + [entry] + sorted[at..]
  }

  lemma WithOneMore(sorted: seq<Positioned>, at: nat, entry: Positioned)
    requires at <= |sorted|
    ensures multiset(With(sorted, at, entry)) == multiset(sorted) + multiset{entry}
  {
    assert sorted == sorted[..at] + sorted[at..];
  }

  /** An entry put behind those that do not exceed it, and before the others. */
  lemma Inserted(sorted: seq<Positioned>, at: nat, entry: Positioned)
    requires at <= |sorted| && InOrder(sorted) && (at > 0 ==> sorted[at - 1].position <= entry.position)
    requires forall k :: at <= k < |sorted| ==> sorted[k].position > entry.position
    ensures InOrder(With(sorted, at, entry))
  {
    var r := With(sorted, at, entry);
    forall j, k | 0 <= j < k < |r| ensures r[j].position <= r[k].position {
      assert r[j] == if j < at then sorted[j] else if j == at then entry else sorted[j - 1];
      assert r[k] == if k < at then sorted[k] else if k == at then entry else sorted[k - 1];
    }
  }

  lemma OneMore(ps: seq<Positioned>, n: nat)
    requires n < |ps|
    ensures multiset(ps[..n + 1]) == multiset(ps[..n]) + multiset{ps[n]}
  {
    assert ps[..n + 1] == ps[..n] + [ps[n]];
  }

  lemma NothingInOrder()
    ensures InOrder([])
  {
  }

  /** `positioned.sort(key=position)`: each entry goes behind those that do not exceed it. */
  method SortByPosition(positioned: seq<Positioned>) returns (sorted: seq<Positioned>)
    ensures multiset(sorted) == multiset(positioned) && InOrder(sorted)
  {
    hide InOrder, With;
    sorted := [];
    NothingInOrder();
    for n := 0 to |positioned|
      invariant multiset(sorted) == multiset(positioned[..n]) && InOrder(sorted)
    {
      var entry, at := positioned[n], |sorted|;
      while at > 0 && sorted[at - 1].position > entry.position
        invariant 0 <= at <= |sorted|
        invariant forall k :: at <= k < |sorted| ==> sorted[k].position > entry.position
      {
        at := at - 1;
      }
      OneMore(positioned, n);
      Inserted(sorted, at, entry);
      WithOneMore(sorted, at, entry);
      sorted := With(sorted, at, entry);
    }
    assert positioned[..|positioned|] == positioned;
  }

  /** Each entry carries the resolver's answer for what it was written as. */
  ghost predicate Answered(ps: seq<Positioned>, path: string, resolve: Resolver) {
    forall p :: p in ps ==> (p.resolvedPath, p.resolution) == resolve(path, p.origin, Parsed(p).spec.target)
                            && p.link.Wikilink? == (p.origin == ObsidianWikilink)
  }

  lemma AnsweredTogether(a: seq<Positioned>, b: seq<Positioned>, all: seq<Positioned>, path: string, resolve: Resolver)
    requires Answered(a, path, resolve) && Answered(b, path, resolve) && multiset(all) == multiset(a + b)
    ensures Answered(all, path, resolve)
  {
    hide Parsed;
    forall p | p in all ensures p in a || p in b {
      assert p in multiset(a + b);
    }
  }

  lemma {:induction false} OnlyHas(origin: Origin, items: seq<Item>)
    ensures forall item :: item in Only(origin, items) ==> item.origin == origin
  {
    if items != [] {
      OnlyHas(origin, items[1..]);
    }
  }

  /** The links of one dialect, resolved one by one and appended to the list. */
  method Gather(origin: Origin, markdown: string, sourcePath: string, resolve: Resolver) returns (positioned: seq<Positioned>)
    ensures AllParsed(positioned) == EagerParse(origin, markdown) && Answered(positioned, sourcePath, resolve)
  {
    hide EagerParse, Recognition, Only;
    positioned := [];
    var links := EagerLinks.Parse(origin, markdown);
    OnePassIsEager(markdown, origin);
    OnlyHas(origin, Recognition(markdown));
    for k := 0 to |links|
      invariant AllParsed(positioned) == links[..k] && Answered(positioned, sourcePath, resolve)
    {
      var spec := links[k].spec;
      var (target, resolution) := resolve(sourcePath, origin, spec.target);
      var link := if origin == ObsidianWikilink then Wikilink(spec.target, spec.fragment, spec.caption)
                  else InlineLink(spec.target, spec.fragment, spec.caption);
      var entry := Positioned(links[k].position, origin, link, target, resolution);
      ParsedConcat(positioned, [entry]);
      assert links[k] in links && Parsed(entry) == links[k] && links[..k + 1] == links[..k] + [links[k]];
      positioned := positioned + [entry];
    }
  }

  /** The legacy derivation: both dialects are parsed, resolved, sorted by position and numbered. What it returns is
      what any complete bounded derivation of the same text returns. */
  method DeriveEager(content: string, sourcePath: string, resolve: Resolver) returns (r: seq<Occurrence>)
    ensures |r| == |Recognition(content)|
    ensures forall k :: 0 <= k < |r| ==>
              var o, link := r[k], Recognition(content)[k];
              && o.sourcePath == sourcePath && o.sourceOrder == k
              && o.writtenTarget == link.spec.target && o.fragment == link.spec.fragment && o.caption == link.spec.caption
              && o.origin == link.origin && (o.resolvedPath, o.resolution) == resolve(sourcePath, o.origin, o.writtenTarget)
    ensures forall bounded: Derivation ::
              bounded.complete && Honest(bounded, Recognition(content), sourcePath, resolve) ==> bounded.occurrences == r
  {
    hide EagerParse, Recognition;
    var wikilinks := Gather(ObsidianWikilink, content, sourcePath, resolve);
    var markdownLinks := Gather(MarkdownLink, content, sourcePath, resolve);
    var positioned := SortByPosition(wikilinks + markdownLinks);
    PermutedParsed(positioned, wikilinks + markdownLinks);
    ParsedConcat(wikilinks, markdownLinks);
    AnsweredTogether(wikilinks, markdownLinks, positioned, sourcePath, resolve);
    OnePassIsSortedEager(content, AllParsed(positioned));
    r := [];
    for sourceOrder := 0 to |positioned|
      invariant |r| == sourceOrder
      invariant r == Occurrences(sourcePath, resolve, AllParsed(positioned)[..sourceOrder])
    {
      var p := positioned[sourceOrder];
      assert p in positioned;
      ghost var done := AllParsed(positioned)[..sourceOrder];
      OccurrencesAppend(sourcePath, resolve, done, Parsed(p));
      assert AllParsed(positioned)[..sourceOrder + 1] == done + [Parsed(p)];
      var writtenTarget, fragment, caption;
      if p.link.Wikilink? {
        writtenTarget, fragment, caption := p.link.target, p.link.heading, p.link.alias;
      } else {
        writtenTarget, fragment, caption := p.link.destination, p.link.fragment, p.link.text;
      }
      r := r + [Occurrence(sourcePath, writtenTarget, p.resolvedPath, p.resolution, p.origin, fragment, caption, sourceOrder)];
    }
  }
}

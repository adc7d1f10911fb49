/** Eligibility of notes for a query: a declarative filter, the evaluator that reads each note once under
    a budget, and the unbudgeted query. */
module KnowledgeQuery {
  import opened LinkGrammar
  import PurePath
  import opened PythonText

  type Path = string

  // ----- requests and notes

  datatype Scalar = NullValue | StringValue(s: string) | BoolValue(b: bool) | IntValue(i: int) | FloatValue(r: real)

  datatype Value = ScalarValue(scalar: Scalar) | SequenceValue(members: seq<Scalar>) | OtherValue

  datatype Operator = Exists | Equals | NotEquals | SequenceContains

  datatype MetadataPredicate = MetadataPredicate(key: string, operator: Operator, value: Scalar)

  datatype RelationshipPredicate = RelationshipPredicate(outgoing: bool, other: string, origin: Option<Origin>)

  datatype Request = Request(
    literal: Option<string>, folder: Option<string>, paths: Option<seq<string>>, tags: seq<string>,
    metadata: seq<MetadataPredicate>, relationships: seq<RelationshipPredicate>)

  /** A note as read, with what its frontmatter parses to: the stripped tags if they are valid, the
      metadata if the whole is. */
  datatype Note = Note(content: string, tags: Option<set<string>>, metadata: Option<map<string, Value>>)

  type Edge = (Path, Origin)

  datatype Lookup = Resolved(path: Path) | Missing | UnsafeScope | NotAvailable

  /** The complete snapshot a query runs on: the live paths in order, how spellings resolve, and for each
      path its note and the note links it derives; a path absent from either map cannot be read or derived. */
  datatype Universe = Universe(
    facts: seq<Path>, resolutionComplete: bool, lookups: map<string, Lookup>,
    notes: map<Path, Note>, links: map<Path, set<Edge>>)
  {
    function Exact(spelling: string): Lookup { if spelling in lookups then lookups[spelling] else Missing }

    ghost predicate Valid() {
      && (forall i, j :: 0 <= i < j < |facts| ==> facts[i] != facts[j])
      && (forall s <- lookups :: lookups[s].Resolved? ==> lookups[s].path in facts)
    }
  }

  // ----- the filters

  /** `_same_scalar_type` and equality: a Boolean is never an integer, nor an integer a float. */
  predicate SameType(a: Scalar, b: Scalar) {
    match a
    case NullValue => b.NullValue?
    case StringValue(_) => b.StringValue?
    case BoolValue(_) => b.BoolValue?
    case IntValue(_) => b.IntValue?
    case FloatValue(_) => b.FloatValue?
  }

  predicate MatchesMetadata(m: map<string, Value>, p: MetadataPredicate) {
    p.key in m &&
    match p.operator
    case Exists => true
    case Equals => m[p.key] == ScalarValue(p.value)
    case NotEquals => m[p.key].ScalarValue? && SameType(m[p.key].scalar, p.value) && m[p.key].scalar != p.value
    case SequenceContains => m[p.key].SequenceValue? && p.value in m[p.key].members
  }

  predicate Contains(text: string, literal: string) {
    literal == "" || Find(text, 0, |text|, literal).Some?
  }

  predicate Accepts(q: Request, n: Note) {
    && (q.literal.Some? ==> Contains(n.content, q.literal.value))
    && (q.tags != [] ==> n.tags.Some? && forall t <- q.tags :: t in n.tags.value)
    && (q.metadata != [] ==> n.metadata.Some? && forall p <- q.metadata :: MatchesMetadata(n.metadata.value, p))
  }

  /** `PurePosixPath(folder) in PurePosixPath(path).parents`, the folder written with either slash. */
  predicate Below(path: Path, folder: string) {
    var p, f := PurePath.Split(path), PurePath.Split(PurePath.Slashed(folder));
    |f| < |p| && p[..|f|] == f && (f == [] ==> !PurePath.Rooted(path))
  }

  predicate InScope(q: Request, selected: Option<set<Path>>, path: Path) {
    (selected.Some? ==> path in selected.value) && (q.folder.Some? ==> Below(path, q.folder.value))
  }

  predicate WantsOutgoing(q: Request) { exists p <- q.relationships :: p.outgoing }

  /** The paths whose links some predicate looks at. */
  predicate NeedsLinks(q: Request, targets: seq<Path>, path: Path)
    requires |targets| == |q.relationships|
  {
    q.relationships != [] && (WantsOutgoing(q) || path in IncomingTargets(q, targets))
  }

  function IncomingTargets(q: Request, targets: seq<Path>): set<Path>
    requires |targets| == |q.relationships|
  {
    set i | 0 <= i < |targets| && !q.relationships[i].outgoing :: targets[i]
  }

  predicate Readable(u: Universe, q: Request, targets: seq<Path>, path: Path)
    requires |targets| == |q.relationships|
  {
    path in u.notes && (NeedsLinks(q, targets, path) ==> path in u.links)
  }

  predicate Eligible(u: Universe, q: Request, targets: seq<Path>, path: Path)
    requires |targets| == |q.relationships|
  {
    Readable(u, q, targets, path) && Accepts(q, u.notes[path])
  }

  function LinksOf(u: Universe, q: Request, targets: seq<Path>, path: Path): set<Edge>
    requires |targets| == |q.relationships|
  {
    if path in u.notes && path in u.links then u.links[path] else {}
  }

  /** Some link of an allowed origin joins the two. */
  predicate Joined(links: set<Edge>, destination: Path, origin: Option<Origin>) {
    match origin
    case Some(o) => (destination, o) in links
    case None => (destination, ObsidianWikilink) in links || (destination, MarkdownLink) in links
  }

  predicate Holds(u: Universe, q: Request, targets: seq<Path>, i: nat, path: Path)
    requires |targets| == |q.relationships| && i < |targets|
  {
    var p := q.relationships[i];
    if p.outgoing then Joined(LinksOf(u, q, targets, path), targets[i], p.origin)
    else Joined(LinksOf(u, q, targets, targets[i]), path, p.origin)
  }

  ghost predicate Selected(u: Universe, q: Request, selected: Option<set<Path>>, targets: seq<Path>, path: Path)
    requires |targets| == |q.relationships|
  {
    && InScope(q, selected, path) && Eligible(u, q, targets, path)
    && forall i: nat :: i < |targets| ==> Holds(u, q, targets, i, path)
  }

  /** The declarative answer, in snapshot order. */
  ghost function Filter(u: Universe, q: Request, selected: Option<set<Path>>, targets: seq<Path>, facts: seq<Path>): seq<Path>
    requires |targets| == |q.relationships|
    decreases |facts|
  {
    if facts == [] then []
    else
      var last := facts[|facts| - 1];
      Filter(u, q, selected, targets, facts[..|facts| - 1]) + if Selected(u, q, selected, targets, last) then [last] else []
  }

  // ----- the session: lookups, reads and derivations, each of which may run into the budget

  datatype LookupOutcome = LookedUp(lookup: Lookup) | LookupExhausted

  datatype ReadOutcome = Read(note: Note) | ReadFailed | ReadExhausted

  datatype DeriveOutcome = Derived(links: set<Edge>) | DeriveFailed | DeriveLimited | DeriveExhausted

  class Session {
    const u: Universe
    /** Whether the budget has run out anywhere so far. */
    ghost var ranOut: bool
    /** Whether it ran out in a lookup. */
    ghost var lookupRanOut: bool
    ghost var consulted: seq<string>
    ghost var read: seq<Path>
    ghost var derived: seq<Path>

    constructor (u: Universe)
      ensures this.u == u && Fresh()
    {
      this.u := u;
      ranOut, lookupRanOut, consulted, read, derived := false, false, [], [], [];
    }

    ghost predicate Fresh()
      reads this
    {
      !ranOut && !lookupRanOut && consulted == [] && read == [] && derived == []
    }

    /** `universe.exact`: resolving the spelling and verifying what it names are charged. */
    method LookUp(spelling: string) returns (r: LookupOutcome)
      modifies this`ranOut, this`lookupRanOut, this`consulted
      ensures consulted == old(consulted) + [spelling]
      ensures r.LookedUp? ==> r.lookup == u.Exact(spelling)
      ensures ranOut == (old(ranOut) || r.LookupExhausted?)
      ensures lookupRanOut == (old(lookupRanOut) || r.LookupExhausted?)
    {
      consulted := consulted + [spelling];
      var exhausted: bool := *;
      r := if exhausted then LookupExhausted else LookedUp(u.Exact(spelling));
      ranOut, lookupRanOut := ranOut || exhausted, lookupRanOut || exhausted;
    }

    method ReadNote(path: Path) returns (r: ReadOutcome)
      modifies this`ranOut, this`read
      ensures read == old(read) + [path]
      ensures r.Read? ==> path in u.notes && r.note == u.notes[path]
      ensures r.ReadFailed? ==> path !in u.notes
      ensures ranOut == (old(ranOut) || r.ReadExhausted?)
    {
      read := read + [path];
      var exhausted: bool := *;
      r := if exhausted then ReadExhausted else if path in u.notes then Read(u.notes[path]) else ReadFailed;
      ranOut := ranOut || exhausted;
    }

    /** `derive_normalized_bounded`; limited and exhausted are its two ways of running out. */
    method Derive(path: Path) returns (r: DeriveOutcome)
      modifies this`ranOut, this`derived
      ensures derived == old(derived) + [path]
      ensures r.Derived? ==> path in u.links && r.links == u.links[path]
      ensures r.DeriveFailed? ==> path !in u.links
      ensures ranOut == (old(ranOut) || r.DeriveLimited? || r.DeriveExhausted?)
    {
      derived := derived + [path];
      var exhausted: bool, limited: bool := *, *;
      r := if exhausted then DeriveExhausted else if limited then DeriveLimited
           else if path in u.links then Derived(u.links[path]) else DeriveFailed;
      ranOut := ranOut || exhausted || limited;
    }

    method ChargeComparison() returns (exhausted: bool)
      modifies this`ranOut
      ensures ranOut == (old(ranOut) || exhausted)
    {
      exhausted := *;
      ranOut := ranOut || exhausted;
    }
  }

  // ----- the evaluator

  datatype Inspection = Inspected | Limited | Exhausted

  ghost predicate Distinct(paths: seq<Path>) { forall i, j :: 0 <= i < j < |paths| ==> paths[i] != paths[j] }

  lemma DistinctOne(log: seq<Path>, path: Path)
    requires Distinct(log) && path !in log
    ensures Distinct(log + [path])
    ensures forall p :: p in log + [path] <==> p in log || p == path
  {
  }

  function Readers(inspected: set<Path>, notes: set<Path>): set<Path> { set p | p in inspected && p in notes }

  lemma CountOne(inspected: set<Path>, notes: set<Path>, path: Path)
    requires path !in inspected
    ensures |Readers(inspected + {path}, notes)| == |Readers(inspected, notes)| + if path in notes then 1 else 0
  {
    assert Readers(inspected + {path}, notes) == Readers(inspected, notes) + if path in notes then {path} else {};
  }

  /** One evaluation: what is already known about each inspected path. */
  class Evaluation {
    const u: Universe
    const q: Request
    const selected: Option<set<Path>>
    const targets: seq<Path>
    const session: Session
    var eligible: map<Path, bool>
    var edges: map<Path, set<Edge>>
    var evaluated: nat

    ghost predicate Configured() {
      u.Valid() && session.u == u && |targets| == |q.relationships| && forall t <- targets :: t in u.facts
    }

    /** No path was read or derived twice. */
    ghost predicate Once()
      reads session`read, session`derived
    {
      Distinct(session.read) && Distinct(session.derived)
    }

    /** What is remembered is true, and it is remembered for exactly the paths read. */
    ghost predicate Memo()
      requires Configured()
      reads this`eligible, this`edges, this`evaluated, session`read, session`derived
    {
      && Once()
      && (forall p :: p in session.read <==> p in eligible)
      && (forall p <- session.derived :: p in eligible)
      && (forall p <- eligible :: eligible[p] == Eligible(u, q, targets, p) && (NeedsLinks(q, targets, p) ==> p in edges))
      && (forall p <- edges :: p in eligible && edges[p] == LinksOf(u, q, targets, p))
      && evaluated == |Readers(eligible.Keys, u.notes.Keys)|
    }

    constructor (q: Request, selected: Option<set<Path>>, targets: seq<Path>, session: Session)
      requires session.u.Valid() && |targets| == |q.relationships| && (forall t <- targets :: t in session.u.facts)
      requires session.read == [] && session.derived == []
      ensures this.u == session.u && this.q == q && this.selected == selected && this.targets == targets
      ensures this.session == session && Configured() && Memo()
    {
      this.u, this.q, this.selected, this.targets, this.session := session.u, q, selected, targets, session;
      eligible, edges, evaluated := map[], map[], 0;
      new;
      assert Readers(eligible.Keys, u.notes.Keys) == {};
    }

    lemma Fate(path: Path)
      requires Configured()
      ensures path !in u.notes ==> !Eligible(u, q, targets, path) && LinksOf(u, q, targets, path) == {}
      ensures path in u.notes && !NeedsLinks(q, targets, path) ==> (Eligible(u, q, targets, path) <==> Accepts(q, u.notes[path]))
      ensures path in u.notes && path in u.links ==>
                (Eligible(u, q, targets, path) <==> Accepts(q, u.notes[path])) && LinksOf(u, q, targets, path) == u.links[path]
      ensures path in u.notes && NeedsLinks(q, targets, path) && path !in u.links ==>
                !Eligible(u, q, targets, path) && LinksOf(u, q, targets, path) == {}
    {
    }

    /** One more path is settled, with its links where they are needed. */
    method Remember(path: Path, wanted: bool, links: Option<set<Edge>>, ghost read: seq<Path>, ghost derived: seq<Path>)
      requires Configured() && path !in eligible
      requires Distinct(read) && Distinct(derived) && path !in read && path !in derived
      requires forall p :: p in read <==> p in eligible
      requires forall p <- derived :: p in eligible
      requires forall p <- eligible :: eligible[p] == Eligible(u, q, targets, p) && (NeedsLinks(q, targets, p) ==> p in edges)
      requires forall p <- edges :: p in eligible && edges[p] == LinksOf(u, q, targets, p)
      requires evaluated == |Readers(eligible.Keys, u.notes.Keys)| + if path in u.notes then 1 else 0
      requires session.read == read + [path] && (session.derived == derived || session.derived == derived + [path])
      requires wanted == Eligible(u, q, targets, path)
      requires if links.Some? then links.value == LinksOf(u, q, targets, path) else !NeedsLinks(q, targets, path)
      modifies this`eligible, this`edges
      ensures Memo() && path in eligible && old(eligible).Keys <= eligible.Keys
    {
      hide Eligible, LinksOf, NeedsLinks;
      DistinctOne(read, path);
      DistinctOne(derived, path);
      CountOne(eligible.Keys, u.notes.Keys, path);
      hide Distinct, Readers;
      eligible := eligible[path := wanted];
      if links.Some? {
        edges := edges[path := links.value];
      }
      assert eligible.Keys == old(eligible).Keys + {path};
    }

    method Inspect(path: Path) returns (r: Inspection)
      requires Configured() && Memo()
      modifies this`eligible, this`edges, this`evaluated, session`ranOut, session`read, session`derived
      ensures Once()
      ensures r.Inspected? ==> Memo() && path in eligible && old(eligible).Keys <= eligible.Keys
      ensures session.ranOut == (old(session.ranOut) || !r.Inspected?)
      ensures r.Limited? ==> q.relationships != []
    {
      if path in eligible {
        return Inspected;
      }
      ghost var read, derived := session.read, session.derived;
      Fate(path);
      hide Eligible, LinksOf, Accepts, IncomingTargets, WantsOutgoing;
      var outcome := session.ReadNote(path);
      if outcome.ReadExhausted? {
        return Exhausted;
      }
      if outcome.ReadFailed? {
        Remember(path, false, Some({}), read, derived);
        return Inspected;
      }
      evaluated := evaluated + 1;
      var wanted := Accepts(q, outcome.note);
      if q.relationships != [] && (WantsOutgoing(q) || path in IncomingTargets(q, targets)) {
        var derivation := session.Derive(path);
        match derivation {
          case DeriveExhausted => return Exhausted;
          case DeriveLimited => return Limited;
          case DeriveFailed => Remember(path, false, Some({}), read, derived);
          case Derived(links) => Remember(path, wanted, Some(links), read, derived);
        }
      } else {
        Remember(path, wanted, None, read, derived);
      }
      return Inspected;
    }

    /** The incoming predicates' targets are inspected first. */
    method InspectIncoming() returns (r: Inspection)
      requires Configured() && Memo()
      modifies this`eligible, this`edges, this`evaluated, session`ranOut, session`read, session`derived
      ensures Once() && session.ranOut == (old(session.ranOut) || !r.Inspected?)
      ensures r.Inspected? ==> Memo() && IncomingTargets(q, targets) <= eligible.Keys
      ensures !r.Inspected? ==> q.relationships != []
    {
      hide Memo, Once;
      for i := 0 to |targets|
        invariant Memo() && session.ranOut == old(session.ranOut)
        invariant forall j :: 0 <= j < i && !q.relationships[j].outgoing ==> targets[j] in eligible
      {
        if !q.relationships[i].outgoing {
          r := Inspect(targets[i]);
          if !r.Inspected? {
            return;
          }
        }
      }
      MemoIsOnce();
      r := Inspected;
    }

    lemma MemoIsOnce()
      requires Configured() && Memo()
      ensures Once()
    {
    }

    /** Whether every predicate holds of an eligible candidate. */
    method MatchesRelationships(path: Path) returns (matched: bool, exhausted: bool)
      requires Configured() && Memo() && path in eligible && eligible[path] && IncomingTargets(q, targets) <= eligible.Keys
      modifies session`ranOut
      ensures Memo() && session.ranOut == (old(session.ranOut) || exhausted)
      ensures !exhausted ==> (matched <==> forall i: nat :: i < |targets| ==> Holds(u, q, targets, i, path))
    {
      assert q.relationships != [] && WantsOutgoing(q) ==> path in edges; // a missing derivation cannot occur
      hide Once;
      for i := 0 to |targets|
        invariant Memo() && session.ranOut == old(session.ranOut)
        invariant forall j: nat :: j < i ==> Holds(u, q, targets, j, path)
      {
        exhausted := session.ChargeComparison();
        if exhausted {
          return false, true;
        }
        var p, target := q.relationships[i], targets[i];
        var source, destination := if p.outgoing then path else target, if p.outgoing then target else path;
        assert NeedsLinks(q, targets, source) && source in edges by {
          LooksAt(i, path);
        }
        var links := if source in edges then edges[source] else {};
        if !Joined(links, destination, p.origin) {
          assert !Holds(u, q, targets, i, path);
          return false, false;
        }
      }
      return true, false;
    }

    /** A predicate looks only at links that were derived. */
    lemma LooksAt(i: nat, path: Path)
      requires Configured() && Memo() && i < |targets| && path in eligible && IncomingTargets(q, targets) <= eligible.Keys
      ensures var source := if q.relationships[i].outgoing then path else targets[i];
              NeedsLinks(q, targets, source) && source in edges
    {
      assert q.relationships[i] in q.relationships;
      if !q.relationships[i].outgoing {
        assert targets[i] in IncomingTargets(q, targets);
      }
    }

    /** One candidate in scope. */
    method Consider(path: Path) returns (r: Inspection, matched: bool)
      requires Configured() && Memo() && IncomingTargets(q, targets) <= eligible.Keys
      modifies this`eligible, this`edges, this`evaluated, session`ranOut, session`read, session`derived
      ensures Once() && session.ranOut == (old(session.ranOut) || !r.Inspected?)
      ensures r.Inspected? ==> Memo() && old(eligible).Keys <= eligible.Keys
      ensures r.Inspected? ==>
                (matched <==> Eligible(u, q, targets, path) && forall i: nat :: i < |targets| ==> Holds(u, q, targets, i, path))
      ensures r.Limited? ==> q.relationships != []
    {
      hide Memo, Once, IncomingTargets, Eligible, Holds;
      matched := false;
      r := Inspect(path);
      if !r.Inspected? {
        return;
      }
      Told(path);
      if eligible[path] {
        var exhausted;
        matched, exhausted := MatchesRelationships(path);
        if exhausted {
          r := Exhausted;
        }
      }
      MemoIsOnce();
    }

    /** The scan over the snapshot. Running out keeps what was matched so far. */
    method Scan() returns (matches: seq<Path>, r: Inspection, ghost reached: nat)
      requires Configured() && Memo() && IncomingTargets(q, targets) <= eligible.Keys
      modifies this`eligible, this`edges, this`evaluated, session`ranOut, session`read, session`derived
      ensures Once() && session.ranOut == (old(session.ranOut) || !r.Inspected?)
      ensures reached <= |u.facts| && matches == Filter(u, q, selected, targets, u.facts[..reached])
      ensures r.Inspected? ==> Memo() && reached == |u.facts|
      ensures r.Limited? ==> q.relationships != []
    {
      matches, r, reached := [], Inspected, 0;
      hide Memo, Once, Filter, IncomingTargets, Eligible, Holds, InScope;
      MemoIsOnce();
      for i := 0 to |u.facts|
        invariant Memo() && Once() && session.ranOut == old(session.ranOut) && IncomingTargets(q, targets) <= eligible.Keys
        invariant reached == i && r.Inspected? && matches == Filter(u, q, selected, targets, u.facts[..i])
      {
        FilterOne(u, q, selected, targets, i);
        if InScope(q, selected, u.facts[i]) {
          var matched;
          r, matched := Consider(u.facts[i]);
          if !r.Inspected? {
            return;
          }
          MemoIsOnce();
          if matched {
            matches := matches + [u.facts[i]];
          }
        }
        reached := i + 1;
      }
      assert u.facts[..|u.facts|] == u.facts;
    }

    lemma CountsReads()
      requires Configured() && Memo()
      ensures evaluated == |Readers((set p | p in session.read), u.notes.Keys)|
    {
      assert (set p | p in session.read) == eligible.Keys;
    }

    lemma Told(path: Path)
      requires Configured() && Memo() && path in eligible
      ensures eligible[path] == Eligible(u, q, targets, path)
    {
    }
  }

  lemma FilterOne(u: Universe, q: Request, selected: Option<set<Path>>, targets: seq<Path>, i: nat)
    requires |targets| == |q.relationships| && i < |u.facts|
    ensures Filter(u, q, selected, targets, []) == []
    ensures Filter(u, q, selected, targets, u.facts[..i + 1])
         == Filter(u, q, selected, targets, u.facts[..i])
          + if Selected(u, q, selected, targets, u.facts[i]) then [u.facts[i]] else []
  {
    assert u.facts[..i + 1][..i] == u.facts[..i];
  }

  // ----- the whole evaluation

  datatype Answer = Answered(matches: seq<Path>, available: bool) | UnsafeRequest | RaisedUnavailable | RaisedExhausted

  datatype Targets = Found(targets: seq<Option<Path>>) | UnsafeTarget | UnavailableTarget

  function SelectedPaths(u: Universe, paths: seq<string>): set<Path> {
    set s | s in paths && u.Exact(s).Resolved? :: u.Exact(s).path
  }

  predicate NamesUnsafe(u: Universe, paths: seq<string>) { exists s <- paths :: u.Exact(s).UnsafeScope? }

  /** The predicates' other ends, in order; the first that cannot be resolved safely decides. */
  function TargetsOf(u: Universe, predicates: seq<RelationshipPredicate>): (r: Targets)
    ensures r.Found? ==> |r.targets| == |predicates|
    ensures u.Valid() && r.Found? ==> forall t <- r.targets :: t.Some? ==> t.value in u.facts
    decreases |predicates|
  {
    if predicates == [] then Found([])
    else
      var before := TargetsOf(u, predicates[..|predicates| - 1]);
      if !before.Found? then before
      else
        match u.Exact(predicates[|predicates| - 1].other)
        case Resolved(path) => Found(before.targets + [Some(path)])
        case Missing => Found(before.targets + [None])
        case UnsafeScope => UnsafeTarget
        case NotAvailable => UnavailableTarget
  }

  function Values(targets: seq<Option<Path>>): (r: seq<Path>)
    requires forall t <- targets :: t.Some?
    ensures |r| == |targets| && forall i :: 0 <= i < |r| ==> r[i] == targets[i].value
    decreases |targets|
  {
    if targets == [] then [] else [targets[0].value] + Values(targets[1..])
  }

  ghost function Selection(u: Universe, q: Request): Option<set<Path>> {
    if q.paths.Some? then Some(SelectedPaths(u, q.paths.value)) else None
  }

  /** What an evaluation that never runs out answers. */
  ghost function Expected(u: Universe, q: Request): Answer {
    if q.relationships != [] && !u.resolutionComplete then Answered([], false)
    else if q.paths.Some? && NamesUnsafe(u, q.paths.value) then UnsafeRequest
    else if Selection(u, q) == Some({}) then Answered([], true)
    else
      match TargetsOf(u, q.relationships)
      case UnsafeTarget => UnsafeRequest
      case UnavailableTarget => RaisedUnavailable
      case Found(targets) =>
        if None in targets then Answered([], true)
        else Answered(Filter(u, q, Selection(u, q), Values(targets), u.facts), true)
  }

  /** The spellings looked up, in order: up to the first that ends the request. */
  function Consulted(u: Universe, spellings: seq<string>, strict: bool): (r: seq<string>)
    ensures r <= spellings
    decreases |spellings|
  {
    if spellings == [] then []
    else
      [spellings[0]] +
      if u.Exact(spellings[0]).UnsafeScope? || (strict && u.Exact(spellings[0]).NotAvailable?) then []
      else Consulted(u, spellings[1..], strict)
  }

  function Others(predicates: seq<RelationshipPredicate>): seq<string> {
    seq(|predicates|, i requires 0 <= i < |predicates| => predicates[i].other)
  }

  function PathLookups(u: Universe, q: Request): seq<string> {
    if q.paths.Some? then Consulted(u, q.paths.value, false) else []
  }

  /** All lookups of an evaluation that does not run out in one: the requested paths, of which an unavailable one is
      skipped, then the predicates' other ends, where it raises. */
  ghost function Lookups(u: Universe, q: Request): seq<string> {
    if q.relationships != [] && !u.resolutionComplete then []
    else
      PathLookups(u, q) +
      if q.paths.Some? && (NamesUnsafe(u, q.paths.value) || SelectedPaths(u, q.paths.value) == {}) then []
      else Consulted(u, Others(q.relationships), true)
  }

  /** What was consulted of `all`: everything, or a beginning whose last lookup ran out. */
  ghost predicate Stopped(consulted: seq<string>, all: seq<string>, exhausted: bool) {
    consulted <= all && (if exhausted then consulted != [] else consulted == all)
  }

  lemma StopsAtPaths(u: Universe, q: Request, consulted: seq<string>, exhausted: bool)
    requires q.relationships != [] ==> u.resolutionComplete
    requires q.paths.Some? && Stopped(consulted, PathLookups(u, q), exhausted)
    requires exhausted || NamesUnsafe(u, q.paths.value) || SelectedPaths(u, q.paths.value) == {}
    ensures Stopped(consulted, Lookups(u, q), exhausted)
  {
    hide Consulted, NamesUnsafe, SelectedPaths, Others;
  }

  lemma StopsAtTargets(u: Universe, q: Request, before: seq<string>, consulted: seq<string>, exhausted: bool)
    requires q.relationships != [] ==> u.resolutionComplete
    requires q.paths.Some? ==> !NamesUnsafe(u, q.paths.value) && SelectedPaths(u, q.paths.value) != {}
    requires before == PathLookups(u, q) && before <= consulted
    requires Stopped(consulted[|before|..], Consulted(u, Others(q.relationships), true), exhausted)
    ensures Stopped(consulted, Lookups(u, q), exhausted)
  {
    hide Consulted, NamesUnsafe, SelectedPaths, Others;
    assert consulted == before + consulted[|before|..];
  }

  lemma NothingConsulted(u: Universe, q: Request)
    requires q.relationships != [] && !u.resolutionComplete
    ensures Stopped([], Lookups(u, q), false)
  {
  }

  lemma AllConsulted(consulted: seq<string>, all: seq<string>)
    requires Stopped(consulted, all, false)
    ensures consulted == all
  {
  }

  lemma ConsultedNone(u: Universe)
    ensures Consulted(u, [], true) == [] && Consulted(u, [], false) == []
  {
  }

  lemma {:induction false} ConsultedSoFar(u: Universe, spellings: seq<string>, strict: bool, n: nat)
    requires n < |spellings|
    requires forall i :: 0 <= i < n ==> !u.Exact(spellings[i]).UnsafeScope? && !(strict && u.Exact(spellings[i]).NotAvailable?)
    ensures spellings[..n + 1] <= Consulted(u, spellings, strict)
    ensures u.Exact(spellings[n]).UnsafeScope? || (strict && u.Exact(spellings[n]).NotAvailable?) || n + 1 == |spellings| ==>
              Consulted(u, spellings, strict) == spellings[..n + 1]
    decreases n
  {
    if n > 0 {
      ConsultedSoFar(u, spellings[1..], strict, n - 1);
      assert spellings[..n + 1] == [spellings[0]] + spellings[1..][..n];
    }
  }

  lemma SelectOne(u: Universe, paths: seq<string>, i: nat)
    requires i < |paths|
    ensures var found := u.Exact(paths[i]);
            SelectedPaths(u, paths[..i + 1]) == SelectedPaths(u, paths[..i]) + if found.Resolved? then {found.path} else {}
    ensures NamesUnsafe(u, paths[..i + 1]) <==> NamesUnsafe(u, paths[..i]) || u.Exact(paths[i]).UnsafeScope?
    ensures u.Exact(paths[i]).UnsafeScope? ==> NamesUnsafe(u, paths)
  {
    assert paths[..i + 1] == paths[..i] + [paths[i]];
    assert paths[i] in paths;
    hide Universe.Exact;
  }

  /** The requested paths. An unavailable one is skipped; running out is not caught. */
  method SelectPaths(session: Session, paths: seq<string>) returns (selected: set<Path>, unsafe: bool, exhausted: bool)
    requires !session.ranOut && !session.lookupRanOut && session.consulted == []
    modifies session`ranOut, session`lookupRanOut, session`consulted
    ensures session.ranOut == session.lookupRanOut == exhausted
    ensures Stopped(session.consulted, Consulted(session.u, paths, false), exhausted)
    ensures !exhausted ==> (unsafe <==> NamesUnsafe(session.u, paths))
    ensures !exhausted && !unsafe ==> selected == SelectedPaths(session.u, paths)
  {
    var u := session.u;
    selected, unsafe, exhausted := {}, false, false;
    ConsultedNone(u);
    assert SelectedPaths(u, []) == {} && !NamesUnsafe(u, []);
    assert paths[..|paths|] == paths;
    hide Consulted, SelectedPaths, NamesUnsafe, Universe.Exact;
    for i := 0 to |paths|
      invariant !session.ranOut && !session.lookupRanOut && session.consulted == paths[..i]
      invariant selected == SelectedPaths(u, paths[..i]) && !NamesUnsafe(u, paths[..i])
      invariant forall j :: 0 <= j < i ==> !u.Exact(paths[j]).UnsafeScope?
      invariant i == |paths| ==> Consulted(u, paths, false) == paths
    {
      assert paths[..i + 1] == paths[..i] + [paths[i]];
      ConsultedSoFar(u, paths, false, i);
      SelectOne(u, paths, i);
      var r := session.LookUp(paths[i]);
      match r {
        case LookupExhausted => return selected, false, true;
        case LookedUp(UnsafeScope) => return selected, true, false;
        case LookedUp(Resolved(path)) => selected := selected + {path};
        case LookedUp(Missing) =>
        case LookedUp(NotAvailable) =>
      }
    }
  }

  /** The predicates' other ends. Neither an unavailable one nor running out is caught. */
  method ResolveTargets(session: Session, predicates: seq<RelationshipPredicate>) returns (r: Targets, exhausted: bool)
    requires !session.ranOut && !session.lookupRanOut
    modifies session`ranOut, session`lookupRanOut, session`consulted
    ensures session.ranOut == session.lookupRanOut == exhausted
    ensures old(session.consulted) <= session.consulted
    ensures Stopped(session.consulted[|old(session.consulted)|..], Consulted(session.u, Others(predicates), true), exhausted)
    ensures !exhausted ==> r == TargetsOf(session.u, predicates)
  {
    hide Consulted;
    ConsultedNone(session.u);
    var u, others := session.u, Others(predicates);
    ghost var before := session.consulted;
    var targets: seq<Option<Path>> := [];
    exhausted := false;
    for i := 0 to |predicates|
      invariant !session.ranOut && !session.lookupRanOut && session.consulted == before + others[..i]
      invariant Found(targets) == TargetsOf(u, predicates[..i])
      invariant forall j :: 0 <= j < i ==> !u.Exact(others[j]).UnsafeScope? && !u.Exact(others[j]).NotAvailable?
      invariant i == |predicates| ==> Consulted(u, others, true) == others
    {
      assert predicates[..i + 1][..i] == predicates[..i];
      assert others[..i + 1] == others[..i] + [others[i]];
      ConsultedSoFar(u, others, true, i);
      var outcome := session.LookUp(predicates[i].other);
      assert session.consulted[|before|..] == others[..i + 1];
      match outcome {
        case LookupExhausted => return Found(targets), true;
        case LookedUp(Resolved(path)) => targets := targets + [Some(path)];
        case LookedUp(Missing) => targets := targets + [None];
        case LookedUp(UnsafeScope) =>
          FirstUnresolved(u, predicates, i + 1);
          return UnsafeTarget, false;
        case LookedUp(NotAvailable) =>
          FirstUnresolved(u, predicates, i + 1);
          return UnavailableTarget, false;
      }
    }
    assert predicates[..|predicates|] == predicates;
    assert session.consulted[|before|..] == others;
    r := Found(targets);
  }

  /** A target that stops the resolution decides it, whatever follows. */
  lemma {:induction false} FirstUnresolved(u: Universe, predicates: seq<RelationshipPredicate>, n: nat)
    requires n <= |predicates| && !TargetsOf(u, predicates[..n]).Found?
    ensures TargetsOf(u, predicates) == TargetsOf(u, predicates[..n])
    decreases |predicates| - n
  {
    if n == |predicates| {
      assert predicates[..n] == predicates;
    } else {
      assert predicates[..n + 1][..n] == predicates[..n];
      FirstUnresolved(u, predicates, n + 1);
    }
  }

  /** `evaluate_supplied_eligibility`: without running out it answers the declarative filter. When it runs out in a
      lookup the exhaustion escapes; later it is caught, and the answer is nothing if there are predicates and
      otherwise the filter of an initial segment. No note is read or derived twice. */
  method Evaluate(q: Request, session: Session) returns (a: Answer, evaluated: nat, ghost reached: nat)
    requires session.u.Valid() && session.Fresh()
    modifies session
    ensures Distinct(session.read) && Distinct(session.derived)
    ensures a.RaisedExhausted? <==> session.lookupRanOut
    ensures Stopped(session.consulted, Lookups(session.u, q), session.lookupRanOut)
    ensures session.lookupRanOut ==> session.ranOut && session.read == []
    ensures !session.ranOut ==> a == Expected(session.u, q)
    ensures session.ranOut && !session.lookupRanOut && q.relationships != [] ==> a == Answered([], false)
    ensures session.ranOut && !session.lookupRanOut && q.relationships == [] ==>
              reached <= |session.u.facts| &&
              a == Answered(Filter(session.u, q, Selection(session.u, q), [], session.u.facts[..reached]), true)
    ensures !session.ranOut ==> evaluated == |Readers((set p | p in session.read), session.u.notes.Keys)|
  {
    var u := session.u;
    reached, evaluated := 0, 0;
    assert Readers((set p | p in session.read), u.notes.Keys) == {};
    hide Consulted, Filter, TargetsOf, NamesUnsafe, SelectedPaths, Readers, Universe.Valid, Distinct, Stopped, Others;
    if q.relationships != [] && !u.resolutionComplete {
      NothingConsulted(u, q);
      return Answered([], false), 0, 0;
    }
    var selected: Option<set<Path>> := None;
    if q.paths.Some? {
      var paths, unsafe, exhausted := SelectPaths(session, q.paths.value);
      if exhausted || unsafe || paths == {} {
        StopsAtPaths(u, q, session.consulted, exhausted);
      } else {
        AllConsulted(session.consulted, PathLookups(u, q));
      }
      hide Lookups, PathLookups;
      if exhausted {
        return RaisedExhausted, 0, 0;
      }
      if unsafe {
        return UnsafeRequest, 0, 0;
      }
      selected := Some(paths);
      if paths == {} {
        return Answered([], true), 0, 0;
      }
    }
    ghost var before := session.consulted;
    a, evaluated, reached := EvaluateSelected(q, session, selected);
    StopsAtTargets(u, q, before, session.consulted, session.lookupRanOut);
  }

  /** The evaluation once the requested paths are selected. */
  method EvaluateSelected(q: Request, session: Session, selected: Option<set<Path>>)
    returns (a: Answer, evaluated: nat, ghost reached: nat)
    requires session.u.Valid() && session.read == [] && session.derived == [] && !session.ranOut && !session.lookupRanOut
    requires (q.relationships != [] ==> session.u.resolutionComplete) && (q.paths.Some? ==> !NamesUnsafe(session.u, q.paths.value))
    requires selected == Selection(session.u, q) && selected != Some({})
    modifies session
    ensures old(session.consulted) <= session.consulted
    ensures Stopped(session.consulted[|old(session.consulted)|..], Consulted(session.u, Others(q.relationships), true), session.lookupRanOut)
    ensures Distinct(session.read) && Distinct(session.derived)
    ensures a.RaisedExhausted? <==> session.lookupRanOut
    ensures session.lookupRanOut ==> session.ranOut && session.read == []
    ensures !session.ranOut ==> a == Expected(session.u, q)
    ensures session.ranOut && !session.lookupRanOut && q.relationships != [] ==> a == Answered([], false)
    ensures session.ranOut && !session.lookupRanOut && q.relationships == [] ==>
              reached <= |session.u.facts| &&
              a == Answered(Filter(session.u, q, Selection(session.u, q), [], session.u.facts[..reached]), true)
    ensures !session.ranOut ==> evaluated == |Readers((set p | p in session.read), session.u.notes.Keys)|
  {
    var u := session.u;
    reached, evaluated := 0, 0;
    assert Readers((set p | p in session.read), u.notes.Keys) == {};
    hide Consulted, Filter, TargetsOf, NamesUnsafe, SelectedPaths, Readers, Universe.Valid, Stopped, Others;
    var found, exhausted := ResolveTargets(session, q.relationships);
    if exhausted {
      return RaisedExhausted, 0, 0;
    }
    match found {
      case UnsafeTarget => return UnsafeRequest, 0, 0;
      case UnavailableTarget => return RaisedUnavailable, 0, 0;
      case Found(targets) =>
        if None in targets {
          return Answered([], true), 0, 0;
        }
        assert forall t <- Values(targets) :: t in u.facts;
        a, evaluated, reached := EvaluateTargets(q, session, selected, Values(targets));
    }
  }

  method EvaluateTargets(q: Request, session: Session, selected: Option<set<Path>>, targets: seq<Path>)
    returns (a: Answer, evaluated: nat, ghost reached: nat)
    requires session.u.Valid() && session.read == [] && session.derived == [] && !session.ranOut
    requires |targets| == |q.relationships| && forall t <- targets :: t in session.u.facts
    modifies session`ranOut, session`read, session`derived
    ensures a.Answered?
    ensures Distinct(session.read) && Distinct(session.derived)
    ensures !session.ranOut ==> a == Answered(Filter(session.u, q, selected, targets, session.u.facts), true)
    ensures session.ranOut && q.relationships != [] ==> a == Answered([], false)
    ensures session.ranOut && q.relationships == [] ==>
              reached <= |session.u.facts| && a == Answered(Filter(session.u, q, selected, targets, session.u.facts[..reached]), true)
    ensures !session.ranOut ==> evaluated == |Readers((set p | p in session.read), session.u.notes.Keys)|
  {
    hide Filter, Evaluation.Memo;
    var e := new Evaluation(q, selected, targets, session);
    assert session.u.facts[..|session.u.facts|] == session.u.facts;
    reached := 0;
    var r := e.InspectIncoming();
    if !r.Inspected? {
      return Answered([], false), e.evaluated, 0;
    }
    var matches;
    matches, r, reached := e.Scan();
    if r.Inspected? {
      e.CountsReads();
      return Answered(matches, true), e.evaluated, reached;
    }
    if q.relationships != [] {
      return Answered([], false), e.evaluated, reached;
    }
    return Answered(matches, true), e.evaluated, reached;
  }

  // ----- the unbudgeted query

  /** A snapshot on which neither evaluation meets a fault: complete, with every spelling of the request
      safe and available, and links for every note that can be read. */
  ghost predicate FaultFree(u: Universe, q: Request) {
    && u.Valid() && u.resolutionComplete
    && (forall s :: u.Exact(s).Resolved? || u.Exact(s).Missing?)
    && (forall p <- u.notes :: p in u.links)
  }

  /** The eligibility part of `query`: its own caches, and the predicates checked against lists of links. */
  class Querying {
    const u: Universe
    const q: Request
    const targets: seq<Path>
    var notesRead: map<Path, Option<Note>>
    var incoming: map<Path, set<Edge>>

    ghost predicate Valid()
      reads this
    {
      && |targets| == |q.relationships| && (forall p <- u.notes :: p in u.links)
      && (forall p <- notesRead :: notesRead[p] == if p in u.notes then Some(u.notes[p]) else None)
      && (forall p <- incoming :: incoming[p] == LinksOf(u, q, targets, p))
    }

    constructor (u: Universe, q: Request, targets: seq<Path>)
      requires |targets| == |q.relationships| && forall p <- u.notes :: p in u.links
      ensures Valid() && this.u == u && this.q == q && this.targets == targets
    {
      this.u, this.q, this.targets, notesRead, incoming := u, q, targets, map[], map[];
    }

    method ReadOnce(path: Path) returns (note: Option<Note>)
      requires Valid()
      modifies this`notesRead
      ensures Valid() && note == if path in u.notes then Some(u.notes[path]) else None
    {
      if path !in notesRead {
        notesRead := notesRead[path := if path in u.notes then Some(u.notes[path]) else None];
      }
      return notesRead[path];
    }

    method DeriveIncoming()
      requires Valid()
      modifies this`notesRead, this`incoming
      ensures Valid() && forall i :: 0 <= i < |targets| && !q.relationships[i].outgoing ==> targets[i] in incoming
    {
      for i := 0 to |targets|
        invariant Valid()
        invariant forall j :: 0 <= j < i && !q.relationships[j].outgoing ==> targets[j] in incoming
      {
        if !q.relationships[i].outgoing && targets[i] !in incoming {
          var source := ReadOnce(targets[i]);
          incoming := incoming[targets[i] := if source.None? then {} else u.links[targets[i]]];
        }
      }
    }

    /** One candidate: its note, the filters, then its own links and the targets'. */
    method Admits(path: Path) returns (admitted: bool)
      requires Valid() && forall i :: 0 <= i < |targets| && !q.relationships[i].outgoing ==> targets[i] in incoming
      modifies this`notesRead
      ensures Valid()
      ensures admitted <==> Eligible(u, q, targets, path) && forall i: nat :: i < |targets| ==> Holds(u, q, targets, i, path)
    {
      var note := ReadOnce(path);
      if note.None? || !Accepts(q, note.value) {
        return false;
      }
      var outgoing := if WantsOutgoing(q) then u.links[path] else {};
      for i := 0 to |targets|
        invariant Valid()
        invariant forall j: nat :: j < i ==> Holds(u, q, targets, j, path)
      {
        var p := q.relationships[i];
        assert p in q.relationships;
        var links, destination := if p.outgoing then outgoing else incoming[targets[i]], if p.outgoing then targets[i] else path;
        if !Joined(links, destination, p.origin) {
          assert !Holds(u, q, targets, i, path);
          return false;
        }
      }
      return true;
    }

    method Candidates(selected: Option<set<Path>>) returns (eligible: seq<Path>)
      requires Valid() && u.Valid()
      modifies this
      ensures eligible == Filter(u, q, selected, targets, u.facts)
    {
      assert Filter(u, q, selected, targets, u.facts[..0]) == [];
      hide Valid, Eligible, Holds, InScope, Filter;
      DeriveIncoming();
      eligible := [];
      for i := 0 to |u.facts|
        invariant Valid() && forall j :: 0 <= j < |targets| && !q.relationships[j].outgoing ==> targets[j] in incoming
        invariant eligible == Filter(u, q, selected, targets, u.facts[..i])
      {
        FilterOne(u, q, selected, targets, i);
        if InScope(q, selected, u.facts[i]) {
          var admitted := Admits(u.facts[i]);
          if admitted {
            eligible := eligible + [u.facts[i]];
          }
        }
      }
      assert u.facts[..|u.facts|] == u.facts;
    }
  }

  /** The query's own verification of its paths and of its predicates' other ends, which has no budget. */
  method VerifyPaths(u: Universe, paths: seq<string>) returns (selected: set<Path>, unsafe: bool)
    ensures unsafe <==> NamesUnsafe(u, paths)
    ensures !unsafe ==> selected == SelectedPaths(u, paths)
  {
    selected := {};
    for i := 0 to |paths|
      invariant selected == SelectedPaths(u, paths[..i]) && !NamesUnsafe(u, paths[..i])
    {
      assert paths[..i + 1] == paths[..i] + [paths[i]];
      match u.Exact(paths[i]) {
        case UnsafeScope =>
          assert paths[i] in paths;
          return selected, true;
        case Resolved(path) => selected := selected + {path};
        case Missing =>
        case NotAvailable =>
      }
    }
    assert paths[..|paths|] == paths;
    unsafe := false;
  }

  method VerifyTargets(u: Universe, predicates: seq<RelationshipPredicate>) returns (r: Targets)
    ensures r == TargetsOf(u, predicates)
  {
    var targets: seq<Option<Path>> := [];
    for i := 0 to |predicates|
      invariant Found(targets) == TargetsOf(u, predicates[..i])
    {
      assert predicates[..i + 1][..i] == predicates[..i];
      match u.Exact(predicates[i].other) {
        case Resolved(path) => targets := targets + [Some(path)];
        case Missing => targets := targets + [None];
        case UnsafeScope =>
          FirstUnresolved(u, predicates, i + 1);
          return UnsafeTarget;
        case NotAvailable =>
          FirstUnresolved(u, predicates, i + 1);
          return UnavailableTarget;
      }
    }
    assert predicates[..|predicates|] == predicates;
    return Found(targets);
  }

  /** On a fault-free snapshot `query` finds exactly what the budgeted evaluator answers when it does not
      run out: both are the same declarative filter. */
  method Query(u: Universe, q: Request) returns (eligible: seq<Path>)
    requires FaultFree(u, q)
    ensures Expected(u, q) == Answered(eligible, true)
  {
    var selected := None;
    if q.paths.Some? {
      var paths, unsafe := VerifyPaths(u, q.paths.value);
      selected := Some(paths);
    }
    var found := VerifyTargets(u, q.relationships);
    NoFaultyTarget(u, q, q.relationships);
    if None in found.targets {
      return [];
    }
    var querying := new Querying(u, q, Values(found.targets));
    eligible := querying.Candidates(selected);
    if selected == Some({}) {
      NothingSelected(u, q, Values(found.targets), u.facts);
    }
  }

  lemma {:induction false} NoFaultyTarget(u: Universe, q: Request, predicates: seq<RelationshipPredicate>)
    requires FaultFree(u, q)
    ensures TargetsOf(u, predicates).Found?
    decreases |predicates|
  {
    if predicates != [] {
      NoFaultyTarget(u, q, predicates[..|predicates| - 1]);
      var e := u.Exact(predicates[|predicates| - 1].other);
    }
  }

  lemma {:induction false} NothingSelected(u: Universe, q: Request, targets: seq<Path>, facts: seq<Path>)
    requires |targets| == |q.relationships|
    ensures Filter(u, q, Some({}), targets, facts) == []
    decreases |facts|
  {
    if facts != [] {
      NothingSelected(u, q, targets, facts[..|facts| - 1]);
    }
  }

  /** The filter keeps the snapshot's order and keeps exactly the selected paths. */
  lemma {:induction false} FilterIsExact(u: Universe, q: Request, selected: Option<set<Path>>, targets: seq<Path>, facts: seq<Path>)
    requires |targets| == |q.relationships| && Distinct(facts)
    ensures var r := Filter(u, q, selected, targets, facts);
            && Distinct(r)
            && (forall p :: p in r <==> p in facts && Selected(u, q, selected, targets, p))
    decreases |facts|
  {
    if facts != [] {
      var front := facts[..|facts| - 1];
      FilterIsExact(u, q, selected, targets, front);
      assert facts == front + [facts[|facts| - 1]];
      assert facts[|facts| - 1] !in front;
      hide Selected;
    }
  }

  lemma OrderExtends(kept: seq<Path>, facts: seq<Path>, last: Path)
    requires InOrderOf(kept, facts) && forall p <- kept :: p in facts
    ensures InOrderOf(kept, facts + [last]) && InOrderOf(kept + [last], facts + [last])
  {
    forall i, j | 0 <= i < j < |kept| ensures Precedes(facts + [last], kept[i], kept[j]) {
      assert Precedes(facts, kept[i], kept[j]);
      var a: nat, b: nat :| a < b < |facts| && facts[a] == kept[i] && facts[b] == kept[j];
      assert (facts + [last])[a] == kept[i] && (facts + [last])[b] == kept[j];
    }
    forall i | 0 <= i < |kept| ensures Precedes(facts + [last], kept[i], last) {
      assert kept[i] in facts;
      var a :| 0 <= a < |facts| && facts[a] == kept[i];
      assert (facts + [last])[a] == kept[i] && (facts + [last])[|facts|] == last;
    }
  }

  ghost predicate Precedes(facts: seq<Path>, first: Path, second: Path) {
    exists a: nat, b: nat :: a < b < |facts| && facts[a] == first && facts[b] == second
  }

  ghost predicate InOrderOf(kept: seq<Path>, facts: seq<Path>) {
    forall i, j :: 0 <= i < j < |kept| ==> Precedes(facts, kept[i], kept[j])
  }

  lemma {:induction false} FilterKeepsOrder(u: Universe, q: Request, selected: Option<set<Path>>, targets: seq<Path>, facts: seq<Path>)
    requires |targets| == |q.relationships|
    ensures var r := Filter(u, q, selected, targets, facts); (forall p <- r :: p in facts) && InOrderOf(r, facts)
    decreases |facts|
  {
    hide Selected, InOrderOf;
    if facts == [] {
      NothingInOrder();
    } else {
      var front, last := facts[..|facts| - 1], facts[|facts| - 1];
      FilterKeepsOrder(u, q, selected, targets, front);
      OrderExtends(Filter(u, q, selected, targets, front), front, last);
      assert facts == front + [last];
      assert Filter(u, q, selected, targets, front) + [] == Filter(u, q, selected, targets, front);
    }
  }

  lemma NothingInOrder()
    ensures InOrderOf([], [])
  {
  }

  // ----- the answer by the values alone

  /** Of two texts in which every piece between slashes is a name, the one is below the other exactly when it begins
      with it and a slash. */
  lemma BelowByText(path: Path, folder: string)
    requires PurePath.Tidy(path) && PurePath.Tidy(folder) && '\\' !in folder
    ensures Below(path, folder) <==> |folder| < |path| && path[..|folder|] == folder && path[|folder|] == '/'
  {
    hide PurePath.Pieces;
    assert PurePath.Slashed(folder) == folder;
    PurePath.TidyPieces(path);
    PurePath.TidyPieces(folder);
    PurePath.PiecesPrefix(path, folder);
  }

  /** However a relative folder is spelled otherwise, nothing changes: backslashes are slashes, slashes may be doubled
      or end it, and a dot between them says nothing. The folder of nothing but that holds every relative path, and a
      rooted folder holds none. */
  lemma RespelledFolder(path: Path, x: string, y: string)
    requires !PurePath.Rooted(path)
    ensures Below(path, x) <==> Below(path, PurePath.Slashed(x))
    ensures x != "" && x[0] != '/' && x[0] != '\\' ==>
              && (Below(path, x + "//" + y) <==> Below(path, x + "/" + y))
              && (Below(path, x + "/./" + y) <==> Below(path, x + "/" + y))
              && (Below(path, x + "/") <==> Below(path, x))
    ensures x != "" && (x[0] == '/' || x[0] == '\\') ==> !Below(path, x)
    ensures (Below(path, "") <==> PurePath.Names(path) != []) && (Below(path, ".") <==> PurePath.Names(path) != [])
  {
    hide PurePath.Names;
    PurePath.NoNames();
    var a, b := PurePath.Slashed(x), PurePath.Slashed(y);
    assert PurePath.Slashed(a) == a;
    assert PurePath.Slashed("") == "" && PurePath.Slashed(".") == ".";
    if x != "" && x[0] != '/' && x[0] != '\\' {
      PurePath.RespelledNames(a, b);
      assert PurePath.Slashed(x + "//" + y) == a + "//" + b;
      assert PurePath.Slashed(x + "/./" + y) == a + "/./" + b;
      assert PurePath.Slashed(x + "/" + y) == a + "/" + b;
      assert PurePath.Slashed(x + "/") == a + "/";
      PurePath.NamesOfOne("/");
    }
  }

  lemma ContainsByText(text: string, literal: string)
    ensures Contains(text, literal) <==> exists before: string, after: string :: text == before + literal + after
  {
    if Contains(text, literal) {
      var k := if literal == "" then 0 else Find(text, 0, |text|, literal).value;
      assert text == text[..k] + literal + text[k + |literal|..];
    } else if before: string, after: string :| text == before + literal + after {
      assert Occurs(text, |before|, |text|, literal);
    }
  }

  lemma JoinedByValues(links: set<Edge>, destination: Path, origin: Option<Origin>)
    ensures Joined(links, destination, origin) <==> exists o: Origin :: (destination, o) in links && (origin.None? || origin.value == o)
  {
    if Joined(links, destination, origin) {
      var o := if origin.Some? then origin.value
               else if (destination, ObsidianWikilink) in links then ObsidianWikilink else MarkdownLink;
      assert (destination, o) in links;
    }
    forall o: Origin | (destination, o) in links && (origin.None? || origin.value == o) ensures Joined(links, destination, origin) {
      assert o == ObsidianWikilink || o == MarkdownLink;
    }
  }

  /** A stored value is never unequal to one of another kind: a Boolean is no integer, an integer no float. */
  lemma MetadataByValues(m: map<string, Value>, p: MetadataPredicate)
    ensures MatchesMetadata(m, p)
        <==> && p.key in m
             && (p.operator.Equals? ==> m[p.key] == ScalarValue(p.value))
             && (p.operator.NotEquals? ==>
                   && m[p.key].ScalarValue? && m[p.key].scalar != p.value
                   && var a, b := m[p.key].scalar, p.value;
                      && a.NullValue? == b.NullValue? && a.StringValue? == b.StringValue? && a.BoolValue? == b.BoolValue?
                      && a.IntValue? == b.IntValue? && a.FloatValue? == b.FloatValue?)
             && (p.operator.SequenceContains? ==>
                   m[p.key].SequenceValue? && exists k :: 0 <= k < |m[p.key].members| && m[p.key].members[k] == p.value)
  {
  }

  lemma AcceptsByValues(q: Request, n: Note)
    ensures Accepts(q, n)
        <==> && (q.literal.Some? ==> Contains(n.content, q.literal.value))
             && (forall tag <- q.tags :: n.tags.Some? && tag in n.tags.value)
             && (forall p <- q.metadata :: n.metadata.Some? && MatchesMetadata(n.metadata.value, p))
  {
    hide MatchesMetadata, Contains;
    assert q.tags != [] ==> q.tags[0] in q.tags;
    assert q.metadata != [] ==> q.metadata[0] in q.metadata;
  }

  lemma HoldsByValues(u: Universe, q: Request, targets: seq<Path>, i: nat, path: Path)
    requires |targets| == |q.relationships| && i < |targets|
    ensures Holds(u, q, targets, i, path)
        <==> var from := if q.relationships[i].outgoing then path else targets[i];
             var to := if q.relationships[i].outgoing then targets[i] else path;
             && from in u.notes && from in u.links
             && exists o: Origin :: (to, o) in u.links[from] && (q.relationships[i].origin.None? || q.relationships[i].origin.value == o)
  {
    hide Joined;
    var p := q.relationships[i];
    if p.outgoing {
      JoinedByValues(LinksOf(u, q, targets, path), targets[i], p.origin);
    } else {
      JoinedByValues(LinksOf(u, q, targets, targets[i]), path, p.origin);
    }
  }

  lemma NeedsByValues(q: Request, targets: seq<Path>, path: Path)
    requires |targets| == |q.relationships|
    ensures NeedsLinks(q, targets, path)
        <==> exists i :: 0 <= i < |targets| && (q.relationships[i].outgoing || targets[i] == path)
  {
    if i :| 0 <= i < |targets| && (q.relationships[i].outgoing || targets[i] == path) {
      assert q.relationships[i] in q.relationships;
    }
  }

  /** A note is in the answer exactly when it is in the snapshot and scope, can be read, holds the text, the tags and
      the metadata, its links derive where a predicate looks at them, and every relationship holds: stated on the
      values themselves. The answer lists such notes in the order of the snapshot. */
  lemma AnswerByValues(u: Universe, q: Request, selected: Option<set<Path>>, targets: seq<Path>, facts: seq<Path>, path: Path)
    requires |targets| == |q.relationships| && Distinct(facts)
    ensures InOrderOf(Filter(u, q, selected, targets, facts), facts)
    ensures path in Filter(u, q, selected, targets, facts)
        <==> && path in facts && path in u.notes
             && (selected.Some? ==> path in selected.value)
             && (q.folder.Some? ==> Below(path, q.folder.value))
             && (q.literal.Some? ==> Contains(u.notes[path].content, q.literal.value))
             && (forall tag <- q.tags :: u.notes[path].tags.Some? && tag in u.notes[path].tags.value)
             && (forall p <- q.metadata ::
                   u.notes[path].metadata.Some? && MatchesMetadata(u.notes[path].metadata.value, p))
             && ((exists i :: 0 <= i < |targets| && (q.relationships[i].outgoing || targets[i] == path)) ==> path in u.links)
             && (forall i: nat :: i < |targets| ==>
                   var from := if q.relationships[i].outgoing then path else targets[i];
                   var to := if q.relationships[i].outgoing then targets[i] else path;
                   && from in u.notes && from in u.links
                   && exists o: Origin :: (to, o) in u.links[from] && (q.relationships[i].origin.None? || q.relationships[i].origin.value == o))
  {
    hide Filter, Accepts, Contains, Holds, NeedsLinks, Below, InOrderOf, MatchesMetadata, LinksOf;
    FilterIsExact(u, q, selected, targets, facts);
    FilterKeepsOrder(u, q, selected, targets, facts);
    NeedsByValues(q, targets, path);
    if path in u.notes {
      AcceptsByValues(q, u.notes[path]);
    }
    forall i: nat | i < |targets| ensures Holds(u, q, targets, i, path)
        <==> var from := if q.relationships[i].outgoing then path else targets[i];
             var to := if q.relationships[i].outgoing then targets[i] else path;
             && from in u.notes && from in u.links
             && exists o: Origin :: (to, o) in u.links[from] && (q.relationships[i].origin.None? || q.relationships[i].origin.value == o)
    {
      HoldsByValues(u, q, targets, i, path);
    }
  }
}

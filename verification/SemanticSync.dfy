/** Synchronisation of the note index with the vault in bounded turns: a disk-backed discovery frontier,
    keyset pages over what was discovered, and reconciliation of stale rows behind another keyset cursor. */
module SemanticSync {
  import opened PathOrder
  import opened PythonText

  type Path = string
  type Dir = string

  /** A stored note, and a file as the vault shows it; a digest that cannot be read is None. */
  datatype Row = Row(mtime: int, size: nat, digest: string)
  datatype File = File(mtime: int, size: nat, digest: Option<string>)

  type Store = map<Path, Row>

  /** What a directory entry amounts to: a real subdirectory, a path that resolves to an eligible note
      (several entries may resolve to one), or neither. */
  datatype Entry = SubDirectory(dir: Dir) | Note(path: Path) | Rejected

  datatype Vault = Vault(tree: map<Dir, seq<Entry>>, files: map<Path, File>)

  /** A targeted path with the flag its admission gave it. */
  datatype Target = Target(path: Path, missing: bool)

  predicate At(v: Vault, d: Dir, j: int, e: Entry) { d in v.tree && 0 <= j < |v.tree[d]| && v.tree[d][j] == e }

  ghost predicate WellFormed(v: Vault) {
    && "" in v.tree
    && (forall d, j, c :: At(v, d, j, SubDirectory(c)) ==> c in v.tree && c != "")
    && (forall d, j, p :: At(v, d, j, Note(p)) ==> p in v.files)
    && (forall d, j, e, k, c :: At(v, d, j, SubDirectory(c)) && At(v, e, k, SubDirectory(c)) ==> d == e && j == k)
    && (forall d <- v.tree :: d == "" || exists e, k :: At(v, e, k, SubDirectory(d)) && |e| < |d|)
    && (forall p <- v.files :: p != "")
  }

  /** The notes a full scan is to find. */
  function Eligible(v: Vault): set<Path> {
    set d, j | d in v.tree && 0 <= j < |v.tree[d]| && v.tree[d][j].Note? :: v.tree[d][j].path
  }

  lemma EligiblePresent(v: Vault)
    requires WellFormed(v)
    ensures Eligible(v) <= v.files.Keys
  {
    forall p <- Eligible(v) ensures p in v.files {
      var d, j :| d in v.tree && 0 <= j < |v.tree[d]| && v.tree[d][j].Note? && v.tree[d][j].path == p;
      assert At(v, d, j, Note(p));
    }
  }

  // ----- what becomes of one path

  datatype Treatment = Indexed | Unchanged | Skipped | Removed | Absent

  datatype Fate = Fate(row: Option<Row>, treatment: Treatment)

  function Get(s: Store, p: Path): Option<Row> { if p in s then Some(s[p]) else None }

  function Put(s: Store, p: Path, row: Option<Row>): Store {
    match row
    case Some(r) => s[p := r]
    case None => s - {p}
  }

  /** Indexing one present file, or dropping the row of a missing one. */
  function FateOf(v: Vault, s: Store, p: Path): Fate {
    if p !in v.files then (if p in s then Fate(None, Removed) else Fate(None, Absent))
    else
      var f := v.files[p];
      if p in s && s[p].mtime == f.mtime && s[p].size == f.size then Fate(Some(s[p]), Unchanged)
      else if f.digest.None? then Fate(Get(s, p), Skipped)
      else
        Fate(Some(Row(f.mtime, f.size, f.digest.value)),
             if p in s && s[p].digest == f.digest.value then Unchanged else Indexed)
  }

  /** None of the paths is a changed file that cannot be read. */
  ghost predicate Readable(v: Vault, before: Store, done: set<Path>) {
    forall p <- done :: !FateOf(v, before, p).treatment.Skipped?
  }

  /** The store in which exactly the paths of `done` met their fate. */
  ghost predicate Settled(v: Vault, before: Store, done: set<Path>, s: Store) {
    forall p :: Get(s, p) == if p in done then FateOf(v, before, p).row else Get(before, p)
  }

  function Tally(v: Vault, before: Store, done: set<Path>, t: Treatment): set<Path> {
    set p | p in done && FateOf(v, before, p).treatment == t
  }

  datatype Counts = Counts(indexed: nat, same: nat, removed: nat)

  function CountsOf(v: Vault, before: Store, done: set<Path>): Counts {
    Counts(|Tally(v, before, done, Indexed)|, |Tally(v, before, done, Unchanged)|, |Tally(v, before, done, Removed)|)
  }

  function Counted(c: Counts, t: Treatment): Counts {
    match t
    case Indexed => c.(indexed := c.indexed + 1)
    case Unchanged => c.(same := c.same + 1)
    case Removed => c.(removed := c.removed + 1)
    case Skipped => c
    case Absent => c
  }

  /** Settling one more path. */
  lemma SettleOne(v: Vault, before: Store, done: set<Path>, s: Store, p: Path)
    requires Settled(v, before, done, s) && p !in done
    ensures Settled(v, before, done + {p}, Put(s, p, FateOf(v, before, p).row))
    ensures FateOf(v, s, p) == FateOf(v, before, p)
    ensures CountsOf(v, before, done + {p}) == Counted(CountsOf(v, before, done), FateOf(v, before, p).treatment)
  {
    var t := FateOf(v, before, p).treatment;
    assert Get(s, p) == Get(before, p);
    TallyOne(v, before, done, p, Indexed);
    TallyOne(v, before, done, p, Unchanged);
    TallyOne(v, before, done, p, Removed);
  }

  lemma TallyOne(v: Vault, before: Store, done: set<Path>, p: Path, t: Treatment)
    requires p !in done
    ensures |Tally(v, before, done + {p}, t)|
         == |Tally(v, before, done, t)| + if FateOf(v, before, p).treatment == t then 1 else 0
  {
    assert Tally(v, before, done + {p}, t)
        == Tally(v, before, done, t) + if FateOf(v, before, p).treatment == t then {p} else {};
  }

  // ----- discovery

  datatype Cursor = Cursor(dir: Dir, next: nat)

  /** The entries a scan has consumed. */
  ghost predicate Consumed(v: Vault, visited: set<Dir>, cursor: Option<Cursor>, d: Dir, j: int, e: Entry) {
    At(v, d, j, e) && (d in visited || (cursor.Some? && d == cursor.value.dir && j < cursor.value.next))
  }

  ghost predicate Shaped(v: Vault, frontier: set<Dir>, visited: set<Dir>, cursor: Option<Cursor>) {
    && frontier <= v.tree.Keys && visited <= v.tree.Keys && frontier !! visited && "" in frontier + visited
    && (cursor.Some? ==> cursor.value.dir in frontier && cursor.value.next <= |v.tree[cursor.value.dir]|)
  }

  /** Whatever was consumed is remembered. */
  ghost predicate Complete(v: Vault, visited: set<Dir>, cursor: Option<Cursor>, dirs: set<Dir>, files: set<Path>) {
    && (forall d, j, c :: Consumed(v, visited, cursor, d, j, SubDirectory(c)) ==> c in dirs)
    && (forall d, j, p :: Consumed(v, visited, cursor, d, j, Note(p)) ==> p in files)
  }

  /** Nothing else is remembered. */
  ghost predicate Sound(v: Vault, visited: set<Dir>, cursor: Option<Cursor>, dirs: set<Dir>, files: set<Path>) {
    && (forall c <- dirs :: c == "" || exists d, j :: Consumed(v, visited, cursor, d, j, SubDirectory(c)))
    && (forall p <- files :: exists d, j :: Consumed(v, visited, cursor, d, j, Note(p)))
  }

  /** Directories wait in the frontier until exhausted; what was consumed is remembered, and nothing else is. */
  ghost predicate Scan(v: Vault, frontier: set<Dir>, visited: set<Dir>, cursor: Option<Cursor>, files: set<Path>) {
    && Shaped(v, frontier, visited, cursor)
    && Complete(v, visited, cursor, frontier + visited, files)
    && Sound(v, visited, cursor, frontier + visited, files)
  }

  lemma OpenKeeps(v: Vault, frontier: set<Dir>, visited: set<Dir>, files: set<Path>, d: Dir)
    requires Scan(v, frontier, visited, None, files) && d in frontier
    ensures Scan(v, frontier, visited, Some(Cursor(d, 0)), files)
  {
    var cursor := Some(Cursor(d, 0));
    assert forall e, j, x :: Consumed(v, visited, cursor, e, j, x) <==> Consumed(v, visited, None, e, j, x);
  }

  lemma ExhaustKeeps(v: Vault, frontier: set<Dir>, visited: set<Dir>, files: set<Path>, d: Dir)
    requires d in v.tree && Scan(v, frontier, visited, Some(Cursor(d, |v.tree[d]|)), files)
    ensures Scan(v, frontier - {d}, visited + {d}, None, files)
  {
    var cursor := Some(Cursor(d, |v.tree[d]|));
    assert forall e, j, x :: Consumed(v, visited + {d}, None, e, j, x) <==> Consumed(v, visited, cursor, e, j, x);
  }

  /** The frontier and the files after consuming one entry; insertions ignore what is there already. */
  function Grow(frontier: set<Dir>, e: Entry): set<Dir> {
    if e.SubDirectory? then frontier + {e.dir} else frontier
  }

  function Found(files: set<Path>, e: Entry): set<Path> {
    if e.Note? then files + {e.path} else files
  }

  lemma TakeKeeps(v: Vault, frontier: set<Dir>, visited: set<Dir>, files: set<Path>, d: Dir, i: nat)
    requires WellFormed(v) && d in v.tree && i < |v.tree[d]| && Scan(v, frontier, visited, Some(Cursor(d, i)), files)
    ensures Scan(v, Grow(frontier, v.tree[d][i]), visited, Some(Cursor(d, i + 1)), Found(files, v.tree[d][i]))
  {
    var e := v.tree[d][i];
    assert At(v, d, i, e);
    if e.SubDirectory? {
      FirstMet(v, frontier, visited, files, d, i, e.dir);
    }
    assert Grow(frontier, e) + visited == Grow(frontier + visited, e);
    Remembers(v, visited, frontier + visited, files, d, i);
  }

  /** One more entry consumed is exactly that entry more, and so is what is remembered. */
  lemma Remembers(v: Vault, visited: set<Dir>, dirs: set<Dir>, files: set<Path>, d: Dir, i: nat)
    requires d in v.tree && i < |v.tree[d]|
    requires Complete(v, visited, Some(Cursor(d, i)), dirs, files) && Sound(v, visited, Some(Cursor(d, i)), dirs, files)
    ensures var e, now := v.tree[d][i], Some(Cursor(d, i + 1));
            Complete(v, visited, now, Grow(dirs, e), Found(files, e)) && Sound(v, visited, now, Grow(dirs, e), Found(files, e))
  {
    var e, was, now := v.tree[d][i], Some(Cursor(d, i)), Some(Cursor(d, i + 1));
    ConsumedNext(v, visited, d, i);
    assert Consumed(v, visited, now, d, i, e);
    hide Consumed;
    forall c | c in Grow(dirs, e) && c != "" ensures exists k, j :: Consumed(v, visited, now, k, j, SubDirectory(c)) {
      if c in dirs {
        var k, j :| Consumed(v, visited, was, k, j, SubDirectory(c));
        assert Consumed(v, visited, now, k, j, SubDirectory(c));
      }
    }
    forall p | p in Found(files, e) ensures exists k, j :: Consumed(v, visited, now, k, j, Note(p)) {
      if p in files {
        var k, j :| Consumed(v, visited, was, k, j, Note(p));
        assert Consumed(v, visited, now, k, j, Note(p));
      }
    }
  }

  lemma ConsumedNext(v: Vault, visited: set<Dir>, d: Dir, i: nat)
    requires d in v.tree && i < |v.tree[d]|
    ensures forall k, j, x {:trigger Consumed(v, visited, Some(Cursor(d, i + 1)), k, j, x)}
              {:trigger Consumed(v, visited, Some(Cursor(d, i)), k, j, x)} ::
              Consumed(v, visited, Some(Cursor(d, i + 1)), k, j, x) <==>
              Consumed(v, visited, Some(Cursor(d, i)), k, j, x) || (k == d && j == i && x == v.tree[d][i])
  {
  }

  /** A directory has one parent entry, so until that is consumed nothing put it into the scan. */
  lemma FirstMet(v: Vault, frontier: set<Dir>, visited: set<Dir>, files: set<Path>, d: Dir, i: nat, c: Dir)
    requires WellFormed(v) && At(v, d, i, SubDirectory(c)) && Scan(v, frontier, visited, Some(Cursor(d, i)), files)
    ensures c !in visited && c in v.tree && c != ""
  {
    assert forall e, k :: At(v, e, k, SubDirectory(c)) ==> e == d && k == i;
    assert forall e, k :: !Consumed(v, visited, Some(Cursor(d, i)), e, k, SubDirectory(c));
  }

  lemma EntryKnown(v: Vault, d: Dir, i: nat)
    requires WellFormed(v) && d in v.tree && i < |v.tree[d]|
    ensures v.tree[d][i].Note? ==> v.tree[d][i].path in v.files && v.tree[d][i].path != ""
  {
    assert At(v, d, i, v.tree[d][i]);
  }

  /** An empty frontier means that every directory was scanned and every eligible note found. */
  lemma ScanDone(v: Vault, visited: set<Dir>, files: set<Path>)
    requires WellFormed(v) && Scan(v, {}, visited, None, files)
    ensures visited == v.tree.Keys && files == Eligible(v)
  {
    forall d <- v.tree ensures d in visited {
      Reached(v, visited, files, d);
    }
    forall p ensures p in files <==> p in Eligible(v) {
      if p in files {
        var d, j :| Consumed(v, visited, None, d, j, Note(p));
      }
      if p in Eligible(v) {
        var d, j :| d in v.tree && 0 <= j < |v.tree[d]| && v.tree[d][j].Note? && v.tree[d][j].path == p;
        assert Consumed(v, visited, None, d, j, Note(p));
      }
    }
  }

  lemma {:induction false} Reached(v: Vault, visited: set<Dir>, files: set<Path>, d: Dir)
    requires WellFormed(v) && Scan(v, {}, visited, None, files) && d in v.tree
    ensures d in visited
    decreases |d|
  {
    if d != "" {
      var e, k :| At(v, e, k, SubDirectory(d)) && |e| < |d|;
      Reached(v, visited, files, e);
      assert Consumed(v, visited, None, e, k, SubDirectory(d));
    }
  }

  // ----- keyset cursors over what was discovered and over what is stored

  /** The paths the cursor has passed. */
  function Passed(fold: string -> string, paths: set<Path>, after: Key): set<Path> {
    set p | p in paths && !Before(after, KeyOf(fold, p))
  }

  function Plain(p: Path): string { "" }

  function PathsOf(page: seq<Key>): set<Path> { set k | k in page :: k.path }

  /** Moving the cursor past a page passes exactly the page's paths. */
  lemma PageTakes(fold: string -> string, paths: set<Path>, after: Key, limit: nat)
    requires limit > 0
    ensures var page := Page(Keys(fold, paths), after, limit);
            && (forall k <- page :: k == KeyOf(fold, k.path) && k.path in paths && k.path !in Passed(fold, paths, after))
            && (page == [] ==> Passed(fold, paths, after) == paths)
            && (page != [] ==>
                  var last := page[|page| - 1];
                  && Passed(fold, paths, last) == Passed(fold, paths, after) + PathsOf(page)
                  && |Beyond(Keys(fold, paths), last)| < |Beyond(Keys(fold, paths), after)|)
            && (forall i, j :: 0 <= i < j < |page| ==> page[i].path != page[j].path)
  {
    var keys := Keys(fold, paths);
    var page := Page(keys, after, limit);
    PageAdvances(keys, after, limit);
    forall k <- page ensures k == KeyOf(fold, k.path) && k.path in paths {
      assert k in keys;
    }
    if page == [] {
      forall p <- paths ensures p in Passed(fold, paths, after) {
        assert KeyOf(fold, p) in keys && KeyOf(fold, p) !in Beyond(keys, after);
      }
    } else {
      var last := page[|page| - 1];
      assert Beyond(keys, last) < Beyond(keys, after) by { assert last in Beyond(keys, after); BeforeTotal(last, last); }
      SmallerSet(Beyond(keys, last), Beyond(keys, after));
      forall p ensures p in Passed(fold, paths, last) <==> p in Passed(fold, paths, after) + PathsOf(page) {
        var k := KeyOf(fold, p);
        if p in paths {
          assert k in keys;
          assert k in Beyond(keys, last) <==> k in Beyond(keys, after) && k !in page;
          assert p in PathsOf(page) <==> k in page;
        }
      }
    }
  }

  /** At the start no path is passed. */
  lemma NothingPassed(fold: string -> string, paths: set<Path>)
    requires "" !in paths
    ensures Passed(fold, paths, Key("", "")) == {}
  {
  }

  /** The store while the stale cursor moves: discovered notes met their fate, passed rows that were not
      discovered are gone, and rows beyond the cursor are as they were before the run. */
  ghost predicate Reconciled(v: Vault, before: Store, found: set<Path>, passed: set<Path>, s: Store) {
    forall p :: Get(s, p) == if p in found then FateOf(v, before, p).row
                             else if p in passed then None else Get(before, p)
  }

  lemma DropStale(v: Vault, before: Store, found: set<Path>, gone: set<Path>, s: Store, p: Path)
    requires Reconciled(v, before, found, gone, s) && p !in found
    ensures Reconciled(v, before, found, gone + {p}, s - {p})
  {
    hide FateOf;
  }

  /** The rows a full run is to remove. */
  function Stale(before: Store, found: set<Path>): set<Path> { before.Keys - found }

  // ----- the work of one synchronisation

  /** Settling present paths alone drops no row. */
  lemma ReconcilingStarts(v: Vault, before: Store, found: set<Path>, s: Store)
    requires found <= v.files.Keys && Settled(v, before, found, s)
    ensures Reconciled(v, before, found, {}, s) && CountsOf(v, before, found).removed == 0
  {
    assert Tally(v, before, found, Removed) == {};
  }

  lemma PlainFold(p: Path)
    ensures KeyOf(Plain, p).fold == ""
  {
  }

  datatype Phase = Discovering | Targeting | Processing | Reconciling | Finished

  /** How far a run still is from its end, compared lexicographically. */
  datatype Distance = Distance(phase: nat, left: nat, opening: nat, entries: nat)

  predicate Closer(a: Distance, b: Distance) {
    a.phase < b.phase || (a.phase == b.phase && (a.left < b.left || (a.left == b.left &&
      (a.opening < b.opening || (a.opening == b.opening && a.entries < b.entries)))))
  }

  class SyncWork {
    const vault: Vault
    const full: bool
    const batch: nat
    const fold: string -> string
    const targets: seq<Target>
    var store: Store
    var phase: Phase
    var next: nat
    var frontier: set<Dir>
    var cursor: Option<Cursor>
    /** The spooled paths, each with its missing flag. */
    var files: map<Path, bool>
    var after: Key
    var staleAfter: string
    var counts: Counts
    ghost const before: Store
    ghost var visited: set<Dir>
    /** The files handed to indexing, in order; rolled back with the rest when a turn raises. */
    ghost var handed: seq<Path>

    /** What the spool is to hold when admission ends. */
    ghost function Wanted(): set<Path> {
      if full then Eligible(vault) else set t | t in targets :: t.path
    }

    ghost predicate Configured() {
      && WellFormed(vault) && batch > 0 && "" !in before
      && (!full ==> forall t <- targets :: t.path != "" && (!t.missing ==> t.path in vault.files))
    }

    ghost predicate Untouched()
      reads this`store, this`counts, this`handed, this`after, this`staleAfter
    {
      store == before && counts == Counts(0, 0, 0) && handed == [] && after == Key("", "") && staleAfter == ""
    }

    ghost predicate Spooled()
      reads this`files
    {
      "" !in files && forall p <- files :: !files[p] ==> p in vault.files
    }

    /** The spooled paths that processing has passed. */
    ghost function Done(): set<Path>
      reads this`files, this`after
    {
      Passed(fold, files.Keys, after)
    }

    /** Exactly the present ones among the given paths were handed to indexing, each once. */
    ghost predicate Handed(done: set<Path>)
      reads this`handed
    {
      && (forall p :: p in handed <==> p in done && p in vault.files)
      && forall i, j :: 0 <= i < j < |handed| ==> handed[i] != handed[j]
    }

    ghost predicate Valid()
      reads this
    {
      Configured() && Spooled() &&
      match phase
      case Discovering => full && Untouched() && Scan(vault, frontier, visited, cursor, files.Keys)
      case Targeting => !full && Untouched() && next <= |targets| && files.Keys == set t | t in targets[..next] :: t.path
      case Processing =>
        && files.Keys == Wanted() && staleAfter == ""
        && Settled(vault, before, Done(), store) && counts == CountsOf(vault, before, Done()) && Handed(Done())
        && (full || Readable(vault, before, Done()))
      case Reconciling =>
        && full && files.Keys == Wanted() && Handed(Wanted())
        && Reconciled(vault, before, Wanted(), StalePassed(), store)
        && counts == CountsOf(vault, before, Wanted()).(removed := |StalePassed()|)
      case Finished => Finalised()
    }

    /** The stale rows that the reconciliation cursor has passed. */
    ghost function StalePassed(): set<Path>
      reads this`staleAfter
    {
      Passed(Plain, Stale(before, Wanted()), Key("", staleAfter))
    }

    /** What a finished run has done, stated without phases, cursors or turns. */
    ghost predicate Finalised()
      reads this`handed, this`store, this`counts
    {
      && Handed(Wanted())
      && (full ==>
            && (forall p :: Get(store, p) == if p in Wanted() then FateOf(vault, before, p).row else None)
            && counts == CountsOf(vault, before, Wanted()).(removed := |Stale(before, Wanted())|))
      && (!full ==> Settled(vault, before, Wanted(), store) && counts == CountsOf(vault, before, Wanted())
                    && Readable(vault, before, Wanted()))
    }

    ghost function DistanceLeft(): Distance
      reads this
    {
      match phase
      case Discovering =>
        Distance(3, |vault.tree.Keys - visited|, if cursor.None? then 1 else 0,
                 if cursor.None? || cursor.value.dir !in vault.tree || cursor.value.next > |vault.tree[cursor.value.dir]| then 0
                 else |vault.tree[cursor.value.dir]| - cursor.value.next)
      case Targeting => Distance(3, if next <= |targets| then |targets| - next else 0, 0, 0)
      case Processing => Distance(2, |Beyond(Keys(fold, files.Keys), after)|, 0, 0)
      case Reconciling => Distance(1, |Beyond(Keys(Plain, store.Keys), Key("", staleAfter))|, 0, 0)
      case Finished => Distance(0, 0, 0, 0)
    }

    constructor (vault: Vault, store: Store, full: bool, targets: seq<Target>, batch: nat, fold: string -> string)
      requires WellFormed(vault) && batch > 0 && "" !in store
      requires !full ==> forall t <- targets :: t.path != "" && (!t.missing ==> t.path in vault.files)
      ensures Valid() && before == store && this.store == store && this.vault == vault && this.full == full
      ensures this.targets == targets && this.batch == batch && this.fold == fold && !phase.Finished?
    {
      this.vault, this.full, this.batch, this.fold, this.targets := vault, full, batch, fold, targets;
      this.store, before := store, store;
      phase := if full then Discovering else Targeting;
      next, frontier, cursor, files := 0, if full then {""} else {}, None, map[];
      after, staleAfter, counts := Key("", ""), "", Counts(0, 0, 0);
      visited, handed := {}, [];
      new;
      assert forall d, j, x :: !Consumed(vault, {}, None, d, j, x);
    }

    /** INSERT OR IGNORE. */
    method Remember(p: Path, missing: bool)
      modifies this`files
      ensures files == if p in old(files) then old(files) else old(files)[p := missing]
    {
      if p !in files {
        files := files[p := missing];
      }
    }

    /** Admission is over: everything wanted is spooled. */
    method BeginProcessing()
      requires Configured() && Spooled() && Untouched() && files.Keys == Wanted()
      modifies this`phase
      ensures Valid() && phase.Processing?
    {
      phase := Processing;
      NothingPassed(fold, files.Keys);
    }

    method Open(d: Dir)
      requires Valid() && phase.Discovering? && cursor.None? && d in frontier
      modifies this`cursor
      ensures Valid() && Closer(DistanceLeft(), old(DistanceLeft()))
    {
      hide Untouched, Spooled, WellFormed, Complete, Sound;
      OpenKeeps(vault, frontier, visited, files.Keys, d);
      cursor := Some(Cursor(d, 0));
    }

    method Exhaust()
      requires Valid() && phase.Discovering? && cursor.Some? && cursor.value.next == |vault.tree[cursor.value.dir]|
      modifies this`cursor, this`frontier, this`visited
      ensures Valid() && Closer(DistanceLeft(), old(DistanceLeft()))
    {
      hide Untouched, Spooled, WellFormed, Complete, Sound;
      var d := cursor.value.dir;
      ExhaustKeeps(vault, frontier, visited, files.Keys, d);
      SmallerSet(vault.tree.Keys - (visited + {d}), vault.tree.Keys - visited);
      cursor := None;
      frontier, visited := frontier - {d}, visited + {d};
    }

    method TakeEntry()
      requires Valid() && phase.Discovering? && cursor.Some? && cursor.value.next < |vault.tree[cursor.value.dir]|
      modifies this`cursor, this`frontier, this`files
      ensures Valid() && phase.Discovering? && Closer(DistanceLeft(), old(DistanceLeft()))
    {
      hide Untouched, WellFormed, Complete, Sound, At;
      var d, i := cursor.value.dir, cursor.value.next;
      var e := vault.tree[d][i];
      EntryKnown(vault, d, i);
      TakeKeeps(vault, frontier, visited, files.Keys, d, i);
      cursor := Some(Cursor(d, i + 1));
      frontier := Grow(frontier, e);
      if e.Note? {
        ghost var known := files.Keys;
        Remember(e.path, false);
        assert files.Keys == Found(known, e);
      }
    }

    /** One directory opened, exhausted, or one entry consumed; false when the frontier is empty. The
        frontier's order does not matter, so any of its directories may be opened. */
    method DiscoverOne() returns (more: bool)
      requires Valid() && phase.Discovering?
      modifies this`phase, this`frontier, this`cursor, this`files, this`visited
      ensures Valid() && (more <==> phase.Discovering?) && (!more ==> phase.Processing?)
      ensures Closer(DistanceLeft(), old(DistanceLeft()))
    {
      if cursor.None? {
        if frontier == {} {
          ScanDone(vault, visited, files.Keys);
          BeginProcessing();
          return false;
        }
        var d :| d in frontier;
        Open(d);
      } else if cursor.value.next == |vault.tree[cursor.value.dir]| {
        Exhaust();
      } else {
        TakeEntry();
      }
      return true;
    }

    /** A discovery turn. */
    method Discover(budget: nat)
      requires Valid() && phase.Discovering? && budget > 0
      modifies this`phase, this`frontier, this`cursor, this`files, this`visited
      ensures Valid() && Closer(DistanceLeft(), old(DistanceLeft()))
    {
      hide Valid, DistanceLeft;
      for i := 0 to budget
        invariant Valid() && phase.Discovering?
        invariant if i == 0 then DistanceLeft() == old(DistanceLeft()) else Closer(DistanceLeft(), old(DistanceLeft()))
      {
        var more := DiscoverOne();
        if !more {
          return;
        }
      }
    }

    method AdmitOne() returns (more: bool)
      requires Valid() && phase.Targeting?
      modifies this`phase, this`next, this`files
      ensures Valid() && (more <==> phase.Targeting?) && (!more ==> phase.Processing?)
      ensures Closer(DistanceLeft(), old(DistanceLeft()))
    {
      hide Untouched, WellFormed;
      if next == |targets| {
        assert targets[..next] == targets;
        BeginProcessing();
        return false;
      }
      assert targets[..next + 1] == targets[..next] + [targets[next]];
      Remember(targets[next].path, targets[next].missing);
      next := next + 1;
      return true;
    }

    /** A turn of targeted admission. */
    method AdmitTargets(budget: nat)
      requires Valid() && phase.Targeting? && budget > 0
      modifies this`phase, this`next, this`files
      ensures Valid() && Closer(DistanceLeft(), old(DistanceLeft()))
    {
      hide Valid, DistanceLeft;
      for i := 0 to budget
        invariant Valid() && phase.Targeting?
        invariant if i == 0 then DistanceLeft() == old(DistanceLeft()) else Closer(DistanceLeft(), old(DistanceLeft()))
      {
        var more := AdmitOne();
        if !more {
          return;
        }
      }
    }

    /** Part of a turn's page is settled: the paths in `done`. */
    ghost predicate Settling(done: set<Path>)
      reads this`store, this`counts, this`handed
    {
      && Settled(vault, before, done, store) && counts == CountsOf(vault, before, done) && Handed(done)
      && (full || Readable(vault, before, done))
    }

    /** A row for a path that is missing now is dropped. */
    method DropMissing(p: Path, ghost done: set<Path>)
      requires Settling(done) && p !in done && p !in vault.files
      modifies this`store, this`counts
      ensures Settling(done + {p})
      ensures store == old(store) - {p}
      ensures counts == old(counts).(removed := old(counts).removed + if p in old(store) then 1 else 0)
    {
      SettleOne(vault, before, done, store, p);
      if p in store {
        store := store - {p};
        counts := counts.(removed := counts.removed + 1);
      }
    }

    /** `_index_files` on one present file. One that is to be read and cannot be is skipped by a full run and ends a
        targeted one. */
    method IndexFile(p: Path, ghost done: set<Path>) returns (raised: bool)
      requires Settling(done) && p !in done && p in vault.files
      modifies this`store, this`counts, this`handed
      ensures raised <==> !full && FateOf(vault, before, p).treatment.Skipped?
      ensures !raised ==> Settling(done + {p})
      ensures !raised ==>
                var f := vault.files[p];
                && store == (if Current(old(store), p, f) || f.digest.None? then old(store)
                             else old(store)[p := Row(f.mtime, f.size, f.digest.value)])
                && counts == if Anew(old(store), p, f) && f.digest.Some? then old(counts).(indexed := old(counts).indexed + 1)
                             else if f.digest.None? && !Current(old(store), p, f) then old(counts)
                             else old(counts).(same := old(counts).same + 1)
    {
      SettleOne(vault, before, done, store, p);
      handed := handed + [p];
      var f := vault.files[p];
      if p in store && store[p].mtime == f.mtime && store[p].size == f.size {
        counts := counts.(same := counts.same + 1);
      } else if f.digest.Some? {
        if p in store && store[p].digest == f.digest.value {
          counts := counts.(same := counts.same + 1);
        } else {
          counts := counts.(indexed := counts.indexed + 1);
        }
        store := store[p := Row(f.mtime, f.size, f.digest.value)];
      } else if !full {
        return true;
      }
      return false;
    }

    ghost predicate FreshPage(page: seq<Key>, done: set<Path>)
      reads this`files
    {
      && (forall i :: 0 <= i < |page| ==> page[i].path in files && page[i].path !in done)
      && forall i, j :: 0 <= i < j < |page| ==> page[i].path != page[j].path
    }

    ghost predicate Distinct(paths: seq<Path>, done: set<Path>) {
      && (forall p <- paths :: p in vault.files && p !in done)
      && forall i, j :: 0 <= i < j < |paths| ==> paths[i] != paths[j]
    }

    /** First pass over a page: rows flagged missing are looked at again, and dropped if still missing. */
    method DropPage(page: seq<Key>, ghost done: set<Path>) returns (present: seq<Path>, ghost settled: set<Path>)
      requires Settling(done) && Spooled() && FreshPage(page, done)
      modifies this`store, this`counts
      ensures Settling(settled) && Distinct(present, settled)
      ensures settled + SetOf(present) == done + PathsOf(page) && done <= settled
    {
      hide Settling;
      present, settled := [], done;
      for i := 0 to |page|
        invariant Settling(settled) && Distinct(present, settled) && done <= settled
        invariant settled + SetOf(present) == done + PathsOf(page[..i])
      {
        var p := page[i].path;
        assert PathsOf(page[..i + 1]) == PathsOf(page[..i]) + {p} by { assert page[..i + 1] == page[..i] + [page[i]]; }
        assert p !in PathsOf(page[..i]);
        if files[p] && p !in vault.files {
          DropMissing(p, settled);
          settled := settled + {p};
        } else {
          assert SetOf(present + [p]) == SetOf(present) + {p};
          present := present + [p];
        }
      }
      assert page[..|page|] == page;
    }

    /** Second pass: the present files. */
    method IndexPage(present: seq<Path>, ghost done: set<Path>) returns (raised: bool)
      requires Settling(done) && Distinct(present, done)
      modifies this`store, this`counts, this`handed
      ensures !raised ==> Settling(done + SetOf(present))
      ensures raised ==> !full && exists p <- present :: FateOf(vault, before, p).treatment.Skipped?
    {
      hide Settling, FateOf;
      assert done + SetOf(present[..0]) == done;
      for i := 0 to |present|
        invariant Settling(done + SetOf(present[..i]))
      {
        assert present[..i + 1] == present[..i] + [present[i]];
        assert done + SetOf(present[..i + 1]) == done + SetOf(present[..i]) + {present[i]};
        raised := IndexFile(present[i], done + SetOf(present[..i]));
        if raised {
          assert present[i] in present;
          return;
        }
      }
      assert present[..|present|] == present;
      raised := false;
    }

    /** Something that the run wants is a changed file that cannot be read. */
    ghost predicate Blocked()
    {
      !full && exists p <- Wanted() :: FateOf(vault, before, p).treatment.Skipped?
    }

    /** One transaction: a page is settled, or everything is rolled back. */
    method SettlePage(page: seq<Key>, ghost done: set<Path>) returns (raised: bool)
      requires Settling(done) && Spooled() && FreshPage(page, done)
      modifies this`store, this`counts, this`handed
      ensures if raised then !full && (exists p <- PathsOf(page) :: FateOf(vault, before, p).treatment.Skipped?)
                             && store == old(store) && counts == old(counts) && handed == old(handed)
              else Settling(done + PathsOf(page))
    {
      hide FateOf, Settling;
      var saved, counted := store, counts;
      ghost var given := handed;
      var present;
      ghost var settled;
      present, settled := DropPage(page, done);
      raised := IndexPage(present, settled);
      if raised {
        ghost var p :| p in present && FateOf(vault, before, p).treatment.Skipped?;
        assert p in SetOf(present) && p !in done;
        store, counts := saved, counted;
        handed := given;
      }
    }

    /** A processing turn: the next page of spooled paths. If settling it raises, the work stays where it was. */
    method Process() returns (raised: bool)
      requires Valid() && phase.Processing?
      modifies this`phase, this`store, this`counts, this`handed, this`after
      ensures Valid()
      ensures if raised then Blocked() && unchanged(this) else Closer(DistanceLeft(), old(DistanceLeft()))
    {
      hide Settled, Handed, CountsOf, WellFormed, Finalised, Untouched, Scan, Reconciled, Page, Readable, FateOf;
      var rows := Query(Keys(fold, files.Keys), after, batch);
      PageTakes(fold, files.Keys, after, batch);
      if rows == [] {
        BeginReconciling();
        return false;
      }
      ghost var done := Done();
      hide Passed, Beyond, Keys;
      raised := SettlePage(rows, done);
      if !raised {
        after := rows[|rows| - 1];
      }
    }

    /** Every spooled path is settled: reconcile the stale rows, or finish a targeted run. */
    method BeginReconciling()
      requires Valid() && phase.Processing? && Done() == files.Keys
      modifies this`phase
      ensures Valid() && (phase.Reconciling? || phase.Finished?)
    {
      hide Settled, Handed, CountsOf, WellFormed, Untouched, Scan, Reconciled, Readable, FateOf, Passed, Stale, Configured,
           Spooled, Wanted, Eligible, StalePassed;
      if full {
        NoneStaleYet();
      }
      phase := if full then Reconciling else Finished;
    }

    lemma NoneStaleYet()
      requires Valid() && phase.Processing? && full && Done() == files.Keys
      ensures StalePassed() == {} && CountsOf(vault, before, Wanted()).(removed := 0) == counts
      ensures Reconciled(vault, before, Wanted(), {}, store)
    {
      hide FateOf, Handed, WellFormed, Passed, Settled, CountsOf, Reconciled, Eligible, Readable;
      NothingPassed(Plain, Stale(before, Wanted()));
      EligiblePresent(vault);
      ReconcilingStarts(vault, before, Wanted(), store);
    }

    ghost predicate StaleGone(gone: set<Path>)
      reads this`store, this`counts
    {
      && Reconciled(vault, before, Wanted(), gone, store)
      && counts == CountsOf(vault, before, Wanted()).(removed := |gone|)
    }

    /** One stored row: kept if it was discovered, deleted otherwise. */
    method ReconcileRow(p: Path, ghost gone: set<Path>)
      requires StaleGone(gone) && files.Keys == Wanted() && p in store && p !in gone
      modifies this`store, this`counts
      ensures StaleGone(gone + ({p} - Wanted()))
      ensures store.Keys == old(store.Keys) - ({p} - Wanted())
    {
      hide CountsOf, Wanted, Configured, Reconciled;
      if p !in files {
        DropStale(vault, before, Wanted(), gone, store, p);
        assert gone + ({p} - Wanted()) == gone + {p};
        store := store - {p};
        counts := counts.(removed := counts.removed + 1);
      } else {
        assert gone + ({p} - Wanted()) == gone;
      }
    }

    method ReconcilePage(page: seq<Key>, ghost gone: set<Path>)
      requires StaleGone(gone) && files.Keys == Wanted()
      requires forall i :: 0 <= i < |page| ==> page[i].path in store && page[i].path !in gone
      requires forall i, j :: 0 <= i < j < |page| ==> page[i].path != page[j].path
      modifies this`store, this`counts
      ensures StaleGone(gone + (PathsOf(page) - Wanted()))
      ensures store.Keys <= old(store.Keys)
    {
      hide StaleGone, Wanted;
      assert gone + (PathsOf(page[..0]) - Wanted()) == gone;
      for i := 0 to |page|
        invariant StaleGone(gone + (PathsOf(page[..i]) - Wanted()))
        invariant store.Keys <= old(store.Keys)
        invariant forall j :: i <= j < |page| ==> page[j].path in store
      {
        assert PathsOf(page[..i + 1]) == PathsOf(page[..i]) + {page[i].path} by {
          assert page[..i + 1] == page[..i] + [page[i]];
        }
        ghost var deleted := gone + (PathsOf(page[..i]) - Wanted());
        assert deleted + ({page[i].path} - Wanted()) == gone + (PathsOf(page[..i + 1]) - Wanted());
        ReconcileRow(page[i].path, deleted);
      }
      assert page[..|page|] == page;
    }

    /** A page of stored rows, keyed by path, none of them passed yet. */
    ghost predicate StalePaged(page: seq<Key>)
      reads this`store, this`staleAfter
    {
      var after := Key("", staleAfter);
      && page != []
      && (forall i :: 0 <= i < |page| ==> page[i].path in store && page[i].path !in StalePassed() && page[i].fold == "")
      && (forall i, j :: 0 <= i < j < |page| ==> page[i].path != page[j].path)
      && Passed(Plain, Stale(before, Wanted()), page[|page| - 1]) == StalePassed() + (PathsOf(page) - Wanted())
      && |Beyond(Keys(Plain, store.Keys), page[|page| - 1])| < |Beyond(Keys(Plain, store.Keys), after)|
    }

    method AdvanceStale(page: seq<Key>)
      requires Valid() && phase.Reconciling? && StalePaged(page)
      modifies this`store, this`counts, this`staleAfter
      ensures Valid() && Closer(DistanceLeft(), old(DistanceLeft()))
    {
      hide Handed, Untouched, Scan, Settled, WellFormed, Finalised, FateOf, CountsOf, Wanted, Beyond, Before;
      hide Reconciled, Stale, PathsOf, Passed, Keys;
      ghost var stored := store.Keys;
      ReconcilePage(page, StalePassed());
      staleAfter := page[|page| - 1].path;
      assert page[|page| - 1] == Key("", staleAfter);
      FewerBeyond(store.Keys, stored, Key("", staleAfter));
    }

    /** The next page of stored rows is the next part of what is stale, or nothing stale is left. */
    lemma StaleNext(page: seq<Key>)
      requires Valid() && phase.Reconciling? && page == Page(Keys(Plain, store.Keys), Key("", staleAfter), batch)
      ensures if page == [] then StalePassed() == Stale(before, Wanted()) else StalePaged(page)
    {
      hide Handed, Untouched, Scan, Settled, WellFormed, Finalised, FateOf, CountsOf, Wanted, Beyond, Page, Before;
      hide Reconciled, Stale, PathsOf, Passed, Keys, DistanceLeft, Readable;
      PageTakes(Plain, store.Keys, Key("", staleAfter), batch);
      StalePage(vault, before, Wanted(), store, Key("", staleAfter), batch);
      forall k | k in page ensures k.fold == "" {
        PlainFold(k.path);
      }
      forall i | 0 <= i < |page| ensures page[i].path in store && page[i].path !in StalePassed() && page[i].fold == "" {
        assert page[i] in page;
      }
    }

    /** A reconciliation turn: the next page of stored rows loses those that were not discovered. */
    method Reconcile()
      requires Valid() && phase.Reconciling?
      modifies this`phase, this`store, this`counts, this`staleAfter
      ensures Valid() && Closer(DistanceLeft(), old(DistanceLeft()))
    {
      hide *;
      var page := Query(Keys(Plain, store.Keys), Key("", staleAfter), batch);
      StaleNext(page);
      if page == [] {
        FinishReconciling();
      } else {
        AdvanceStale(page);
      }
    }

    method FinishReconciling()
      requires Valid() && phase.Reconciling? && StalePassed() == Stale(before, Wanted())
      modifies this`phase
      ensures Valid() && phase.Finished? && Closer(DistanceLeft(), old(DistanceLeft()))
    {
      phase := Finished;
    }
  }

  /** One turn of `sync_step`, whatever phase the work is in. */
  method Step(work: SyncWork, budget: nat) returns (raised: bool)
    requires work.Valid() && !work.phase.Finished? && budget > 0
    modifies work
    ensures work.Valid()
    ensures if raised then work.Blocked() && unchanged(work) else Closer(work.DistanceLeft(), old(work.DistanceLeft()))
  {
    raised := false;
    match work.phase
    case Discovering => work.Discover(budget);
    case Targeting => work.AdmitTargets(budget);
    case Processing => raised := work.Process();
    case Reconciling => work.Reconcile();
    case Finished =>
  }

  /** Whatever budgets its turns get, a synchronisation ends: by raising exactly when it is targeted and one of its
      targets is a changed file that cannot be read, and otherwise having handed each wanted file to indexing once,
      settled the fate of every wanted path and, when full, removed every other row. */
  method Synchronize(work: SyncWork, budgets: nat -> nat) returns (turns: nat, raised: bool)
    requires work.Valid() && forall n :: budgets(n) > 0
    modifies work
    ensures raised <==> work.Blocked()
    ensures !raised ==> work.phase.Finished? && work.Finalised()
    ensures work.Valid()
  {
    turns, raised := 0, false;
    while !work.phase.Finished?
      invariant work.Valid()
      decreases work.DistanceLeft().phase, work.DistanceLeft().left, work.DistanceLeft().opening, work.DistanceLeft().entries
    {
      raised := Step(work, budgets(turns));
      if raised {
        return;
      }
      turns := turns + 1;
    }
  }

  /** The outcome does not depend on how the turns were split: it is a function of the vault, the targets
      and the rows stored before. */
  lemma TurnsDoNotMatter(a: SyncWork, b: SyncWork)
    requires a.Finalised() && b.Finalised()
    requires a.vault == b.vault && a.full == b.full && a.before == b.before && a.targets == b.targets
    ensures a.store == b.store && a.counts == b.counts
    ensures SetOf(a.handed) == SetOf(b.handed)
  {
    SameStore(a.store, b.store);
    forall p ensures p in SetOf(a.handed) <==> p in SetOf(b.handed) {
      assert p in a.handed <==> p in a.Wanted() && p in a.vault.files;
    }
  }

  lemma SameStore(s: Store, t: Store)
    requires forall p :: Get(s, p) == Get(t, p)
    ensures s == t
  {
    assert forall p :: Get(s, p).Some? <==> p in s;
    assert forall p :: Get(t, p).Some? <==> p in t;
    assert forall p <- s :: Get(s, p).value == s[p] && Get(t, p).value == t[p];
  }

  /** Every eligible note can be read, and no stored row shares time and size with a file whose text differs. */
  ghost predicate Detectable(v: Vault, before: Store) {
    && WellFormed(v)
    && forall p <- Eligible(v) :: p in v.files && v.files[p].digest.Some? && !Deceives(before, p, v.files[p])
  }

  predicate Deceives(before: Store, p: Path, f: File) {
    p in before && before[p].mtime == f.mtime && before[p].size == f.size && Some(before[p].digest) != f.digest
  }

  predicate SameText(before: Store, p: Path, f: File) { p in before && Some(before[p].digest) == f.digest }

  lemma MirrorFate(v: Vault, before: Store, p: Path)
    requires p in v.files && v.files[p].digest.Some? && !Deceives(before, p, v.files[p])
    ensures var f := v.files[p];
            FateOf(v, before, p) == Fate(Some(Row(f.mtime, f.size, f.digest.value)),
                                         if SameText(before, p, f) then Unchanged else Indexed)
  {
  }

  /** Then a full run leaves exactly one row for each eligible note, the file's own, and nothing else; and it
      re-indexes exactly the notes that were not stored with the same text. */
  lemma FullRunMirrorsTheVault(work: SyncWork)
    requires work.Finalised() && work.full && Detectable(work.vault, work.before)
    ensures forall p :: p in work.store <==> p in Eligible(work.vault)
    ensures forall p <- work.store :: p in work.vault.files && work.vault.files[p].digest == Some(work.store[p].digest)
              && work.store[p].mtime == work.vault.files[p].mtime && work.store[p].size == work.vault.files[p].size
    ensures work.counts.indexed
         == |set p | p in Eligible(work.vault) && p in work.vault.files && !SameText(work.before, p, work.vault.files[p])|
    ensures work.counts.indexed + work.counts.same == |Eligible(work.vault)|
    ensures work.counts.removed == |work.before.Keys - Eligible(work.vault)|
  {
    hide Detectable, Eligible, FateOf, Tally, SameText, SyncWork.Handed;
    MirrorRows(work.vault, work.before, work.store);
    MirrorCounts(work.vault, work.before);
  }

  lemma MirrorRows(v: Vault, before: Store, s: Store)
    requires Detectable(v, before)
    requires forall p :: Get(s, p) == if p in Eligible(v) then FateOf(v, before, p).row else None
    ensures forall p :: p in s <==> p in Eligible(v)
    ensures forall p <- s :: p in v.files && v.files[p].digest == Some(s[p].digest)
              && s[p].mtime == v.files[p].mtime && s[p].size == v.files[p].size
  {
    hide FateOf, WellFormed, Eligible;
    forall p ensures p in s <==> p in Eligible(v) {
      assert Get(s, p).Some? <==> p in s;
      if p in Eligible(v) {
        MirrorFate(v, before, p);
      }
    }
    forall p | p in s ensures v.files[p].digest == Some(s[p].digest) && s[p].mtime == v.files[p].mtime && s[p].size == v.files[p].size {
      MirrorFate(v, before, p);
      assert Get(s, p) == Some(s[p]);
    }
  }

  lemma MirrorCounts(v: Vault, before: Store)
    requires Detectable(v, before)
    ensures Tally(v, before, Eligible(v), Indexed)
         == set p | p in Eligible(v) && p in v.files && !SameText(before, p, v.files[p])
    ensures |Tally(v, before, Eligible(v), Indexed)| + |Tally(v, before, Eligible(v), Unchanged)| == |Eligible(v)|
  {
    hide FateOf, WellFormed, Eligible, SameText;
    var eligible := Eligible(v);
    forall p | p in eligible ensures FateOf(v, before, p).treatment == if SameText(before, p, v.files[p]) then Unchanged else Indexed {
      MirrorFate(v, before, p);
    }
    var anew, same := Tally(v, before, eligible, Indexed), Tally(v, before, eligible, Unchanged);
    assert anew + same == eligible && anew !! same;
  }

  /** The stored row shows the file's time and size. */
  predicate Current(before: Store, p: Path, f: File) { p in before && before[p].mtime == f.mtime && before[p].size == f.size }

  /** After a targeted run that did not raise: no target missing from the vault has a row, each that had one is counted;
      every other target has the file's time and size, and its text unless these were stored already; every other row
      is as before. */
  lemma TargetedRunMirrorsTheTargets(work: SyncWork)
    requires work.Finalised() && !work.full
    ensures forall t <- work.targets :: t.path !in work.vault.files ==> t.path !in work.store
    ensures forall t <- work.targets :: t.path in work.vault.files ==>
              var f := work.vault.files[t.path];
              && t.path in work.store && work.store[t.path].mtime == f.mtime && work.store[t.path].size == f.size
              && (if Current(work.before, t.path, f) then work.store[t.path].digest == work.before[t.path].digest
                  else f.digest == Some(work.store[t.path].digest))
    ensures forall p :: (forall t <- work.targets :: t.path != p) ==>
              (p in work.store <==> p in work.before) && (p in work.store ==> work.store[p] == work.before[p])
    ensures var paths := set t | t in work.targets :: t.path;
            && work.counts.removed == |set p | p in paths && p in work.before && p !in work.vault.files|
            && work.counts.indexed == |set p | p in paths && p in work.vault.files && Anew(work.before, p, work.vault.files[p])|
            && work.counts.same == |set p | p in paths && p in work.vault.files && !Anew(work.before, p, work.vault.files[p])|
  {
    hide SyncWork.Handed, WellFormed;
    var paths := set t | t in work.targets :: t.path;
    assert work.Wanted() == paths;
    assert forall t <- work.targets :: t.path in paths;
    TargetRows(work.vault, work.before, paths, work.store);
    TargetCounts(work.vault, work.before, paths);
  }

  /** A file that is to be indexed: neither its time and size nor its text is stored. */
  predicate Anew(before: Store, p: Path, f: File) { !Current(before, p, f) && !SameText(before, p, f) }

  lemma TargetRows(v: Vault, before: Store, paths: set<Path>, s: Store)
    requires Settled(v, before, paths, s) && Readable(v, before, paths)
    ensures forall p <- paths :: p !in v.files ==> p !in s
    ensures forall p <- paths :: p in v.files ==>
              var f := v.files[p];
              p in s && s[p].mtime == f.mtime && s[p].size == f.size
              && if Current(before, p, f) then s[p].digest == before[p].digest else f.digest == Some(s[p].digest)
    ensures forall p :: p !in paths ==> (p in s <==> p in before) && (p in s ==> s[p] == before[p])
  {
    forall p | p in paths ensures Get(s, p) == FateOf(v, before, p).row && !FateOf(v, before, p).treatment.Skipped? {
    }
    forall p | p !in paths ensures (p in s <==> p in before) && (p in s ==> s[p] == before[p]) {
      assert Get(s, p) == Get(before, p);
    }
  }

  lemma TargetCounts(v: Vault, before: Store, paths: set<Path>)
    requires Readable(v, before, paths)
    ensures Tally(v, before, paths, Removed) == set p | p in paths && p in before && p !in v.files
    ensures Tally(v, before, paths, Indexed) == set p | p in paths && p in v.files && Anew(before, p, v.files[p])
    ensures Tally(v, before, paths, Unchanged) == set p | p in paths && p in v.files && !Anew(before, p, v.files[p])
  {
  }

  /** After a full run, whatever can be read: no path outside the eligible notes has a row; a note has the file's time and
      size, and its text unless these were stored already, except that one that cannot be read keeps what was stored. */
  lemma FullRunRows(work: SyncWork)
    requires work.Finalised() && work.full && WellFormed(work.vault)
    ensures forall p :: p !in Eligible(work.vault) ==> p !in work.store
    ensures forall p <- Eligible(work.vault) ::
              p in work.vault.files &&
              var f := work.vault.files[p];
              if Current(work.before, p, f) || f.digest.None? then Get(work.store, p) == Get(work.before, p)
              else Get(work.store, p) == Some(Row(f.mtime, f.size, f.digest.value))
    ensures work.counts.removed == |set p | p in work.before && p !in Eligible(work.vault)|
  {
    hide Eligible, WellFormed, SyncWork.Handed, CountsOf, Tally;
    EligiblePresent(work.vault);
    assert work.before.Keys - Eligible(work.vault) == set p | p in work.before && p !in Eligible(work.vault);
    forall p ensures Get(work.store, p).Some? <==> p in work.store {
    }
  }

  lemma FewerBeyond(fewer: set<Path>, paths: set<Path>, after: Key)
    requires fewer <= paths
    ensures |Beyond(Keys(Plain, fewer), after)| <= |Beyond(Keys(Plain, paths), after)|
  {
    SubsetSize(Beyond(Keys(Plain, fewer), after), Beyond(Keys(Plain, paths), after));
  }

  /** Deleting the rows behind the cursor hides nothing from it: a page of what is stored now, less what
      was discovered, is exactly the next part of what was stale to begin with. */
  lemma StalePage(v: Vault, before: Store, found: set<Path>, s: Store, after: Key, limit: nat)
    requires limit > 0 && Reconciled(v, before, found, Passed(Plain, Stale(before, found), after), s)
    ensures var page := Page(Keys(Plain, s.Keys), after, limit);
            var gone := Passed(Plain, Stale(before, found), after);
            && (forall k <- page :: k.path in s && k.path !in gone)
            && (page == [] ==> gone == Stale(before, found))
            && (page != [] ==> Passed(Plain, Stale(before, found), page[|page| - 1]) == gone + (PathsOf(page) - found))
  {
    hide FateOf, Page, Before;
    var page := Page(Keys(Plain, s.Keys), after, limit);
    var stale := Stale(before, found);
    var gone := Passed(Plain, stale, after);
    PageTakes(Plain, s.Keys, after, limit);
    assert forall p :: p in s ==> Get(s, p).Some?;
    assert forall p <- stale :: p in s <==> p !in gone by {
      assert forall p <- stale :: Get(before, p).Some? && (Get(s, p).Some? <==> p in s);
    }
    if page == [] {
      assert forall p <- stale :: p in s ==> p in Passed(Plain, s.Keys, after);
    } else {
      var last := page[|page| - 1];
      assert Before(after, last) by { PageAdvances(Keys(Plain, s.Keys), after, limit); }
      forall p ensures p in Passed(Plain, stale, last) <==> p in gone + (PathsOf(page) - found) {
        var k := KeyOf(Plain, p);
        if p in stale && Before(last, k) {
          BeforeTransitive(after, last, k);
        }
        assert p in s && p !in found ==> p in stale by {
          assert Get(s, p).Some? <==> p in s;
        }
      }
    }
  }
}

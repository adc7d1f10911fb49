/** The scoped vault session: which paths a bounded discovery keeps, and how a path is resolved through
    symbolic links without leaving the root. */
module ScopedVault {
  import opened PathOrder
  import opened PurePath
  import opened PythonText

  type Path = string

  const PATH_BYTES := 1024

  // ----- keeping the smallest paths

  datatype Fact = Fact(identity: int, modified: int, size: nat)

  /** `kept` are the `quota` smallest of the offered paths under (folded path, path), or all of them. */
  ghost predicate Kept(fold: string -> string, quota: nat, offered: set<Path>, kept: set<Path>) {
    && kept <= offered
    && |kept| == (if |offered| < quota then |offered| else quota)
    && forall k, o :: k in kept && o in offered - kept ==> Before(KeyOf(fold, k), KeyOf(fold, o))
  }

  /** Only one set can be kept, so the order in which a directory enumerates its entries cannot matter. */
  lemma KeptIsUnique(fold: string -> string, quota: nat, offered: set<Path>, a: set<Path>, b: set<Path>)
    requires Kept(fold, quota, offered, a) && Kept(fold, quota, offered, b)
    ensures a == b
  {
    if a <= b {
      SameSize(a, b);
    } else if b <= a {
      SameSize(b, a);
    } else {
      var x, y :| x in a && x !in b && y in b && y !in a;
      BeforeTotal(KeyOf(fold, x), KeyOf(fold, y));
    }
  }

  lemma {:induction false} KeysSize(fold: string -> string, paths: set<Path>)
    ensures |Keys(fold, paths)| == |paths|
    decreases |paths|
  {
    if paths != {} {
      var p :| p in paths;
      KeysSize(fold, paths - {p});
      assert Keys(fold, paths) == Keys(fold, paths - {p}) + {KeyOf(fold, p)};
    }
  }

  lemma KeysAdd(fold: string -> string, paths: set<Path>, p: Path)
    ensures Keys(fold, paths + {p}) == Keys(fold, paths) + {KeyOf(fold, p)}
    ensures p !in paths ==> KeyOf(fold, p) !in Keys(fold, paths)
  {
  }

  lemma KeysRemove(fold: string -> string, paths: set<Path>, p: Path)
    ensures Keys(fold, paths - {p}) == Keys(fold, paths) - {KeyOf(fold, p)}
  {
  }

  lemma KeysOfFront(fold: string -> string, front: seq<Key>)
    requires forall k <- front :: k == KeyOf(fold, k.path)
    ensures forall k :: k in front <==> k in Keys(fold, set j | j in front :: j.path)
  {
  }

  /** The kept paths are the front of the sorted listing of everything offered. */
  lemma KeptIsTheFront(fold: string -> string, quota: nat, offered: set<Path>, kept: set<Path>)
    requires Kept(fold, quota, offered, kept)
    ensures |kept| <= |Sorted(Keys(fold, offered))|
    ensures Sorted(Keys(fold, kept)) == Sorted(Keys(fold, offered))[..|kept|]
  {
    var all := Sorted(Keys(fold, offered));
    SortedIs(Keys(fold, offered));
    KeysSize(fold, offered);
    SubsetSize(kept, offered);
    hide Before, Sorted, Beyond;
    var front := all[..|kept|];
    assert forall k <- front :: k == KeyOf(fold, k.path) by {
      assert forall k <- front :: k in all;
    }
    var paths := set k | k in front :: k.path;
    FrontIsKept(fold, quota, offered, |kept|);
    KeptIsUnique(fold, quota, offered, kept, paths);
    hide Kept, Keys, Ascending;
    KeysOfFront(fold, front);
    assert Ascending(front) by { FrontAscends(all, |kept|); }
    AscendingIsSorted(front, Keys(fold, kept));
  }

  /** By the folded texts first, and by the paths only where these are equal: so are kept paths ordered among each
      other, and so does each of them come before each that was left out. */
  lemma KeptByText(fold: string -> string, quota: nat, offered: set<Path>, kept: set<Path>)
    requires Kept(fold, quota, offered, kept)
    ensures forall k, o :: k in kept && o in offered - kept ==>
              Less(fold(k), fold(o)) || (fold(k) == fold(o) && Less(k, o))
    ensures var r := Sorted(Keys(fold, kept));
            && |r| == |kept| && (forall i :: 0 <= i < |r| ==> r[i].path in kept)
            && forall i, j :: 0 <= i < j < |r| ==>
                 var a, b := r[i].path, r[j].path;
                 Less(fold(a), fold(b)) || (fold(a) == fold(b) && Less(a, b))
  {
    hide Less;
    var r := Sorted(Keys(fold, kept));
    SortedIs(Keys(fold, kept));
    KeysSize(fold, kept);
    forall i | 0 <= i < |r| ensures r[i] == KeyOf(fold, r[i].path) && r[i].path in kept {
      assert r[i] in r && r[i] in Keys(fold, kept);
    }
    forall i, j | 0 <= i < j < |r|
      ensures var a, b := r[i].path, r[j].path; Less(fold(a), fold(b)) || (fold(a) == fold(b) && Less(a, b))
    {
      assert Before(r[i], r[j]);
    }
    forall k, o | k in kept && o in offered - kept ensures Less(fold(k), fold(o)) || (fold(k) == fold(o) && Less(k, o)) {
      assert Before(KeyOf(fold, k), KeyOf(fold, o));
    }
  }

  lemma FrontAscends(all: seq<Key>, n: nat)
    requires Ascending(all) && n <= |all|
    ensures Ascending(all[..n])
  {
  }

  lemma FrontIsKept(fold: string -> string, quota: nat, offered: set<Path>, n: nat)
    requires n == if |offered| < quota then |offered| else quota
    requires |Sorted(Keys(fold, offered))| == |offered|
    ensures Kept(fold, quota, offered, set k | k in Sorted(Keys(fold, offered))[..n] :: k.path)
  {
    var all := Sorted(Keys(fold, offered));
    SortedIs(Keys(fold, offered));
    hide Before, Sorted;
    var front := all[..n];
    var paths := set k | k in front :: k.path;
    assert forall k <- all :: k == KeyOf(fold, k.path) && k.path in offered;
    assert |paths| == n by {
      AscendingDistinct(all);
      PathsCount(fold, front);
    }
    assert forall o <- offered :: KeyOf(fold, o) in all by {
      assert forall o <- offered :: KeyOf(fold, o) in Keys(fold, offered);
    }
    forall p, o | p in paths && o in offered - paths ensures Before(KeyOf(fold, p), KeyOf(fold, o)) {
      FrontBefore(fold, all, n, p, o);
    }
  }

  lemma FrontBefore(fold: string -> string, all: seq<Key>, n: nat, p: Path, o: Path)
    requires Ascending(all) && n <= |all| && forall k <- all :: k == KeyOf(fold, k.path)
    requires p in (set k | k in all[..n] :: k.path) && o !in (set k | k in all[..n] :: k.path) && KeyOf(fold, o) in all
    ensures Before(KeyOf(fold, p), KeyOf(fold, o))
  {
    hide Before;
    var i :| 0 <= i < n && all[..n][i].path == p;
    assert all[i] in all;
    var j :| 0 <= j < |all| && all[j] == KeyOf(fold, o);
    assert forall x :: 0 <= x < n ==> all[x].path != o by {
      assert forall x :: 0 <= x < n ==> all[x] in all[..n];
    }
  }

  lemma {:induction false} PathsCount(fold: string -> string, r: seq<Key>)
    requires forall i :: 0 <= i < |r| ==> r[i] == KeyOf(fold, r[i].path)
    requires forall i, j :: 0 <= i < j < |r| ==> r[i] != r[j]
    ensures |set k | k in r :: k.path| == |r|
    decreases |r|
  {
    if r != [] {
      var last, rest := r[|r| - 1], r[..|r| - 1];
      PathsCount(fold, rest);
      assert r == rest + [last];
      assert (set k | k in r :: k.path) == (set k | k in rest :: k.path) + {last.path};
      assert last.path !in (set k | k in rest :: k.path);
    }
  }

  lemma OfferRoom(fold: string -> string, quota: nat, offered: set<Path>, kept: set<Path>, p: Path)
    requires Kept(fold, quota, offered, kept) && p !in kept && |kept| < quota
    ensures p !in offered && Kept(fold, quota, offered + {p}, kept + {p})
  {
    SameSize(kept, offered);
  }

  lemma OfferRefused(fold: string -> string, quota: nat, offered: set<Path>, kept: set<Path>, p: Path)
    requires Kept(fold, quota, offered, kept) && p !in kept && |kept| == quota
    requires forall k <- kept :: Before(KeyOf(fold, k), KeyOf(fold, p))
    ensures Kept(fold, quota, offered + {p}, kept)
  {
    SubsetSize(kept, offered);
    SubsetSize(offered, offered + {p});
  }

  /** A path below the largest kept one was never offered before: what was refused or evicted stays out. */
  lemma OfferEvicts(fold: string -> string, quota: nat, offered: set<Path>, kept: set<Path>, p: Path, m: Path)
    requires Kept(fold, quota, offered, kept) && p !in kept && |kept| == quota && m in kept
    requires forall k <- kept :: AtMost(KeyOf(fold, k), KeyOf(fold, m))
    requires Before(KeyOf(fold, p), KeyOf(fold, m))
    ensures p !in offered
    ensures Kept(fold, quota, offered + {p}, kept - {m} + {p})
  {
    BeforeTotal(KeyOf(fold, p), KeyOf(fold, m));
    SubsetSize(kept, offered);
    forall k, o | k in kept - {m} + {p} && o in offered + {p} - (kept - {m} + {p})
      ensures Before(KeyOf(fold, k), KeyOf(fold, o))
    {
      if o != m {
        BeforeTransitive(KeyOf(fold, p), KeyOf(fold, m), KeyOf(fold, o));
      }
    }
  }

  /** What was left out or evicted stays out, however much more is offered. */
  lemma OutStaysOut(fold: string -> string, quota: nat, offered: set<Path>, more: set<Path>, a: set<Path>, b: set<Path>, p: Path)
    requires Kept(fold, quota, offered, a) && Kept(fold, quota, more, b) && offered <= more && p in offered - a
    ensures p !in b
  {
    SmallerSet(a, offered);
    SubsetSize(offered, more);
    if a <= b {
      SameSize(a, b);
    } else {
      var k :| k in a && k !in b;
      BeforeTotal(KeyOf(fold, k), KeyOf(fold, p));
    }
  }

  /** `heapq` over reversed keys: the largest key is on top. */
  class MaxHeap {
    /** Largest first. */
    var items: seq<Key>

    ghost predicate Valid()
      reads this
    {
      forall i, j :: 0 <= i < j < |items| ==> Before(items[j], items[i])
    }

    constructor ()
      ensures Valid() && items == []
    {
      items := [];
    }

    ghost function Contents(): set<Key>
      reads this
    {
      set k | k in items
    }

    method Push(k: Key)
      requires Valid() && k !in items
      modifies this
      ensures Valid() && Contents() == old(Contents()) + {k}
    {
      var i := 0;
      while i < |items| && Before(k, items[i])
        invariant 0 <= i <= |items|
        invariant forall j :: 0 <= j < i ==> Before(k, items[j])
        invariant items == old(items)
      {
        i := i + 1;
      }
      hide Before;
      ghost var was := items;
      forall j | i <= j < |items| ensures Before(items[j], k) {
        BeforeTotal(k, items[i]);
        if i < j {
          BeforeTransitive(items[j], items[i], k);
        }
      }
      items := items[..i] + [k] + items[i..];
      assert was == was[..i] + was[i..];
      assert forall x :: x in items <==> x in was[..i] || x == k || x in was[i..];
    }

    method Pop() returns (top: Key)
      requires Valid() && items != []
      modifies this
      ensures Valid() && top == old(items[0]) && Contents() == old(Contents()) - {top}
    {
      top := items[0];
      assert items == [top] + items[1..];
      forall j | 1 <= j < |items| ensures items[j] != top {
        BeforeTotal(top, top);
      }
      items := items[1..];
    }
  }

  class Discovery {
    const quota: nat
    const fold: string -> string
    const heap: MaxHeap
    var facts: map<Path, Fact>
    /** Every spelling under which a kept path was met, its own included. */
    var spellings: map<string, Path>
    /** Aliases whose identity was admitted against the alias budget. */
    var aliases: set<string>
    var charged: nat
    var pathLimit: bool
    var aliasLimit: bool
    /** The acceptable paths offered so far, and whether an overlong one was. */
    ghost var offered: set<Path>
    ghost var overlong: bool

    ghost predicate Heaped()
      reads this`facts, heap
    {
      heap.Valid() && heap.Contents() == Keys(fold, facts.Keys)
    }

    ghost predicate Selected()
      reads this`facts, this`offered, this`charged, this`pathLimit, this`overlong
    {
      && Kept(fold, quota, offered, facts.Keys)
      && charged == |facts|
      && (pathLimit <==> overlong || |offered| > quota)
    }

    ghost predicate Spelled()
      reads this`facts, this`spellings
    {
      && (forall name <- spellings :: spellings[name] in facts)
      && (forall p <- facts :: p in spellings && spellings[p] == p)
    }

    /** Exactly the smallest acceptable paths are kept and charged for, the limit is reported exactly when
        something acceptable or overlong was left out, and every spelling names a kept path. */
    ghost predicate Valid()
      reads this, heap
    {
      Heaped() && Selected() && Spelled()
    }

    constructor (quota: nat, fold: string -> string)
      ensures Valid() && fresh(heap) && facts == map[] && offered == {} && this.quota == quota && this.fold == fold
    {
      this.quota, this.fold := quota, fold;
      heap := new MaxHeap();
      facts, spellings, aliases, charged, pathLimit, aliasLimit := map[], map[], {}, 0, false, false;
      offered, overlong := {}, false;
    }

    /** Drop every spelling of an evicted path. */
    method ForgetSpellings(removed: Path)
      modifies this`spellings
      ensures spellings == map name | name in old(spellings) && old(spellings)[name] != removed :: old(spellings)[name]
    {
      var names := spellings.Keys;
      while names != {}
        invariant names <= old(spellings).Keys
        invariant forall name :: name in spellings <==>
                    name in old(spellings) && (name in names || old(spellings)[name] != removed)
        invariant forall name <- spellings :: spellings[name] == old(spellings)[name]
        decreases |names|
      {
        var name :| name in names;
        names := names - {name};
        if spellings[name] == removed {
          spellings := spellings - {name};
        }
      }
    }

    method Refuse(path: Path)
      requires Heaped() && Spelled() && path !in facts && |facts| == quota && pathLimit
      requires Kept(fold, quota, offered, facts.Keys) && charged == |facts|
      requires heap.items == [] || !Before(KeyOf(fold, path), heap.items[0])
      modifies this`offered
      ensures Valid() && offered == old(offered) + {path}
    {
      forall k <- facts ensures Before(KeyOf(fold, k), KeyOf(fold, path)) {
        TopIsLargest(k);
        BeforeTotal(KeyOf(fold, path), heap.items[0]);
        if KeyOf(fold, k) != heap.items[0] {
          if heap.items[0] != KeyOf(fold, path) {
            BeforeTransitive(KeyOf(fold, k), heap.items[0], KeyOf(fold, path));
          }
        }
      }
      OfferRefused(fold, quota, offered, facts.Keys, path);
      SmallerSet(facts.Keys, offered + {path});
      offered := offered + {path};
    }

    lemma TopIsLargest(k: Path)
      requires Heaped() && k in facts
      ensures heap.items != [] && AtMost(KeyOf(fold, k), heap.items[0])
    {
      assert KeyOf(fold, k) in heap.Contents();
    }

    lemma TopIsKept()
      requires Heaped() && heap.items != []
      ensures heap.items[0].path in facts && heap.items[0] == KeyOf(fold, heap.items[0].path)
    {
      assert heap.items[0] in heap.Contents();
    }

    /** A path leaves with all its spellings. */
    method Drop(p: Path)
      requires Spelled()
      modifies this`facts, this`spellings
      ensures Spelled() && facts == old(facts) - {p} && spellings.Keys <= old(spellings).Keys
    {
      ForgetSpellings(p);
      facts := facts - {p};
    }

    lemma TopMakesRoom(path: Path)
      requires Heaped() && Kept(fold, quota, offered, facts.Keys) && path !in facts && |facts| == quota && heap.items != []
      requires Before(KeyOf(fold, path), heap.items[0])
      ensures var top := heap.items[0];
              && top == KeyOf(fold, top.path) && top.path in facts && path !in offered
              && Kept(fold, quota, offered + {path}, facts.Keys - {top.path} + {path})
    {
      ghost var top := heap.items[0];
      TopIsKept();
      forall k <- facts ensures AtMost(KeyOf(fold, k), top) {
        TopIsLargest(k);
      }
      hide Before, AtMost, Kept, Heaped;
      OfferEvicts(fold, quota, offered, facts.Keys, path, top.path);
    }

    /** Make room for a smaller path by dropping the largest kept one with all its spellings. */
    method Evict(path: Path)
      requires Heaped() && Spelled() && Kept(fold, quota, offered, facts.Keys) && charged == |facts|
      requires path !in facts && |facts| == quota && heap.items != []
      requires Before(KeyOf(fold, path), heap.items[0])
      modifies this`facts, this`spellings, heap
      ensures Heaped() && Spelled() && path !in offered && path !in facts && |facts| + 1 == quota
      ensures Kept(fold, quota, offered + {path}, facts.Keys + {path}) && charged == |facts| + 1
      ensures forall p <- facts :: p in old(facts) && facts[p] == old(facts)[p]
      ensures spellings.Keys <= old(spellings).Keys
    {
      hide Kept, Before, AtMost, MaxHeap.Valid, Keys, KeyOf, Spelled;
      TopMakesRoom(path);
      var removed := heap.Pop();
      KeysRemove(fold, facts.Keys, removed.path);
      Drop(removed.path);
    }

    /** With room made, the new path goes in under its own spelling. */
    method Keep(path: Path, info: Fact)
      requires Heaped() && Spelled() && path !in facts && charged == |facts| + 1
      requires Kept(fold, quota, offered + {path}, facts.Keys + {path})
      requires pathLimit <==> overlong || |offered + {path}| > quota
      modifies this`facts, this`spellings, this`offered, heap
      ensures Valid() && offered == old(offered) + {path}
      ensures facts == old(facts)[path := info] && spellings == old(spellings)[path := path]
    {
      hide Kept, Before, MaxHeap.Valid, Keys, KeyOf;
      KeysAdd(fold, facts.Keys, path);
      assert KeyOf(fold, path) !in heap.items by {
        assert KeyOf(fold, path) !in heap.Contents();
      }
      heap.Push(KeyOf(fold, path));
      facts := facts[path := info];
      assert facts.Keys == old(facts).Keys + {path};
      spellings := spellings[path := path];
      offered := offered + {path};
    }

    /** A path not kept yet: kept if there is room, or in place of the largest kept one if it is smaller. */
    method Admit(path: Path, info: Fact) returns (kept: bool)
      requires Valid() && path !in facts
      modifies this`facts, this`spellings, this`charged, this`pathLimit, this`offered, heap
      ensures Valid() && offered == old(offered) + {path} && (kept <==> path in facts)
      ensures forall p <- facts :: if p in old(facts) then facts[p] == old(facts)[p] else p == path && facts[p] == info
      ensures !kept ==> facts == old(facts) && spellings == old(spellings)
      ensures kept ==> spellings.Keys <= old(spellings).Keys + {path}
    {
      hide Heaped, Spelled, Before, Keys, MaxHeap.Valid;
      if |facts| == quota {
        pathLimit := true;
        if heap.items == [] || !Before(KeyOf(fold, path), heap.items[0]) {
          Refuse(path);
          return false;
        }
        assert |offered + {path}| > quota by {
          SmallerSet(facts.Keys, offered + {path});
        }
        Evict(path);
      } else {
        OfferRoom(fold, quota, offered, facts.Keys, path);
        SameSize(facts.Keys, offered);
        charged := charged + 1;
      }
      Keep(path, info);
      return true;
    }

    lemma KeptOffered(path: Path)
      requires Valid() && path in facts
      ensures offered + {path} == offered
    {
    }

    method RefuseOverlong()
      requires Valid()
      modifies this`pathLimit, this`overlong
      ensures Valid()
    {
      hide Kept;
      pathLimit, overlong := true, true;
    }

    /** `retain`: one eligible canonical path met under one spelling. */
    method Retain(path: Path, info: Fact, spelling: string)
      requires Valid()
      modifies this, heap
      ensures Valid() && aliases == old(aliases)
      ensures if Utf8Size(path, 0, |path|) > PATH_BYTES then offered == old(offered) && facts == old(facts)
              else offered == old(offered) + {path}
      ensures forall p <- facts :: if p in old(facts) then facts[p] == old(facts)[p] else p == path && facts[p] == info
      ensures Utf8Size(path, 0, |path|) <= PATH_BYTES && path in facts && spelling != path && spelling !in old(spellings) ==>
                if spelling in aliases then spelling in spellings && spellings[spelling] == path else aliasLimit
    {
      hide Heaped, Selected, Utf8Size;
      if Utf8Size(path, 0, |path|) > PATH_BYTES {
        RefuseOverlong();
        return;
      }
      if path !in facts {
        var kept := Admit(path, info);
        if !kept {
          return;
        }
      } else {
        KeptOffered(path);
      }
      if spelling != path && spelling !in spellings {
        if spelling !in aliases {
          aliasLimit := true;
        } else {
          spellings := spellings[spelling := path];
        }
      }
    }
  }

  // ----- resolving a path component by component

  const MAX_HOPS := 40
  const MAX_DEPTH := 64

  datatype Node = Directory | Regular | Other | Link(text: string)

  /** The entries below the root, by their canonical parts; the root itself is a directory. */
  type Tree = map<Parts, Node>

  /** What a lookup finds: an entry below the root (or the root), or the root of the file system. */
  datatype Found = Inside(at: Parts, node: Node) | FilesystemRoot

  datatype Failure = Unsafe | Unavailable | Exhausted

  datatype Resolution = Resolved(path: string, found: Found) | Failed(why: Failure)

  predicate Plain(part: string) { IsName(part) && part != ".." }

  /** Every prefix, the whole included, is a directory. */
  predicate Directories(t: Tree, parts: Parts) {
    forall i :: 0 < i <= |parts| ==> parts[..i] in t && t[parts[..i]] == Directory
  }

  /** Opening the joined path component by component, starting at the root's descriptor. A leading root has the
      empty name, which opens nothing. */
  function Pin(t: Tree, done: Parts): Option<Failure> {
    var parts := Split(Join(done));
    if |parts| > MAX_DEPTH then Some(Exhausted)
    else if (parts != [] && IsRoot(parts[0])) || !Directories(t, parts) then Some(Unavailable)
    else None
  }

  /** The path a link's text stands for: an absolute one must lie below the vault's root and is cut there. */
  function Destination(root: Parts, text: string): Option<string> {
    if !Rooted(text) then Some(text)
    else
      var parts := Split(text);
      if !(root <= parts) then None
      else if root == parts then Some(".")
      else Some(Join(parts[|root|..]))
  }

  /** The resolver's state: components so far, the last one's lookup if just made, links followed. */
  datatype Progress = Progress(done: Parts, info: Option<Found>, hops: nat)

  datatype Walked = Reached(at: Progress) | Stopped(why: Failure)

  /** One component. `Follow` puts the parts of a link's text in front of what is left. */
  datatype Move = Next(at: Progress) | Follow(text: string, at: Progress) | Halt(why: Failure)

  /** A root part names the file system's root whatever directory it is looked up in. */
  function MoveOn(t: Tree, root: Parts, part: string, p: Progress): (m: Move)
    ensures m.Next? ==> m.at.hops == p.hops
    ensures m.Follow? ==> m.at.hops == p.hops + 1 <= MAX_HOPS
  {
    if part == ".." then
      if p.done == [] then Halt(Unsafe) else Next(Progress(p.done[..|p.done| - 1], None, p.hops))
    else if part == "" || part == "." then Next(p)
    else
      match Pin(t, p.done)
      case Some(why) => Halt(why)
      case None =>
        if IsRoot(part) then Next(Progress(p.done + [part], Some(FilesystemRoot), p.hops))
        else LookUp(t, root, part, p)
  }

  function LookUp(t: Tree, root: Parts, part: string, p: Progress): (m: Move)
    ensures m.Next? ==> m.at.hops == p.hops
    ensures m.Follow? ==> m.at.hops == p.hops + 1 <= MAX_HOPS
  {
    var path := Split(Join(p.done)) + [part];
    if path !in t then Halt(Unavailable)
    else if !t[path].Link? then Next(Progress(p.done + [part], Some(Inside(path, t[path])), p.hops))
    else if p.hops + 1 > MAX_HOPS then Halt(Unsafe)
    else
      var text := t[path].text;
      match Destination(root, text)
      case None => Halt(Unsafe)
      case Some(destination) =>
        Follow(Slashed(destination), Progress(if Rooted(text) then [] else p.done, None, p.hops + 1))
  }

  /** The remaining parts, one after the other; it ends because each link uses up a hop. */
  function Walk(t: Tree, root: Parts, todo: Parts, p: Progress): (w: Walked)
    requires p.hops <= MAX_HOPS
    ensures w.Reached? ==> p.hops <= w.at.hops <= MAX_HOPS
    decreases MAX_HOPS - p.hops, |todo|
  {
    if todo == [] then Reached(p)
    else
      match MoveOn(t, root, todo[0], p)
      case Next(at) => Walk(t, root, todo[1..], at)
      case Follow(text, at) => Walk(t, root, Split(text) + todo[1..], at)
      case Halt(why) => Stopped(why)
  }

  /** A path that ended on a `.` or `..` is pinned once more. */
  function Settle(t: Tree, w: Walked): Resolution {
    match w
    case Stopped(why) => Failed(why)
    case Reached(p) =>
      if p.info.Some? then Resolved(Join(p.done), p.info.value)
      else
        match Pin(t, p.done)
        case Some(why) => Failed(why)
        case None => Resolved(Join(p.done), Inside(Split(Join(p.done)), Directory))
  }

  const START := Progress([], None, 0)

  function ResolveSpec(t: Tree, root: Parts, relative: string): Resolution {
    Settle(t, Walk(t, root, Split(relative), START))
  }

  /** A canonical path: plain components, each but the last a directory, and no symbolic link anywhere. */
  ghost predicate Canonical(t: Tree, path: Parts) {
    && (forall i :: 0 <= i < |path| ==> Plain(path[i]))
    && (path != [] ==> Directories(t, path[..|path| - 1]) && path in t && !t[path].Link?)
  }

  function NodeAt(t: Tree, path: Parts): Node
    requires path == [] || path in t
  {
    if path == [] then Directory else t[path]
  }

  /** The last component is a root. */
  predicate AtRoot(done: Parts) { done != [] && IsRoot(done[|done| - 1]) }

  /** The first component is a root. */
  predicate OnRoot(done: Parts) { done != [] && IsRoot(done[0]) }

  /** Components so far: plain names and roots, nothing above a root at the bottom. */
  predicate Stacked(done: Parts) {
    && (forall part <- done :: Plain(part) || IsRoot(part))
    && (|done| > 1 ==> !OnRoot(done))
  }

  /** The names so far are canonical, and a lookup found the entry they name or the root of the file system. */
  ghost predicate Grounded(t: Tree, names: Parts, info: Option<Found>, outside: bool) {
    && Canonical(t, names) && |names| <= MAX_DEPTH + 1
    && (info.Some? ==> info.value == if outside then FilesystemRoot else Inside(names, NodeAt(t, names)))
    && (info.None? || outside ==> Directories(t, names))
  }

  /** What every state of the resolver keeps. */
  ghost predicate Sound(t: Tree, p: Progress) {
    && p.hops <= MAX_HOPS && Stacked(p.done)
    && (if p.info.Some? then p.done != [] else !OnRoot(p.done))
    && Grounded(t, Inner(p.done), p.info, AtRoot(p.done))
  }

  lemma DirectoriesAbove(t: Tree, parts: Parts, n: nat)
    requires Directories(t, parts) && n <= |parts|
    ensures Directories(t, parts[..n])
  {
    assert forall i :: 0 < i <= n ==> parts[..n][..i] == parts[..i];
  }

  lemma CanonicalAbove(t: Tree, path: Parts)
    requires Canonical(t, path) && path != []
    ensures var up := path[..|path| - 1]; Canonical(t, up) && Directories(t, up)
  {
    var up := path[..|path| - 1];
    if up != [] {
      assert up[..|up|] == up;
      DirectoriesAbove(t, up, |up| - 1);
    }
  }

  lemma CanonicalBelow(t: Tree, path: Parts, part: string)
    requires Canonical(t, path) && Directories(t, path) && Plain(part)
    requires path + [part] in t && !t[path + [part]].Link?
    ensures Canonical(t, path + [part])
  {
    assert (path + [part])[..|path|] == path;
  }

  lemma StackedAbove(done: Parts)
    requires Stacked(done) && done != []
    ensures var up := done[..|done| - 1];
            Stacked(up) && !OnRoot(up)
            && if AtRoot(done) then Inner(up) == Inner(done)
               else Inner(done) != [] && Inner(up) == Inner(done)[..|Inner(done)| - 1]
  {
    var up, last := done[..|done| - 1], done[|done| - 1];
    assert done == up + [last];
    InnerStep(up, last);
    assert forall part <- up :: part in done;
  }

  lemma StackedBelow(done: Parts, part: string)
    requires Stacked(done) && !OnRoot(done) && (Plain(part) || IsRoot(part))
    ensures Stacked(done + [part]) && (AtRoot(done + [part]) <==> IsRoot(part))
    ensures Inner(done + [part]) == if IsRoot(part) then Inner(done) else Inner(done) + [part]
  {
    InnerStep(done, part);
  }

  lemma PopKeeps(t: Tree, p: Progress)
    requires Sound(t, p) && p.done != []
    ensures Sound(t, Progress(p.done[..|p.done| - 1], None, p.hops))
  {
    StackedAbove(p.done);
    hide Stacked, Inner, Canonical, Directories, AtRoot, OnRoot;
    if !AtRoot(p.done) {
      CanonicalAbove(t, Inner(p.done));
    }
  }

  lemma PushRootKeeps(t: Tree, part: string, p: Progress)
    requires Sound(t, p) && IsRoot(part) && !OnRoot(p.done) && Directories(t, Inner(p.done))
    ensures Sound(t, Progress(p.done + [part], Some(FilesystemRoot), p.hops))
  {
    StackedBelow(p.done, part);
    hide Stacked, Inner, Canonical, Directories, AtRoot, OnRoot, IsRoot;
  }

  lemma PushNameKeeps(t: Tree, part: string, p: Progress)
    requires Sound(t, p) && Plain(part) && !OnRoot(p.done)
    requires Directories(t, Inner(p.done)) && |Inner(p.done)| <= MAX_DEPTH
    requires var path := Inner(p.done) + [part]; path in t && !t[path].Link?
    ensures var path := Inner(p.done) + [part];
            Sound(t, Progress(p.done + [part], Some(Inside(path, t[path])), p.hops))
  {
    StackedBelow(p.done, part);
    CanonicalBelow(t, Inner(p.done), part);
    hide Stacked, Inner, Canonical, Directories, AtRoot, OnRoot, IsRoot, Plain;
  }

  /** Pinning sees only the names; it refuses a root at the bottom. */
  lemma PinOf(t: Tree, done: Parts)
    requires Stacked(done)
    ensures Pin(t, done) == (if OnRoot(done) then Some(Unavailable)
                             else if |Inner(done)| > MAX_DEPTH then Some(Exhausted)
                             else if !Directories(t, Inner(done)) then Some(Unavailable)
                             else None)
    ensures !OnRoot(done) ==> Split(Join(done)) == Inner(done)
  {
    if OnRoot(done) {
      assert done == [done[0]];
      SplitOfRoot(done[0]);
    } else {
      SplitOfJoined(done);
    }
  }

  lemma MoveIsLookUp(t: Tree, root: Parts, part: string, p: Progress)
    requires Plain(part) && Pin(t, p.done).None?
    ensures MoveOn(t, root, part, p) == LookUp(t, root, part, p)
  {
    hide LookUp, Pin;
  }

  lemma LookUpKeeps(t: Tree, root: Parts, part: string, p: Progress)
    requires Sound(t, p) && Plain(part) && Pin(t, p.done).None?
    ensures var m := LookUp(t, root, part, p); !m.Halt? ==> Sound(t, m.at)
  {
    PinOf(t, p.done);
    hide Join, Split, Pin, Sound, Directories, Destination, Slashed, Inner, Plain, IsRoot;
    var path := Inner(p.done) + [part];
    if path in t && !t[path].Link? {
      PushNameKeeps(t, part, p);
    } else if path in t && p.hops < MAX_HOPS {
      FollowKeeps(t, p);
    }
  }

  lemma MoveKeeps(t: Tree, root: Parts, part: string, p: Progress)
    requires Sound(t, p) && (IsName(part) || IsRoot(part))
    ensures var m := MoveOn(t, root, part, p); !m.Halt? ==> Sound(t, m.at)
  {
    if part == ".." {
      if p.done != [] {
        PopKeeps(t, p);
      }
    } else if Pin(t, p.done).None? {
      PinOf(t, p.done);
      hide Join, Split, Pin, Sound, Directories, LookUp, Inner;
      if IsRoot(part) {
        PushRootKeeps(t, part, p);
      } else {
        MoveIsLookUp(t, root, part, p);
        LookUpKeeps(t, root, part, p);
      }
    }
  }

  lemma FollowKeeps(t: Tree, p: Progress)
    requires Sound(t, p) && p.hops < MAX_HOPS && Directories(t, Inner(p.done)) && !OnRoot(p.done)
    ensures Sound(t, Progress(p.done, None, p.hops + 1)) && Sound(t, Progress([], None, p.hops + 1))
  {
  }

  lemma {:induction false} WalkKeeps(t: Tree, root: Parts, todo: Parts, p: Progress)
    requires p.hops <= MAX_HOPS && Sound(t, p) && Mixed(todo)
    ensures var w := Walk(t, root, todo, p); w.Reached? ==> Sound(t, w.at)
    decreases MAX_HOPS - p.hops, |todo|
  {
    hide Sound, MoveOn, Split, IsName, IsRoot;
    if todo != [] {
      MoveKeeps(t, root, todo[0], p);
      match MoveOn(t, root, todo[0], p)
      case Next(at) => WalkKeeps(t, root, todo[1..], at);
      case Follow(text, at) =>
        SplitIsMixed(text);
        WalkKeeps(t, root, Split(text) + todo[1..], at);
      case Halt(_) =>
    }
  }

  lemma SettledIsFound(t: Tree, p: Progress)
    requires Sound(t, p)
    ensures var r := Settle(t, Reached(p)); r.Resolved? ==>
              r.path == Join(p.done)
              && (r.found == Inside(Inner(p.done), NodeAt(t, Inner(p.done))) || (r.found == FilesystemRoot && AtRoot(p.done)))
              && (OnRoot(p.done) ==> r.found == FilesystemRoot)
  {
    PinOf(t, p.done);
    if OnRoot(p.done) {
      assert p.done == [p.done[0]];
    }
    hide Join, Split, Pin, Inner, Stacked, AtRoot, OnRoot, Directories, NodeAt, IsRoot;
    var names := Inner(p.done);
    if Directories(t, names) {
      DirectoryNode(t, names);
    }
  }

  lemma DirectoryNode(t: Tree, path: Parts)
    requires Directories(t, path)
    ensures path == [] || path in t
    ensures NodeAt(t, path) == Directory
  {
    assert path[..|path|] == path;
  }

  /** The components a resolution ends with. */
  function EndOf(t: Tree, root: Parts, relative: string): Parts {
    var w := Walk(t, root, Split(relative), START);
    if w.Reached? then w.at.done else []
  }

  lemma EndIsFound(t: Tree, root: Parts, relative: string)
    ensures var r, done := ResolveSpec(t, root, relative), EndOf(t, root, relative);
            r.Resolved? ==>
              Stacked(done) && Mixed(done) && r.path == Join(done) && Canonical(t, Inner(done)) && |Inner(done)| <= MAX_DEPTH + 1
              && (r.found == Inside(Inner(done), NodeAt(t, Inner(done))) || (r.found == FilesystemRoot && AtRoot(done)))
              && (OnRoot(done) ==> r.found == FilesystemRoot)
  {
    SplitIsMixed(relative);
    assert Inner([]) == [];
    assert Sound(t, START);
    WalkKeeps(t, root, Split(relative), START);
    hide Walk, Join, Split, Directories, Inner, IsRoot, IsName, OnRoot, Canonical, Settle;
    var w := Walk(t, root, Split(relative), START);
    if w.Reached? {
      SettledIsFound(t, w.at);
    }
  }

  /** Whatever resolves is found at the names of its path, which are canonical, or is the root of the file system;
      the latter only under a path that ends with a slash. */
  lemma ResolvedIsFound(t: Tree, root: Parts, relative: string)
    ensures var r := ResolveSpec(t, root, relative);
            r.Resolved? ==>
              var names := Names(r.path);
              Canonical(t, names) && |names| <= MAX_DEPTH + 1
              && (r.found == Inside(names, NodeAt(t, names))
                  || (r.found == FilesystemRoot && r.path != "" && r.path[|r.path| - 1] == '/'))
  {
    EndIsFound(t, root, relative);
    var r, done := ResolveSpec(t, root, relative), EndOf(t, root, relative);
    hide Join, Inner, Names, Stacked, Canonical, ResolveSpec, EndOf, IsName;
    if r.Resolved? {
      NamesOfJoined(done);
      if AtRoot(done) {
        JoinEnds(done);
      }
    }
  }

  // ----- when the resolver looks outside

  /** What a run looks up and what links it reads, in order. */
  datatype Event = Saw(found: Found) | Read(text: string)

  function Events(m: Move, p: Progress): seq<Event> {
    match m
    case Next(at) => if |at.done| > |p.done| && at.info.Some? then [Saw(at.info.value)] else []
    case Follow(text, _) => [Read(text)]
    case Halt(_) => []
  }

  function Trace(t: Tree, root: Parts, todo: Parts, p: Progress): seq<Event>
    requires p.hops <= MAX_HOPS
    decreases MAX_HOPS - p.hops, |todo|
  {
    if todo == [] then []
    else
      var m := MoveOn(t, root, todo[0], p);
      Events(m, p) +
      match m
      case Next(at) => Trace(t, root, todo[1..], at)
      case Follow(text, at) => Trace(t, root, Split(text) + todo[1..], at)
      case Halt(_) => []
  }

  function TraceOf(t: Tree, root: Parts, relative: string): seq<Event> { Trace(t, root, Split(relative), START) }

  ghost predicate ReadsRooted(events: seq<Event>) { exists e <- events :: e.Read? && Rooted(e.text) }

  /** Roots stand only at the front of what is left, and only where the directory at hand could be pinned. */
  ghost predicate Leading(t: Tree, todo: Parts, p: Progress) {
    && Mixed(todo) && (todo != [] ==> RootFree(todo[1..]))
    && (OnRoot(todo) ==> Pin(t, p.done).None?)
  }

  lemma LeadingNext(t: Tree, text: string, rest: Parts, p: Progress)
    requires Mixed(rest) && RootFree(rest) && Pin(t, p.done).None?
    ensures Leading(t, Split(text) + rest, p)
    ensures OnRoot(Split(text) + rest) <==> Rooted(text)
  {
    SplitIsMixed(text);
    var todo := Split(text) + rest;
    if Split(text) != [] {
      assert todo[1..] == Split(text)[1..] + rest;
    } else {
      assert todo == rest;
      if rest != [] {
        assert rest[0] in rest;
      }
    }
  }

  lemma PinStart(t: Tree)
    ensures Pin(t, []).None?
  {
    SplitOfJoined([]);
  }

  lemma NextLooks(t: Tree, root: Parts, part: string, rest: Parts, p: Progress)
    requires p.hops <= MAX_HOPS && Leading(t, [part] + rest, p) && MoveOn(t, root, part, p).Next?
    ensures var m := MoveOn(t, root, part, p);
            && (Saw(FilesystemRoot) in Events(m, p) <==> IsRoot(part))
            && Leading(t, rest, m.at) && !OnRoot(rest) && !ReadsRooted(Events(m, p))
  {
    assert ([part] + rest)[1..] == rest && ([part] + rest)[0] == part;
    assert Mixed(rest) && RootFree(rest);
    assert rest != [] ==> rest[0] in rest;
    PinStart(t);
    assert IsRoot(part) ==> part != ".." && part != "." && part != "";
    hide Join, Split, Pin, Mixed, Destination, IsRoot, IsName, Slashed;
  }

  lemma FollowLooks(t: Tree, root: Parts, part: string, rest: Parts, p: Progress)
    requires p.hops <= MAX_HOPS && Leading(t, [part] + rest, p) && MoveOn(t, root, part, p).Follow?
    ensures var m := MoveOn(t, root, part, p);
            && (Saw(FilesystemRoot) in Events(m, p) <==> IsRoot(part))
            && Leading(t, Split(m.text) + rest, m.at) && (OnRoot(Split(m.text) + rest) <==> Rooted(m.text))
  {
    assert ([part] + rest)[1..] == rest && ([part] + rest)[0] == part;
    assert Mixed(rest) && RootFree(rest);
    assert rest != [] ==> rest[0] in rest;
    PinStart(t);
    assert IsRoot(part) ==> part != ".." && part != "." && part != "";
    hide Join, Split, Pin, Mixed, Destination, IsRoot, IsName, Slashed;
    var m := MoveOn(t, root, part, p);
    LeadingNext(t, m.text, rest, m.at);
  }

  lemma HaltLooks(t: Tree, root: Parts, part: string, rest: Parts, p: Progress)
    requires p.hops <= MAX_HOPS && Leading(t, [part] + rest, p) && MoveOn(t, root, part, p).Halt?
    ensures Saw(FilesystemRoot) !in Events(MoveOn(t, root, part, p), p) && !IsRoot(part)
  {
    assert ([part] + rest)[1..] == rest && ([part] + rest)[0] == part;
    assert Mixed(rest) && RootFree(rest);
    assert rest != [] ==> rest[0] in rest;
    PinStart(t);
    assert IsRoot(part) ==> part != ".." && part != "." && part != "";
    hide Join, Split, Pin, Mixed, Destination, IsRoot, IsName, Slashed;
  }

  /** A step looks outside exactly when its component is a root, and leaves roots at the front only. */
  lemma StepLooks(t: Tree, root: Parts, part: string, rest: Parts, p: Progress)
    requires p.hops <= MAX_HOPS && Leading(t, [part] + rest, p)
    ensures var m := MoveOn(t, root, part, p);
            && (Saw(FilesystemRoot) in Events(m, p) <==> IsRoot(part))
            && (m.Next? ==> Leading(t, rest, m.at) && !OnRoot(rest) && !ReadsRooted(Events(m, p)))
            && (m.Follow? ==> Leading(t, Split(m.text) + rest, m.at) && (OnRoot(Split(m.text) + rest) <==> Rooted(m.text)))
            && (m.Halt? ==> !IsRoot(part))
  {
    hide *;
    if MoveOn(t, root, part, p).Next? {
      NextLooks(t, root, part, rest, p);
    } else if MoveOn(t, root, part, p).Follow? {
      FollowLooks(t, root, part, rest, p);
    } else {
      HaltLooks(t, root, part, rest, p);
    }
  }

  lemma {:induction false} WalkLooks(t: Tree, root: Parts, todo: Parts, p: Progress)
    requires p.hops <= MAX_HOPS && Leading(t, todo, p)
    ensures var events := Trace(t, root, todo, p);
            Saw(FilesystemRoot) in events <==> OnRoot(todo) || ReadsRooted(events)
    decreases MAX_HOPS - p.hops, |todo|
  {
    if todo != [] {
      var part, rest := todo[0], todo[1..];
      assert todo == [part] + rest;
      StepLooks(t, root, part, rest, p);
      hide MoveOn, Split, Leading, IsRoot, Rooted;
      var m := MoveOn(t, root, part, p);
      match m
      case Next(at) => WalkLooks(t, root, rest, at);
      case Follow(text, at) => WalkLooks(t, root, Split(text) + rest, at);
      case Halt(_) =>
    }
  }

  /** The resolver looks up the root of the file system exactly when the argument or the text of a followed link
      begins, as it is split, with a slash. */
  lemma LooksOutside(t: Tree, root: Parts, relative: string)
    ensures var events := TraceOf(t, root, relative);
            Saw(FilesystemRoot) in events <==> Rooted(relative) || ReadsRooted(events)
  {
    PinStart(t);
    LeadingNext(t, relative, [], START);
    assert Split(relative) + [] == Split(relative);
    WalkLooks(t, root, Split(relative), START);
  }

  /** A link's text is split with a leading slash exactly when what it stands for begins with a backslash: a text
      that is not absolute, or what an absolute one names below the vault's root. */
  lemma RootedIsBackslash(root: Parts, text: string)
    requires OnRoot(root) && Destination(root, text).Some?
    ensures var destination := Destination(root, text).value;
            Rooted(Slashed(destination)) <==> destination != "" && destination[0] == '\\'
  {
    if Rooted(text) && root != Split(text) {
      var below := Split(text)[|root|..];
      assert below[0] == Split(text)[|root|];
      assert forall part <- below :: part in Split(text)[1..];
      SplitIsMixed(text);
      JoinStarts(below);
    }
  }

  lemma StepStaysFree(t: Tree, root: Parts, part: string, rest: Parts, p: Progress)
    requires p.hops <= MAX_HOPS && RootFree(p.done) && RootFree(rest) && !IsRoot(part)
    ensures var m := MoveOn(t, root, part, p);
            && (m.Next? ==> RootFree(m.at.done))
            && (m.Follow? ==> RootFree(m.at.done) && (!Rooted(m.text) ==> RootFree(Split(m.text) + rest)))
  {
    var m := MoveOn(t, root, part, p);
    if m.Follow? {
      SplitIsMixed(m.text);
    }
    hide Join, Split, Pin, Destination, IsRoot;
  }

  lemma {:induction false} WalkStaysFree(t: Tree, root: Parts, todo: Parts, p: Progress)
    requires p.hops <= MAX_HOPS && RootFree(p.done) && RootFree(todo) && !ReadsRooted(Trace(t, root, todo, p))
    ensures var w := Walk(t, root, todo, p); w.Reached? ==> RootFree(w.at.done)
    decreases MAX_HOPS - p.hops, |todo|
  {
    if todo != [] {
      var part, rest := todo[0], todo[1..];
      assert todo == [part] + rest;
      StepStaysFree(t, root, part, rest, p);
      var m := MoveOn(t, root, part, p);
      hide MoveOn, Split, IsRoot, Rooted;
      match m
      case Next(at) =>
        assert forall e <- Trace(t, root, rest, at) :: e in Trace(t, root, todo, p);
        WalkStaysFree(t, root, rest, at);
      case Follow(text, at) =>
        assert Read(text) in Trace(t, root, todo, p);
        assert forall e <- Trace(t, root, Split(text) + rest, at) :: e in Trace(t, root, todo, p);
        WalkStaysFree(t, root, Split(text) + rest, at);
      case Halt(_) =>
    }
  }

  /** If neither the argument nor a followed text begins with a slash when split, whatever resolves is inside the
      root: its path is the joined canonical parts, and it is what the tree holds there. */
  lemma ResolvedIsCanonical(t: Tree, root: Parts, relative: string)
    requires !Rooted(relative) && !ReadsRooted(TraceOf(t, root, relative))
    ensures var r := ResolveSpec(t, root, relative);
            r.Resolved? ==>
              var path := Split(r.path);
              Canonical(t, path) && |path| <= MAX_DEPTH + 1 && r == Resolved(Join(path), Inside(path, NodeAt(t, path)))
  {
    var r, done := ResolveSpec(t, root, relative), EndOf(t, root, relative);
    EndIsFound(t, root, relative);
    SplitIsMixed(relative);
    WalkStaysFree(t, root, Split(relative), START);
    if r.Resolved? {
      assert RootFree(done);
      InnerOfRootFree(done);
      assert done != [] ==> done[0] in done && done[|done| - 1] in done;
      SplitOfJoined(done);
    }
  }

  /** In general a resolved path is canonical, and what it names was found, exactly when splitting and joining gives
      it back and it does not begin with a slash. */
  lemma CanonicalExactly(t: Tree, root: Parts, relative: string)
    ensures var r := ResolveSpec(t, root, relative);
            r.Resolved? ==>
              var names := Names(r.path);
              Canonical(t, names)
              && (r == Resolved(Join(names), Inside(names, NodeAt(t, names))) <==> Join(Split(r.path)) == r.path && !Rooted(r.path))
  {
    var r, done := ResolveSpec(t, root, relative), EndOf(t, root, relative);
    EndIsFound(t, root, relative);
    if r.Resolved? {
      EndsOf(done);
      hide ResolveSpec, EndOf, Join, Split, IsName, Canonical, NodeAt, IsRoot, Mixed, Rooted, Inner, Names, RootFree;
      NamesOfJoined(done);
      Reprints(done);
    }
  }

  lemma EndsOf(done: Parts)
    ensures RootFree(done) ==> !AtRoot(done) && !OnRoot(done)
    ensures |done| == 1 ==> (AtRoot(done) <==> OnRoot(done)) && (RootFree(done) <==> !OnRoot(done))
    ensures Stacked(done) && |done| > 1 ==> !IsRoot(done[0])
  {
    assert done != [] ==> done[0] in done && done[|done| - 1] in done;
    if |done| == 1 {
      assert done == [done[0]];
    }
  }

  // ----- resolving again

  function LookedUp(t: Tree, path: Parts): Option<Found> {
    if path != [] && path in t then Some(Inside(path, t[path])) else None
  }

  lemma PlainIsStacked(t: Tree, path: Parts)
    requires forall i :: 0 <= i < |path| ==> Plain(path[i])
    ensures RootFree(path) && Stacked(path) && Inner(path) == path && Split(Join(path)) == path && !OnRoot(path)
    ensures |path| <= MAX_DEPTH && Directories(t, path) ==> Pin(t, path).None?
  {
    assert forall part <- path :: Plain(part);
    InnerOfRootFree(path);
    assert path != [] ==> path[0] in path;
    PinOf(t, path);
  }

  /** Below a directory that can be pinned, one more name is looked up there. */
  lemma StepDown(t: Tree, root: Parts, path: Parts, n: nat, info: Option<Found>, hops: nat)
    requires n < |path| <= MAX_DEPTH + 1 && hops <= MAX_HOPS
    requires (forall i :: 0 <= i < |path| ==> Plain(path[i])) && Directories(t, path[..|path| - 1])
    ensures var p := Progress(path[..n], info, hops);
            path[..n] + [path[n]] == path[..n + 1] && Split(Join(path[..n])) == path[..n]
            && MoveOn(t, root, path[n], p) == LookUp(t, root, path[n], p)
  {
    hide *;
    var above := path[..|path| - 1];
    DirectoriesAbove(t, above, n);
    assert above[..n] == path[..n];
    PlainIsStacked(t, path[..n]);
    MoveIsLookUp(t, root, path[n], Progress(path[..n], info, hops));
  }

  lemma CanonicalStep(t: Tree, root: Parts, path: Parts, n: nat, hops: nat)
    requires Canonical(t, path) && n < |path| <= MAX_DEPTH + 1 && hops <= MAX_HOPS
    ensures MoveOn(t, root, path[n], Progress(path[..n], LookedUp(t, path[..n]), hops))
         == Next(Progress(path[..n + 1], LookedUp(t, path[..n + 1]), hops))
  {
    StepDown(t, root, path, n, LookedUp(t, path[..n]), hops);
    var above := path[..|path| - 1];
    if n + 1 < |path| {
      assert above[..n + 1] == path[..n + 1];
    }
    assert path[..|path|] == path;
    hide Join, Split, MoveOn;
  }

  /** A canonical path is walked straight down, without a hop. */
  lemma {:induction false} CanonicalWalk(t: Tree, root: Parts, path: Parts, n: nat, hops: nat)
    requires Canonical(t, path) && |path| <= MAX_DEPTH + 1 && n <= |path| && hops <= MAX_HOPS
    ensures Walk(t, root, path[n..], Progress(path[..n], LookedUp(t, path[..n]), hops))
         == Reached(Progress(path, LookedUp(t, path), hops))
    decreases |path| - n
  {
    hide Join, Split, MoveOn, Canonical, LookedUp;
    assert path[..|path|] == path;
    if n < |path| {
      CanonicalStep(t, root, path, n, hops);
      assert path[n..][0] == path[n] && path[n..][1..] == path[n + 1..];
      CanonicalWalk(t, root, path, n + 1, hops);
    }
  }

  /** Printing a canonical path and resolving it finds the entry. */
  lemma CanonicalResolves(t: Tree, root: Parts, path: Parts)
    requires Canonical(t, path) && |path| <= MAX_DEPTH + 1
    ensures Split(Join(path)) == path
    ensures ResolveSpec(t, root, Join(path)) == Resolved(Join(path), Inside(path, NodeAt(t, path)))
  {
    PlainIsStacked(t, path);
    CanonicalWalk(t, root, path, 0, 0);
    assert path[0..] == path && path[..0] == [];
    hide Join, Split, Walk, Pin;
    if path == [] {
      PinStart(t);
    }
  }

  lemma RootResolves(t: Tree, root: Parts, part: string)
    requires IsRoot(part)
    ensures ResolveSpec(t, root, part) == Resolved(part, FilesystemRoot)
  {
    SplitOfRoot(part);
    PinStart(t);
    hide Join, Split, Pin;
    assert Walk(t, root, [], Progress([part], Some(FilesystemRoot), 0)) == Reached(Progress([part], Some(FilesystemRoot), 0));
    assert [] + [part] == [part] && [part][1..] == [];
  }

  /** On an unchanging tree a resolved path resolves to itself exactly when splitting and joining it gives it back. */
  lemma ResolutionIsIdempotent(t: Tree, root: Parts, relative: string)
    ensures var r := ResolveSpec(t, root, relative);
            r.Resolved? ==> (ResolveSpec(t, root, r.path) == r <==> Join(Split(r.path)) == r.path)
  {
    var r, done := ResolveSpec(t, root, relative), EndOf(t, root, relative);
    EndIsFound(t, root, relative);
    if r.Resolved? {
      EndsOf(done);
      Reprints(done);
      if OnRoot(done) {
        assert done == [done[0]];
        SplitOfRoot(done[0]);
        RootResolves(t, root, done[0]);
      } else {
        SplitOfJoined(done);
        hide ResolveSpec, EndOf, Join, Split, IsName, Canonical, NodeAt, IsRoot, Mixed, Inner, RootFree;
        CanonicalResolves(t, root, Inner(done));
      }
    }
  }

  /** In particular when neither the argument nor a followed text begins with a slash when split. */
  lemma CleanResolutionIsIdempotent(t: Tree, root: Parts, relative: string)
    requires !Rooted(relative) && !ReadsRooted(TraceOf(t, root, relative))
    ensures var r := ResolveSpec(t, root, relative); r.Resolved? ==> ResolveSpec(t, root, r.path) == r
  {
    hide *;
    ResolvedIsCanonical(t, root, relative);
    ResolutionIsIdempotent(t, root, relative);
  }

  // ----- which trees can make the resolver look outside

  /** A link that a path of plain names leads to, directory by directory. */
  ghost predicate LinkAt(t: Tree, path: Parts) {
    && path != [] && |path| <= MAX_DEPTH + 1 && (forall i :: 0 <= i < |path| ==> Plain(path[i]))
    && Directories(t, path[..|path| - 1]) && path in t && t[path].Link?
  }

  /** Its text, as it is split, begins with a slash. */
  ghost predicate Slips(t: Tree, root: Parts, path: Parts) {
    LinkAt(t, path) && match Destination(root, t[path].text)
                       case None => false
                       case Some(destination) => Rooted(Slashed(destination))
  }

  lemma FollowsLink(t: Tree, root: Parts, part: string, p: Progress)
    requires IsName(part) || IsRoot(part)
    ensures var m, path := MoveOn(t, root, part, p), Split(Join(p.done)) + [part];
            m.Follow? ==>
              Plain(part) && Pin(t, p.done).None? && path in t && t[path].Link?
              && Destination(root, t[path].text).Some? && m.text == Slashed(Destination(root, t[path].text).value)
  {
    hide Join, Split, Pin, Destination, Slashed;
  }

  lemma LinkBelow(t: Tree, names: Parts, part: string)
    requires Canonical(t, names) && Directories(t, names) && |names| <= MAX_DEPTH && Plain(part)
    requires names + [part] in t && t[names + [part]].Link?
    ensures LinkAt(t, names + [part])
  {
    assert (names + [part])[..|names|] == names;
    hide Plain, Directories;
  }

  /** A link whose text is read is one that its own path leads to. */
  lemma StepReads(t: Tree, root: Parts, part: string, p: Progress)
    requires Sound(t, p) && (IsName(part) || IsRoot(part))
    ensures var m := MoveOn(t, root, part, p);
            m.Follow? && Rooted(m.text) ==> Slips(t, root, Inner(p.done) + [part])
  {
    PinOf(t, p.done);
    FollowsLink(t, root, part, p);
    hide MoveOn, Join, Split, Pin, Destination, Slashed, Rooted, Directories, Canonical, IsName, IsRoot, Plain, Inner,
         Stacked, OnRoot, LinkAt;
    if MoveOn(t, root, part, p).Follow? {
      LinkBelow(t, Inner(p.done), part);
    }
  }

  lemma ReadsInParts(a: seq<Event>, b: seq<Event>)
    ensures ReadsRooted(a + b) <==> ReadsRooted(a) || ReadsRooted(b)
  {
    hide Rooted;
  }

  /** The events of a walk are those of its first step and those of the rest. */
  lemma TraceReads(t: Tree, root: Parts, part: string, rest: Parts, p: Progress)
    requires p.hops <= MAX_HOPS
    ensures var m := MoveOn(t, root, part, p);
            && (m.Next? ==> (ReadsRooted(Trace(t, root, [part] + rest, p)) <==> ReadsRooted(Trace(t, root, rest, m.at))))
            && (m.Follow? ==> (ReadsRooted(Trace(t, root, [part] + rest, p))
                               <==> Rooted(m.text) || ReadsRooted(Trace(t, root, Split(m.text) + rest, m.at))))
            && (m.Halt? ==> !ReadsRooted(Trace(t, root, [part] + rest, p)))
  {
    assert ([part] + rest)[0] == part && ([part] + rest)[1..] == rest;
    var m := MoveOn(t, root, part, p);
    hide MoveOn, Split, Rooted;
    if m.Next? {
      ReadsInParts(Events(m, p), Trace(t, root, rest, m.at));
    } else if m.Follow? {
      ReadsInParts(Events(m, p), Trace(t, root, Split(m.text) + rest, m.at));
      assert Read(m.text) in Events(m, p);
    }
  }

  lemma NoTrace(t: Tree, root: Parts, p: Progress)
    requires p.hops <= MAX_HOPS
    ensures !ReadsRooted(Trace(t, root, [], p))
  {
  }

  lemma MixedTail(part: string, rest: Parts)
    requires Mixed([part] + rest)
    ensures Mixed(rest) && (IsName(part) || IsRoot(part))
  {
    assert part in [part] + rest && forall q <- rest :: q in [part] + rest;
  }

  lemma MixedJoin(text: string, rest: Parts)
    requires Mixed(rest)
    ensures Mixed(Split(text) + rest)
  {
    SplitIsMixed(text);
  }

  lemma {:induction false} WalkReads(t: Tree, root: Parts, todo: Parts, p: Progress) returns (path: Parts)
    requires p.hops <= MAX_HOPS && Sound(t, p) && Mixed(todo) && ReadsRooted(Trace(t, root, todo, p))
    ensures Slips(t, root, path)
    decreases MAX_HOPS - p.hops, |todo|
  {
    hide *;
    path := [];
    if todo == [] {
      NoTrace(t, root, p);
    } else {
      var part, rest := todo[0], todo[1..];
      assert todo == [part] + rest;
      MixedTail(part, rest);
      TraceReads(t, root, part, rest, p);
      StepReads(t, root, part, p);
      MoveKeeps(t, root, part, p);
      match MoveOn(t, root, part, p)
      case Next(at) => path := WalkReads(t, root, rest, at);
      case Follow(text, at) =>
        if Rooted(text) {
          path := Inner(p.done) + [part];
        } else {
          MixedJoin(text, rest);
          path := WalkReads(t, root, Split(text) + rest, at);
        }
      case Halt(_) =>
    }
  }

  /** The last step of the walk down to a link reads its text. */
  lemma LastStepReads(t: Tree, root: Parts, path: Parts, info: Option<Found>)
    requires Slips(t, root, path)
    ensures var m := MoveOn(t, root, path[|path| - 1], Progress(path[..|path| - 1], info, 0));
            m.Follow? && Rooted(m.text)
  {
    var n := |path| - 1;
    StepDown(t, root, path, n, info, 0);
    assert path[..n + 1] == path;
    hide Split, Join, MoveOn, Directories, Destination, Slashed, Rooted, Plain;
  }

  /** Walking down to a link reads its text. */
  lemma {:induction false} WalkReachesLink(t: Tree, root: Parts, path: Parts, n: nat)
    requires Slips(t, root, path) && n < |path|
    ensures ReadsRooted(Trace(t, root, path[n..], Progress(path[..n], LookedUp(t, path[..n]), 0)))
    decreases |path| - n
  {
    var p := Progress(path[..n], LookedUp(t, path[..n]), 0);
    assert path[n..][0] == path[n] && path[n..][1..] == path[n + 1..];
    if n + 1 < |path| {
      StepsDown(t, root, path, n);
      WalkReachesLink(t, root, path, n + 1);
    } else {
      LastStepReads(t, root, path, p.info);
    }
    hide Split, MoveOn, Slips, Rooted, LookedUp;
    var m := MoveOn(t, root, path[n], p);
    if m.Follow? {
      assert Read(m.text) in Events(m, p);
      assert Read(m.text) in Trace(t, root, path[n..], p);
    } else {
      assert m.Next?;
      assert forall e <- Trace(t, root, path[n + 1..], m.at) :: e in Trace(t, root, path[n..], p);
    }
  }

  lemma StepsDown(t: Tree, root: Parts, path: Parts, n: nat)
    requires LinkAt(t, path) && n + 1 < |path|
    ensures MoveOn(t, root, path[n], Progress(path[..n], LookedUp(t, path[..n]), 0))
         == Next(Progress(path[..n + 1], LookedUp(t, path[..n + 1]), 0))
  {
    StepDown(t, root, path, n, LookedUp(t, path[..n]), 0);
    var above := path[..|path| - 1];
    assert above[..n + 1] == path[..n + 1];
    hide Split, Join, MoveOn, Plain;
  }

  /** Some argument without a leading slash makes the resolver look up the root of the file system exactly when the
      tree holds, below directories, a link whose text begins with a slash when split. */
  lemma TreeLooksOutside(t: Tree, root: Parts)
    ensures (exists relative: string :: !Rooted(relative) && Saw(FilesystemRoot) in TraceOf(t, root, relative))
        <==> (exists path: Parts :: Slips(t, root, path))
  {
    hide *;
    if relative: string :| !Rooted(relative) && Saw(FilesystemRoot) in TraceOf(t, root, relative) {
      LooksOutside(t, root, relative);
      var path := SlipOf(t, root, relative);
      assert Slips(t, root, path);
    }
    if path: Parts :| Slips(t, root, path) {
      SlipLooksOutside(t, root, path);
      var relative := Join(path);
      assert !Rooted(relative) && Saw(FilesystemRoot) in TraceOf(t, root, relative);
    }
  }

  lemma SlipOf(t: Tree, root: Parts, relative: string) returns (path: Parts)
    requires ReadsRooted(TraceOf(t, root, relative))
    ensures Slips(t, root, path)
  {
    SplitIsMixed(relative);
    assert Inner([]) == [];
    assert Sound(t, START);
    path := WalkReads(t, root, Split(relative), START);
  }

  lemma SlipLooksOutside(t: Tree, root: Parts, path: Parts)
    requires Slips(t, root, path)
    ensures !Rooted(Join(path)) && Saw(FilesystemRoot) in TraceOf(t, root, Join(path))
  {
    PlainIsStacked(t, path);
    WalkReachesLink(t, root, path, 0);
    assert path[0..] == path && path[..0] == [];
    LooksOutside(t, root, Join(path));
    assert path[0] in path;
    JoinStarts(path);
  }

  // ----- following links

  /** Going on from where a walk led. */
  function Then(t: Tree, root: Parts, w: Walked, rest: Parts): Walked
    requires w.Reached? ==> w.at.hops <= MAX_HOPS
  {
    if w.Stopped? then w else Walk(t, root, rest, w.at)
  }

  /** Walking a path in two parts is walking the first and then, from where that led, the second. */
  lemma {:induction false} WalkInParts(t: Tree, root: Parts, a: Parts, b: Parts, p: Progress)
    requires p.hops <= MAX_HOPS
    ensures Walk(t, root, a + b, p) == Then(t, root, Walk(t, root, a, p), b)
    decreases MAX_HOPS - p.hops, |a|
  {
    hide MoveOn, Split;
    if a == [] {
      assert a + b == b;
    } else {
      assert (a + b)[1..] == a[1..] + b;
      match MoveOn(t, root, a[0], p)
      case Next(at) => WalkInParts(t, root, a[1..], b, at);
      case Follow(text, at) =>
        assert Split(text) + (a[1..] + b) == (Split(text) + a[1..]) + b;
        WalkInParts(t, root, Split(text) + a[1..], b, at);
      case Halt(_) =>
    }
  }

  lemma WalkFollows(t: Tree, root: Parts, part: string, rest: Parts, p: Progress, text: string, at: Progress)
    requires p.hops <= MAX_HOPS && MoveOn(t, root, part, p) == Follow(text, at)
    ensures Walk(t, root, [part] + rest, p) == Walk(t, root, Split(text) + rest, at)
  {
    hide MoveOn, Split;
    assert ([part] + rest)[1..] == rest && ([part] + rest)[0] == part;
  }

  lemma WalkNexts(t: Tree, root: Parts, part: string, rest: Parts, p: Progress, at: Progress)
    requires p.hops <= MAX_HOPS && MoveOn(t, root, part, p) == Next(at)
    ensures Walk(t, root, [part] + rest, p) == Walk(t, root, rest, at)
  {
    hide MoveOn, Split;
    assert ([part] + rest)[1..] == rest && ([part] + rest)[0] == part;
  }

  /** The state a link's text is resolved from: the link's own directory, or the root for an absolute text. */
  function Base(text: string, p: Progress): Progress {
    Progress(if Rooted(text) then [] else p.done, None, p.hops + 1)
  }

  /** A link in a directory that can be pinned. */
  predicate LinkIn(t: Tree, root: Parts, part: string, p: Progress, text: string) {
    && Plain(part) && Pin(t, p.done).None?
    && var path := Split(Join(p.done)) + [part]; path in t && t[path] == Link(text)
  }

  lemma LinkMove(t: Tree, root: Parts, part: string, p: Progress, text: string)
    requires p.hops < MAX_HOPS && LinkIn(t, root, part, p, text) && Destination(root, text).Some?
    ensures MoveOn(t, root, part, p) == Follow(Slashed(Destination(root, text).value), Base(text, p))
  {
    hide Pin, Join, Split, Slashed;
  }

  /** Following a link is resolving what its text stands for from where it starts, and going on from there. */
  lemma LinkIsItsTarget(t: Tree, root: Parts, part: string, rest: Parts, p: Progress, text: string)
    requires p.hops < MAX_HOPS && LinkIn(t, root, part, p, text) && Destination(root, text).Some?
    ensures var target := Split(Slashed(Destination(root, text).value));
            Walk(t, root, [part] + rest, p) == Then(t, root, Walk(t, root, target, Base(text, p)), rest)
  {
    LinkMove(t, root, part, p, text);
    var destination := Slashed(Destination(root, text).value);
    hide *;
    WalkFollows(t, root, part, rest, p, destination, Base(text, p));
    WalkInParts(t, root, Split(destination), rest, Base(text, p));
  }

  /** A link to itself is refused as unsafe, however it is reached. */
  lemma {:induction false} SelfLinkIsUnsafe(t: Tree, root: Parts, part: string, rest: Parts, p: Progress, text: string)
    requires p.hops <= MAX_HOPS && LinkIn(t, root, part, p, text) && !Rooted(text) && Split(Slashed(text)) == [part]
    ensures Walk(t, root, [part] + rest, p) == Stopped(Unsafe)
    decreases MAX_HOPS - p.hops
  {
    assert ([part] + rest)[1..] == rest;
    hide Pin, Join, Split, Slashed;
    if p.hops < MAX_HOPS {
      LinkMove(t, root, part, p, text);
      WalkFollows(t, root, part, rest, p, Slashed(text), Base(text, p));
      SelfLinkIsUnsafe(t, root, part, rest, Progress(p.done, None, p.hops + 1), text);
    }
  }

  /** Stepping onto anything that is not a link and back is no step at all: a file may stand before a `..`. */
  lemma ThereAndBack(t: Tree, root: Parts, part: string, rest: Parts, p: Progress)
    requires p.hops <= MAX_HOPS && Plain(part) && Pin(t, p.done).None?
    requires var path := Split(Join(p.done)) + [part]; path in t && !t[path].Link?
    ensures Walk(t, root, [part, ".."] + rest, p) == Walk(t, root, rest, Progress(p.done, None, p.hops))
  {
    hide Pin, Join, Split;
    var path := Split(Join(p.done)) + [part];
    var at := Progress(p.done + [part], Some(Inside(path, t[path])), p.hops);
    assert MoveOn(t, root, part, p) == Next(at);
    assert at.done[..|at.done| - 1] == p.done;
    assert [part, ".."] + rest == [part] + ([".."] + rest);
    WalkNexts(t, root, part, [".."] + rest, p, at);
    WalkNexts(t, root, "..", rest, at, Progress(p.done, None, p.hops));
  }

  // ----- inputs that meet a slash

  lemma WalkEnds(t: Tree, root: Parts, p: Progress)
    requires p.hops <= MAX_HOPS
    ensures Walk(t, root, [], p) == Reached(p)
  {
  }

  /** A directory of the vault: plain names, and every prefix a directory. */
  ghost predicate DirectoryAt(t: Tree, path: Parts) {
    (forall i :: 0 <= i < |path| ==> Plain(path[i])) && Directories(t, path) && |path| <= MAX_DEPTH
  }

  lemma WalkDown(t: Tree, root: Parts, path: Parts)
    requires DirectoryAt(t, path)
    ensures Walk(t, root, path, START) == Reached(Progress(path, LookedUp(t, path), 0))
    ensures Pin(t, path).None? && Split(Join(path)) == path
  {
    PlainIsStacked(t, path);
    DirectoryIsCanonical(t, path);
    hide *;
    CanonicalWalk(t, root, path, 0, 0);
    assert path[0..] == path && path[..0] == [] && LookedUp(t, []) == None by { StartIsClear(t); }
  }

  lemma StartIsClear(t: Tree)
    ensures LookedUp(t, []) == None
  {
  }

  lemma DirectoryIsCanonical(t: Tree, path: Parts)
    requires DirectoryAt(t, path)
    ensures Canonical(t, path) && NodeAt(t, path) == Directory && |path| <= MAX_DEPTH
  {
    DirectoryNode(t, path);
    if path != [] {
      DirectoriesAbove(t, path, |path| - 1);
    }
  }

  lemma LinkToSlash(t: Tree, root: Parts, part: string, p: Progress, text: string, slash: string)
    requires p.hops < MAX_HOPS && LinkIn(t, root, part, p, text)
    requires !Rooted(text) && IsRoot(slash) && Split(Slashed(text)) == [slash]
    ensures Walk(t, root, [part], p) == Reached(Progress(p.done + [slash], Some(FilesystemRoot), p.hops + 1))
  {
    LinkMove(t, root, part, p, text);
    hide Pin, Join, Split, Slashed, Directories, Walk;
    var at := Progress(p.done + [slash], Some(FilesystemRoot), p.hops + 1);
    assert [part] + [] == [part] && [slash] + [] == [slash];
    WalkFollows(t, root, part, [], p, Slashed(text), Base(text, p));
    assert MoveOn(t, root, slash, Base(text, p)) == Next(at);
    WalkNexts(t, root, slash, [], Base(text, p), at);
    WalkEnds(t, root, at);
  }

  /** In any directory, a link whose text is only a slash when split leads to the root of the file system. */
  lemma BackslashLeavesTheRoot(t: Tree, root: Parts, above: Parts, part: string, text: string, slash: string)
    requires DirectoryAt(t, above) && Plain(part) && above + [part] in t && t[above + [part]] == Link(text)
    requires !Rooted(text) && IsRoot(slash) && Split(Slashed(text)) == [slash]
    ensures ResolveSpec(t, root, Join(above + [part])) == Resolved(Join(above + [slash]), FilesystemRoot)
  {
    PlainIsStacked(t, above + [part]);
    WalkDown(t, root, above);
    hide Join, Split, Slashed, Walk, Pin, DirectoryAt, Plain, IsRoot, Rooted;
    var p := Progress(above, LookedUp(t, above), 0);
    WalkInParts(t, root, above, [part], START);
    LinkToSlash(t, root, part, p, text, slash);
  }

  lemma SplitDropsSlash(above: Parts, slash: string)
    requires (forall i :: 0 <= i < |above| ==> Plain(above[i])) && above != [] && IsRoot(slash)
    ensures Split(Join(above + [slash])) == above
  {
    PlainIsStacked(map[], above);
    StackedBelow(above, slash);
    hide Plain, IsRoot, IsName, Split, Join, Inner;
    SplitOfJoined(above + [slash]);
  }

  /** Below the top of the vault the path this gives is not its own resolution. */
  lemma BackslashMovesAgain(t: Tree, root: Parts, above: Parts, slash: string)
    requires DirectoryAt(t, above) && above != [] && IsRoot(slash)
    ensures ResolveSpec(t, root, Join(above + [slash])) == Resolved(Join(above), Inside(above, Directory))
    ensures Join(above) != Join(above + [slash])
  {
    SplitDropsSlash(above, slash);
    DirectoryIsCanonical(t, above);
    hide Join, Split, Walk, Settle, DirectoryAt, IsRoot;
    CanonicalResolves(t, root, above);
    JoinLonger(above, slash);
  }

  /** A path through a file and back resolves to the file's directory, in every directory of every tree. */
  lemma FileAndBack(t: Tree, root: Parts, above: Parts, file: string)
    requires DirectoryAt(t, above) && Plain(file) && above + [file] in t && t[above + [file]] == Regular
    ensures ResolveSpec(t, root, Join(above + [file, ".."])) == Resolved(Join(above), Inside(above, Directory))
  {
    PlainIsStacked(t, above);
    FileAndBackSplits(above, file);
    hide Join, Split, Walk, Pin, DirectoryAt, IsName, IsRoot, Plain, LookedUp, MoveOn;
    WalkedBack(t, root, above, file);
    WalkEnds(t, root, Progress(above, None, 0));
  }

  lemma WalkedBack(t: Tree, root: Parts, above: Parts, file: string)
    requires DirectoryAt(t, above) && Plain(file) && above + [file] in t && t[above + [file]] == Regular
    ensures Walk(t, root, above + [file, ".."], START) == Walk(t, root, [], Progress(above, None, 0))
  {
    WalkDown(t, root, above);
    hide Join, Split, Walk, Pin, DirectoryAt, Plain, LookedUp, MoveOn;
    var p := Progress(above, LookedUp(t, above), 0);
    WalkInParts(t, root, above, [file, ".."], START);
    ThereAndBack(t, root, file, [], p);
    assert [file, ".."] + [] == [file, ".."];
  }

  lemma FileAndBackSplits(above: Parts, file: string)
    requires (forall i :: 0 <= i < |above| ==> Plain(above[i])) && Plain(file)
    ensures Split(Join(above + [file, ".."])) == above + [file, ".."]
  {
    var path := above + [file, ".."];
    hide IsRoot, Split, Join;
    forall part | part in path
      ensures IsName(part)
    {
    }
    SplitOfNames(path);
  }

  lemma JoinLonger(above: Parts, part: string)
    requires above != []
    ensures |Join(above + [part])| > |Join(above)|
  {
    assert (above + [part])[..|above|] == above;
  }

  /** A lone backslash is such a text. */
  lemma LoneBackslash()
    ensures !Rooted("\\") && Split(Slashed("\\")) == ["/"]
  {
    assert Slashed("\\") == "/";
    SplitOfRoot("/");
  }

  /** Nothing else in the vault: it resolves to the root of the file system. */
  lemma BackslashAtTheTop(root: Parts)
    ensures ResolveSpec(map[["l"] := Link("\\")], root, "l") == Resolved("/", FilesystemRoot)
  {
    var t: Tree := map[["l"] := Link("\\")];
    LoneBackslash();
    hide Split, Slashed, ResolveSpec;
    assert [] + ["l"] == ["l"] && [] + ["/"] == ["/"] && Join(["l"]) == "l" && Join(["/"]) == "/";
    BackslashLeavesTheRoot(t, root, [], "l", "\\", "/");
  }

  /** In a directory `d` it resolves to `d//`, which resolves to `d`. */
  lemma BackslashInDirectory(root: Parts)
    ensures var t: Tree := map[["d"] := Directory, ["d", "l"] := Link("\\")];
            ResolveSpec(t, root, "d/l") == Resolved("d//", FilesystemRoot)
            && ResolveSpec(t, root, "d//") == Resolved("d", Inside(["d"], Directory))
  {
    var t: Tree := map[["d"] := Directory, ["d", "l"] := Link("\\")];
    LoneBackslash();
    JoinTwo("d", "l");
    JoinTwo("d", "/");
    OneDirectory(t, "d");
    assert "d" + "/" + "l" == "d/l" && "d" + "/" + "/" == "d//";
    hide Split, Join, Slashed, ResolveSpec, DirectoryAt, Inner;
    assert ["d"] + ["l"] == ["d", "l"];
    assert Plain("l") && IsRoot("/");
    hide Plain, IsRoot, IsName;
    BackslashLeavesTheRoot(t, root, ["d"], "l", "\\", "/");
    BackslashMovesAgain(t, root, ["d"], "/");
  }

  lemma OneDirectory(t: Tree, name: string)
    requires Plain(name) && [name] in t && t[[name]] == Directory
    ensures DirectoryAt(t, [name])
  {
    assert [name][..1] == [name];
  }

  lemma JoinTwo(a: string, b: string)
    ensures Join([a] + [b]) == a + "/" + b && Join([a]) == a
  {
    assert ([a] + [b])[..1] == [a];
  }

  lemma SlashMoves(t: Tree, root: Parts, slash: string)
    requires IsRoot(slash)
    ensures var at := Progress([slash], Some(FilesystemRoot), 0);
            MoveOn(t, root, slash, START) == Next(at) && MoveOn(t, root, "..", at) == Next(START)
            && Pin(t, [slash]) == Some(Unavailable)
  {
    PinStart(t);
    SplitOfRoot(slash);
    hide Join, Split;
    assert [] + [slash] == [slash] && [slash][..0] == [];
  }

  /** An argument that begins with a slash may come back: a `..` takes the slash off again. */
  lemma SlashedArgument(t: Tree, root: Parts, slash: string, rest: Parts)
    requires IsRoot(slash)
    ensures Walk(t, root, [slash, ".."] + rest, START) == Walk(t, root, rest, START)
  {
    SlashMoves(t, root, slash);
    hide *;
    var at := Progress([slash], Some(FilesystemRoot), 0);
    WalkNexts(t, root, slash, [".."] + rest, START, at);
    WalkNexts(t, root, "..", rest, at, START);
    assert [slash] + ([".."] + rest) == [slash, ".."] + rest;
  }

  /** Otherwise it is the root of the file system that resolves, and nothing below it. */
  lemma SlashedArgumentFails(t: Tree, root: Parts, slash: string, part: string, rest: Parts)
    requires IsRoot(slash) && Plain(part)
    ensures Walk(t, root, [slash], START) == Reached(Progress([slash], Some(FilesystemRoot), 0))
    ensures Walk(t, root, [slash, part] + rest, START) == Stopped(Unavailable)
  {
    SlashMoves(t, root, slash);
    hide *;
    var at := Progress([slash], Some(FilesystemRoot), 0);
    assert [slash] + [] == [slash] && [slash] + ([part] + rest) == [slash, part] + rest;
    WalkNexts(t, root, slash, [], START, at);
    WalkEnds(t, root, at);
    WalkNexts(t, root, slash, [part] + rest, START, at);
    WalkHalts(t, root, part, rest, at, Unavailable);
  }

  lemma WalkHalts(t: Tree, root: Parts, part: string, rest: Parts, p: Progress, why: Failure)
    requires p.hops <= MAX_HOPS && Plain(part) && Pin(t, p.done) == Some(why)
    ensures Walk(t, root, [part] + rest, p) == Stopped(why)
  {
    hide Pin, Join, Split, LookUp;
    assert ([part] + rest)[0] == part;
  }

  /** `resolve` on an unchanging tree: the loop over the components still to do. */
  method Resolve(t: Tree, root: Parts, relative: string) returns (r: Resolution)
    ensures r == ResolveSpec(t, root, relative)
  {
    hide Join, Split, Slashed, Pin, Destination;
    var todo: Parts, done: Parts, info: Option<Found>, hops := Split(relative), [], None, 0;
    while todo != []
      invariant hops <= MAX_HOPS
      invariant Walk(t, root, todo, Progress(done, info, hops)) == Walk(t, root, Split(relative), START)
      decreases MAX_HOPS - hops, |todo|
    {
      var part := todo[0];
      todo := todo[1..];
      if part == ".." {
        if done == [] {
          return Failed(Unsafe);
        }
        done := done[..|done| - 1];
        info := None;
        continue;
      }
      if part == "" || part == "." {
        continue;
      }
      var pinned := Pin(t, done);
      if pinned.Some? {
        return Failed(pinned.value);
      }
      if IsRoot(part) {
        info := Some(FilesystemRoot);
      } else {
        var path := Split(Join(done)) + [part];
        if path !in t {
          return Failed(Unavailable);
        }
        if t[path].Link? {
          hops := hops + 1;
          if hops > MAX_HOPS {
            return Failed(Unsafe);
          }
          var destination := Destination(root, t[path].text);
          if destination.None? {
            return Failed(Unsafe);
          }
          if Rooted(t[path].text) {
            done := [];
          }
          todo := Split(Slashed(destination.value)) + todo;
          info := None;
          continue;
        }
        info := Some(Inside(path, t[path]));
      }
      done := done + [part];
    }
    if info.None? {
      var pinned := Pin(t, done);
      if pinned.Some? {
        return Failed(pinned.value);
      }
      info := Some(Inside(Split(Join(done)), Directory));
    }
    return Resolved(Join(done), info.value);
  }
}

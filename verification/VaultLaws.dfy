/** What the resolver refuses, and why, and where a link leads: stated on the tree and the argument alone. */
module VaultLaws {
  import opened PurePath
  import opened PythonText
  import opened ScopedVault

  /** From a directory of the vault the walk goes on with what follows it in the argument. */
  lemma FromDirectory(t: Tree, root: Parts, above: Parts, rest: Parts)
    requires DirectoryAt(t, above) && forall part <- rest :: IsName(part)
    ensures ResolveSpec(t, root, Join(above + rest)) == Settle(t, Walk(t, root, rest, Progress(above, LookedUp(t, above), 0)))
  {
    assert forall part <- above + rest :: IsName(part) by {
      assert forall part <- above :: Plain(part);
    }
    WalkDown(t, root, above);
    hide Split, Join, Walk, Settle, DirectoryAt, LookedUp, IsName;
    SplitOfNames(above + rest);
    WalkInParts(t, root, above, rest, START);
  }

  lemma Refused(t: Tree, root: Parts, above: Parts, part: string, rest: Parts, why: Failure)
    requires DirectoryAt(t, above) && IsName(part) && forall p <- rest :: IsName(p)
    requires MoveOn(t, root, part, Progress(above, LookedUp(t, above), 0)) == Halt(why)
    ensures ResolveSpec(t, root, Join(above + [part] + rest)) == Failed(why)
  {
    hide Split, Join, DirectoryAt, LookedUp, IsName, MoveOn, ResolveSpec;
    assert above + [part] + rest == above + ([part] + rest);
    FromDirectory(t, root, above, [part] + rest);
    assert ([part] + rest)[1..] == rest;
  }

  /** Nothing leads above the vault's root. */
  lemma NothingAbove(t: Tree, root: Parts, rest: Parts)
    requires forall part <- rest :: IsName(part)
    ensures ResolveSpec(t, root, Join([".."] + rest)) == Failed(Unsafe)
  {
    assert [] + [".."] + rest == [".."] + rest;
    hide Split, Join, ResolveSpec;
    Refused(t, root, [], "..", rest, Unsafe);
  }

  /** In a directory: a name nothing has is unavailable; a link to a place that is not below the vault's root is
      unsafe. Neither depends on what follows in the argument. */
  lemma NotFound(t: Tree, root: Parts, above: Parts, name: string, rest: Parts)
    requires DirectoryAt(t, above) && Plain(name) && forall part <- rest :: IsName(part)
    ensures above + [name] !in t ==> ResolveSpec(t, root, Join(above + [name] + rest)) == Failed(Unavailable)
    ensures above + [name] in t && t[above + [name]].Link? && t[above + [name]].text != "" && t[above + [name]].text[0] == '/'
            && !(root <= Split(t[above + [name]].text)) ==>
              ResolveSpec(t, root, Join(above + [name] + rest)) == Failed(Unsafe)
  {
    WalkDown(t, root, above);
    hide Split, Join, DirectoryAt, ResolveSpec, Walk;
    if above + [name] !in t {
      Refused(t, root, above, name, rest, Unavailable);
    } else if t[above + [name]].Link? && Rooted(t[above + [name]].text) && !(root <= Split(t[above + [name]].text)) {
      Refused(t, root, above, name, rest, Unsafe);
    }
  }

  /** A step onto an entry that is no link. */
  lemma Entered(t: Tree, root: Parts, above: Parts, name: string)
    requires DirectoryAt(t, above) && Plain(name) && above + [name] in t && !t[above + [name]].Link?
    ensures MoveOn(t, root, name, Progress(above, LookedUp(t, above), 0))
         == Next(Progress(above + [name], Some(Inside(above + [name], t[above + [name]])), 0))
  {
    WalkDown(t, root, above);
    hide Split, Join, DirectoryAt, LookedUp, Pin;
  }

  /** Behind an entry that cannot be opened as a directory the walk stops. */
  lemma StoppedThere(t: Tree, root: Parts, above: Parts, entry: string, name: string, rest: Parts, why: Failure)
    requires DirectoryAt(t, above) && Plain(entry) && Plain(name) && forall part <- rest :: IsName(part)
    requires above + [entry] in t && !t[above + [entry]].Link? && Pin(t, above + [entry]) == Some(why)
    ensures ResolveSpec(t, root, Join(above + [entry, name] + rest)) == Failed(why)
  {
    Entered(t, root, above, entry);
    hide Join, Split, DirectoryAt, ResolveSpec, Pin, LookedUp;
    assert above + [entry, name] + rest == above + ([entry, name] + rest);
    FromDirectory(t, root, above, [entry, name] + rest);
    var at := Progress(above + [entry], Some(Inside(above + [entry], t[above + [entry]])), 0);
    assert ([entry, name] + rest)[1..] == [name] + rest;
    assert MoveOn(t, root, name, at) == Halt(why);
    assert ([name] + rest)[1..] == rest;
  }

  /** Nothing is found below what is no directory, and 64 names are as deep as the resolver opens directories. */
  lemma NothingBelow(t: Tree, root: Parts, above: Parts, entry: string, name: string, rest: Parts)
    requires DirectoryAt(t, above) && Plain(entry) && Plain(name) && forall part <- rest :: IsName(part)
    requires above + [entry] in t && !t[above + [entry]].Link?
    ensures |above| < 64 && !t[above + [entry]].Directory? ==>
              ResolveSpec(t, root, Join(above + [entry, name] + rest)) == Failed(Unavailable)
    ensures |above| == 64 ==> ResolveSpec(t, root, Join(above + [entry, name] + rest)) == Failed(Exhausted)
  {
    var path := above + [entry];
    PlainIsStacked(t, path);
    assert path[..|path|] == path;
    hide Join, Split, DirectoryAt, ResolveSpec, Inner, Stacked, IsRoot, RootFree;
    if |above| == 64 {
      StoppedThere(t, root, above, entry, name, rest, Exhausted);
    } else if |above| < 64 && !t[path].Directory? {
      assert !Directories(t, path);
      PinOf(t, path);
      StoppedThere(t, root, above, entry, name, rest, Unavailable);
    }
  }

  lemma NoBackslash(text: string)
    requires '\\' !in text
    ensures Slashed(text) == text
  {
  }

  /** The walk from a link on, while links may be followed: a relative text is walked from the link's own directory, an
      absolute one from the vault's root, once the root's own parts, which it has to begin with, are taken off. */
  lemma LinkFollowed(t: Tree, root: Parts, above: Parts, name: string, rest: Parts, info: Option<Found>, hops: nat,
                     text: string, names: Parts)
    requires DirectoryAt(t, above) && Plain(name) && hops < 40
    requires above + [name] in t && t[above + [name]] == Link(text) && '\\' !in text
    ensures !Rooted(text) ==>
              Walk(t, root, [name] + rest, Progress(above, info, hops)) == Walk(t, root, Split(text) + rest, Progress(above, None, hops + 1))
    ensures Rooted(text) && Split(text) == root + names && (forall part <- names :: IsName(part) && '\\' !in part) ==>
              Walk(t, root, [name] + rest, Progress(above, info, hops)) == Walk(t, root, names + rest, Progress([], None, hops + 1))
  {
    WalkDown(t, root, above);
    var p := Progress(above, info, hops);
    assert ([name] + rest)[1..] == rest && ([name] + rest)[0] == name;
    if !Rooted(text) {
      NoBackslash(text);
      hide Split, Join, DirectoryAt, Pin, Slashed;
      assert MoveOn(t, root, name, p) == Follow(text, Progress(above, None, hops + 1));
    } else if Split(text) == root + names && forall part <- names :: IsName(part) && '\\' !in part {
      var target := if names == [] then "." else Join(names);
      CutTarget(root, text, names);
      hide Split, Join, DirectoryAt, Pin, Slashed, Destination;
      assert MoveOn(t, root, name, p) == Follow(target, Progress([], None, hops + 1));
    }
  }

  lemma CutTarget(root: Parts, text: string, names: Parts)
    requires Rooted(text) && Split(text) == root + names && forall part <- names :: IsName(part) && '\\' !in part
    ensures var target := if names == [] then "." else Join(names);
            Destination(root, text) == Some(target) && Slashed(target) == target && Split(target) == names
  {
    assert (root + names)[|root|..] == names;
    assert names == [] ==> root + names == root;
    if names == [] {
      NoNames();
      NoBackslash(".");
    } else {
      SplitOfNames(names);
      JoinedNames(names);
      NoBackslash(Join(names));
    }
    hide Join, Split, Names;
  }

  lemma {:induction false} JoinedNames(names: Parts)
    requires forall part <- names :: '\\' !in part
    ensures '\\' !in Join(names)
  {
    if |names| > 1 {
      JoinedNames(names[..|names| - 1]);
      assert names[|names| - 1] in names;
    }
  }
}

/** The text of a POSIX path and its parts, as `PurePosixPath` splits it and `"/".join` puts it together. */
module PurePath {
  import opened PythonText

  type Parts = seq<string>

  /** What a leading slash contributes to the parts: one slash, or exactly two. */
  predicate IsRoot(part: string) { part == "/" || part == "//" }

  /** A part that a split can yield besides the root. */
  predicate IsName(part: string) { part != "" && part != "." && '/' !in part }

  predicate Rooted(text: string) { text != "" && text[0] == '/' }

  /** `text.split("/")`. */
  function Pieces(text: string): (r: Parts)
    ensures forall piece <- r :: '/' !in piece
  {
    var i := First(text, 0, |text|, {'/'});
    if i == |text| then [text] else [text[..i]] + Pieces(text[i + 1..])
  }

  function Named(pieces: Parts): (r: Parts)
    requires forall piece <- pieces :: '/' !in piece
    ensures forall part <- r :: IsName(part)
  {
    if pieces == [] then []
    else if IsName(pieces[0]) then [pieces[0]] + Named(pieces[1..])
    else Named(pieces[1..])
  }

  function Names(text: string): (r: Parts)
    ensures forall part <- r :: IsName(part)
  {
    Named(Pieces(text))
  }

  function RootOf(text: string): (r: Parts)
    ensures if Rooted(text) then |r| == 1 && IsRoot(r[0]) else r == []
  {
    if !Rooted(text) then []
    else if |text| > 1 && text[1] == '/' && (|text| == 2 || text[2] != '/') then ["//"]
    else ["/"]
  }

  /** `PurePosixPath(text).parts`. */
  function Split(text: string): (r: Parts)
    ensures Rooted(text) <==> r != [] && IsRoot(r[0])
    ensures forall i :: 0 <= i < |r| ==> IsName(r[i]) || (i == 0 && IsRoot(r[i]))
  {
    var names := Names(text);
    assert forall i :: 0 <= i < |names| ==> names[i] in names;
    RootOf(text) + names
  }

  /** `"/".join(parts)`. */
  function Join(parts: Parts): string {
    if parts == [] then ""
    else if |parts| == 1 then parts[0]
    else Join(parts[..|parts| - 1]) + "/" + parts[|parts| - 1]
  }

  /** `text.replace("\\", "/")`. */
  function Slashed(text: string): (r: string)
    ensures |r| == |text|
  {
    seq(|text|, i requires 0 <= i < |text| => if text[i] == '\\' then '/' else text[i])
  }

  /** The parts that are not a root. */
  function Inner(parts: Parts): (r: Parts)
    ensures |r| <= |parts|
    ensures forall part <- r :: part in parts && !IsRoot(part)
  {
    if parts == [] then []
    else
      var last := parts[|parts| - 1];
      Inner(parts[..|parts| - 1]) + if IsRoot(last) then [] else [last]
  }

  /** What joining and splitting is about: names, and roots among them. */
  predicate Mixed(parts: Parts) { forall part <- parts :: IsName(part) || IsRoot(part) }

  predicate RootFree(parts: Parts) { forall part <- parts :: !IsRoot(part) }

  lemma {:induction false} InnerOfRootFree(parts: Parts)
    requires RootFree(parts)
    ensures Inner(parts) == parts
  {
    if parts != [] {
      InnerOfRootFree(parts[..|parts| - 1]);
      assert parts == parts[..|parts| - 1] + [parts[|parts| - 1]];
    }
  }

  lemma InnerStep(parts: Parts, last: string)
    ensures Inner(parts + [last]) == Inner(parts) + if IsRoot(last) then [] else [last]
  {
    assert (parts + [last])[..|parts|] == parts;
  }

  lemma {:induction false} PiecesOfBoth(x: string, y: string)
    ensures Pieces(x + "/" + y) == Pieces(x) + Pieces(y)
    decreases |x|
  {
    var text, i := x + "/" + y, First(x, 0, |x|, {'/'});
    assert forall k :: 0 <= k < |x| ==> text[k] == x[k];
    FirstIs(text, 0, |text|, {'/'}, i);
    assert text[..i] == x[..i];
    if i == |x| {
      assert text[i + 1..] == y && x[..i] == x;
    } else {
      assert text[i + 1..] == x[i + 1..] + "/" + y;
      PiecesOfBoth(x[i + 1..], y);
    }
  }

  lemma {:induction false} NamedOfBoth(a: Parts, b: Parts)
    requires forall piece <- a + b :: '/' !in piece
    ensures Named(a + b) == Named(a) + Named(b)
  {
    if a == [] {
      assert a + b == b;
    } else {
      assert (a + b)[1..] == a[1..] + b;
      NamedOfBoth(a[1..], b);
    }
  }

  lemma NamesOfBoth(x: string, y: string)
    ensures Names(x + "/" + y) == Names(x) + Names(y)
  {
    PiecesOfBoth(x, y);
    NamedOfBoth(Pieces(x), Pieces(y));
  }

  lemma NamesOfOne(part: string)
    requires IsName(part) || IsRoot(part)
    ensures Names(part) == if IsRoot(part) then [] else [part]
  {
    if IsName(part) {
      FirstIs(part, 0, |part|, {'/'}, |part|);
      assert Pieces(part) == [part];
      assert Named([part]) == [part] + Named([]);
    } else {
      assert Pieces("") == [""];
      assert "/"[1..] == "" && "/"[..0] == "";
      assert Pieces("/") == [""] + Pieces("");
      assert Named(["", ""]) == Named([""]) == [];
      if part == "//" {
        assert "//"[1..] == "/" && "//"[..0] == "";
        assert Pieces("//") == [""] + Pieces("/");
        assert Named(["", "", ""]) == Named(["", ""]);
      }
    }
  }

  lemma {:induction false} NamesOfJoined(parts: Parts)
    requires Mixed(parts)
    ensures Names(Join(parts)) == Inner(parts)
  {
    if parts == [] {
      assert Pieces("") == [""] && Named([""]) == [];
    } else {
      var front, last := parts[..|parts| - 1], parts[|parts| - 1];
      NamesOfOne(last);
      if front != [] {
        NamesOfJoined(front);
        NamesOfBoth(Join(front), last);
      }
    }
  }

  lemma {:induction false} JoinStarts(parts: Parts)
    requires Mixed(parts) && parts != []
    ensures parts[0] != "" && Join(parts) != "" && Join(parts)[0] == parts[0][0]
  {
    assert parts[0] in parts;
    if |parts| > 1 {
      JoinStarts(parts[..|parts| - 1]);
    }
  }

  /** Splitting what was joined gives the names back: roots further in are lost, a leading name hides none. */
  lemma SplitOfJoined(parts: Parts)
    requires Mixed(parts) && (parts == [] || !IsRoot(parts[0]))
    ensures Split(Join(parts)) == Inner(parts)
  {
    NamesOfJoined(parts);
    if parts != [] {
      JoinStarts(parts);
    }
  }

  lemma SplitOfRoot(part: string)
    requires IsRoot(part)
    ensures Split(part) == [part] && Join([part]) == part
  {
    NamesOfOne(part);
  }

  lemma {:induction false} JoinShrinks(parts: Parts)
    requires Mixed(parts)
    ensures |Join(Inner(parts))| <= |Join(parts)|
    ensures |parts| > 1 && !RootFree(parts) ==> |Join(Inner(parts))| < |Join(parts)|
  {
    if parts != [] {
      var front, last := parts[..|parts| - 1], parts[|parts| - 1];
      JoinShrinks(front);
      assert parts == front + [last];
      if IsRoot(last) {
        assert Inner(parts) == Inner(front);
      } else if Inner(front) == [] {
        assert Inner(parts) == [last];
      } else {
        var inner := Inner(parts);
        assert inner == Inner(front) + [last] && inner[..|inner| - 1] == Inner(front);
        if |front| == 1 {
          assert RootFree(front) by { assert Inner(front[..0]) == []; }
        }
      }
    }
  }

  lemma JoinEnds(parts: Parts)
    requires Mixed(parts) && parts != []
    ensures Join(parts) != ""
    ensures Join(parts)[|Join(parts)| - 1] == '/' <==> IsRoot(parts[|parts| - 1])
  {
    var last := parts[|parts| - 1];
    assert last in parts;
    if IsName(last) {
      assert last[|last| - 1] in last;
    }
  }

  lemma SplitIsMixed(text: string)
    ensures Mixed(Split(text))
    ensures !Rooted(text) ==> RootFree(Split(text))
    ensures Rooted(text) ==> RootFree(Split(text)[1..])
  {
  }

  lemma {:induction false} InnerIsRootFree(parts: Parts)
    ensures RootFree(Inner(parts)) && (Inner(parts) == parts <==> RootFree(parts))
  {
    if RootFree(parts) {
      InnerOfRootFree(parts);
    }
  }

  lemma NameIsNoRoot(part: string)
    requires IsName(part)
    ensures !IsRoot(part)
  {
  }

  /** Joined names split into the same names. */
  lemma SplitOfNames(parts: Parts)
    requires forall part <- parts :: IsName(part)
    ensures Split(Join(parts)) == parts
  {
    hide IsName, IsRoot, Split, Join;
    forall part | part in parts
      ensures !IsRoot(part)
    {
      NameIsNoRoot(part);
    }
    InnerOfRootFree(parts);
    SplitOfJoined(parts);
  }

  lemma ReprintsRoot(part: string)
    requires IsRoot(part)
    ensures Join(Split(Join([part]))) == Join([part]) && Rooted(Join([part])) && Join(Inner([part])) != Join([part])
  {
    SplitOfRoot(part);
    InnerStep([], part);
    assert [] + [part] == [part];
  }

  lemma ReprintsNames(parts: Parts)
    requires Mixed(parts) && (parts == [] || !IsRoot(parts[0]))
    ensures Join(Split(Join(parts))) == Join(parts) <==> RootFree(parts)
    ensures !Rooted(Join(parts)) && (Join(Inner(parts)) == Join(parts) <==> RootFree(parts))
  {
    SplitOfJoined(parts);
    InnerIsRootFree(parts);
    JoinShrinks(parts);
    if parts != [] {
      JoinStarts(parts);
      assert parts[0] in parts;
    }
    if |parts| == 1 {
      assert parts == [parts[0]];
    }
    hide Join, Split, Inner;
  }

  /** Splitting and joining what was joined gives it back exactly when no root stands among the names, or alone. */
  lemma Reprints(parts: Parts)
    requires Mixed(parts) && (|parts| > 1 ==> !IsRoot(parts[0]))
    ensures Join(Split(Join(parts))) == Join(parts) <==> RootFree(parts) || |parts| == 1
    ensures Rooted(Join(parts)) <==> parts != [] && IsRoot(parts[0])
    ensures Join(Inner(parts)) == Join(parts) <==> RootFree(parts)
  {
    hide Join, Split, Inner, IsRoot, IsName, Rooted;
    if parts != [] && IsRoot(parts[0]) {
      assert parts == [parts[0]] && parts[0] in parts;
      ReprintsRoot(parts[0]);
    } else {
      ReprintsNames(parts);
      if |parts| == 1 {
        assert parts == [parts[0]];
      }
    }
  }

  // ----- texts that split into what stands between their slashes

  /** No leading, trailing or doubled slash, and no dot standing alone between slashes. */
  predicate Tidy(text: string) {
    && text != "" && text[0] != '/'
    && (text[0] == '.' ==> |text| > 1 && text[1] != '/')
    && forall k: nat :: k < |text| ==> TidyAt(text, k)
  }

  predicate TidyAt(text: string, k: nat)
    requires k < |text|
  {
    text[k] == '/' ==>
      k + 1 < |text| && text[k + 1] != '/' && (text[k + 1] == '.' ==> k + 2 < |text| && text[k + 2] != '/')
  }

  lemma TidyTail(text: string, i: nat)
    requires Tidy(text) && i < |text| && text[i] == '/'
    ensures Tidy(text[i + 1..])
  {
    var rest := text[i + 1..];
    assert TidyAt(text, i);
    forall k: nat | k < |rest| ensures TidyAt(rest, k) {
      assert TidyAt(text, i + 1 + k);
    }
  }

  lemma FirstPieceIsName(text: string)
    requires Tidy(text)
    ensures IsName(text[..First(text, 0, |text|, {'/'})])
  {
    var i := First(text, 0, |text|, {'/'});
    assert i > 0 && text[..i][0] == text[0];
    assert i == 1 ==> TidyAt(text, 0);
  }

  lemma {:induction false} TidyPieces(text: string)
    requires Tidy(text)
    ensures Split(text) == Pieces(text)
    decreases |text|
  {
    var i := First(text, 0, |text|, {'/'});
    FirstPieceIsName(text);
    if i < |text| {
      TidyTail(text, i);
      TidyPieces(text[i + 1..]);
    } else {
      assert text[..i] == text;
      assert Named([text]) == [text] + Named([]);
    }
  }

  lemma PrefixOfMore(a: string, p: Parts, b: string, f: Parts)
    ensures |[b] + f| < |[a] + p| && ([a] + p)[..|[b] + f|] == [b] + f <==> a == b && |f| < |p| && p[..|f|] == f
  {
    if |f| < |p| {
      assert ([a] + p)[..|[b] + f|] == [a] + p[..|f|];
      assert ([a] + p[..|f|])[1..] == p[..|f|] && ([b] + f)[1..] == f;
    }
  }

  /** The path begins with the folder and a slash. */
  predicate Begins(path: string, folder: string) {
    |folder| < |path| && path[..|folder|] == folder && path[|folder|] == '/'
  }

  lemma BeginsChars(path: string, folder: string)
    requires Begins(path, folder)
    ensures forall k :: 0 <= k < |folder| ==> path[k] == folder[k]
  {
    assert forall k :: 0 <= k < |folder| ==> path[..|folder|][k] == path[k];
  }

  /** Both texts have the same first piece, and the rest begins alike. */
  lemma BeginsInPieces(path: string, folder: string)
    requires Begins(path, folder)
    ensures var i, j := First(path, 0, |path|, {'/'}), First(folder, 0, |folder|, {'/'});
            && i < |path| && i == j && path[..i] == folder[..j]
            && (j < |folder| ==> Begins(path[i + 1..], folder[j + 1..]))
  {
    var j := First(folder, 0, |folder|, {'/'});
    BeginsChars(path, folder);
    FirstIs(path, 0, |path|, {'/'}, j);
    if j < |folder| {
      assert path[j + 1..][..|folder| - j - 1] == path[..|folder|][j + 1..];
    }
  }

  lemma PiecesBegin(path: string, i: nat, folder: string, j: nat)
    requires i < |path| && path[i] == '/' && j < |folder| && folder[j] == '/'
    requires path[..i] == folder[..j] && Begins(path[i + 1..], folder[j + 1..])
    ensures Begins(path, folder)
  {
    assert i == |path[..i]| == j;
    assert path[..|folder|] == path[..i] + [path[i]] + path[i + 1..][..|folder| - j - 1];
    assert folder == folder[..j] + [folder[j]] + folder[j + 1..];
  }

  lemma OnePiece(path: string, folder: string)
    requires '/' !in folder
    ensures |Pieces(folder)| < |Pieces(path)| && Pieces(path)[..|Pieces(folder)|] == Pieces(folder) <==> Begins(path, folder)
  {
    var i := First(path, 0, |path|, {'/'});
    FirstIs(folder, 0, |folder|, {'/'}, |folder|);
    assert Pieces(folder) == [folder];
    if Begins(path, folder) {
      BeginsInPieces(path, folder);
    }
    if i < |path| {
      assert Pieces(path)[..1] == [path[..i]];
    }
  }

  /** The pieces of a text begin with those of another exactly when the text begins with it and a slash. */
  lemma {:induction false} PiecesPrefix(path: string, folder: string)
    ensures |Pieces(folder)| < |Pieces(path)| && Pieces(path)[..|Pieces(folder)|] == Pieces(folder) <==> Begins(path, folder)
    decreases |folder|
  {
    var i, j := First(path, 0, |path|, {'/'}), First(folder, 0, |folder|, {'/'});
    if j == |folder| {
      OnePiece(path, folder);
    } else if i == |path| {
      if Begins(path, folder) {
        BeginsInPieces(path, folder);
      }
    } else {
      var p, f := Pieces(path[i + 1..]), Pieces(folder[j + 1..]);
      PiecesPrefix(path[i + 1..], folder[j + 1..]);
      PrefixOfMore(path[..i], p, folder[..j], f);
      if Begins(path, folder) {
        BeginsInPieces(path, folder);
      }
      if path[..i] == folder[..j] && Begins(path[i + 1..], folder[j + 1..]) {
        PiecesBegin(path, i, folder, j);
      }
      assert Pieces(path) == [path[..i]] + p && Pieces(folder) == [folder[..j]] + f;
      hide Pieces, Begins;
    }
  }

  /** A doubled slash, a dot between slashes and a slash at the end add no name. */
  lemma RespelledNames(x: string, y: string)
    ensures Names(x + "//" + y) == Names(x + "/./" + y) == Names(x + "/" + y) && Names(x + "/") == Names(x)
  {
    hide Names, Pieces, Named;
    NamesOfBoth(x, y);
    assert x + "//" + y == x + "/" + ("/" + y) && "/" + y == "" + "/" + y;
    NamesOfBoth(x, "/" + y);
    NamesOfBoth("", y);
    assert x + "/./" + y == x + "/" + ("./" + y) && "./" + y == "." + "/" + y;
    NamesOfBoth(x, "./" + y);
    NamesOfBoth(".", y);
    assert x + "/" == x + "/" + "";
    NamesOfBoth(x, "");
    NoNames();
  }

  lemma NoNames()
    ensures Names("") == [] && Names(".") == []
  {
    assert Pieces("") == [""] && Named([""]) == Named([]);
    assert Pieces(".") == ["."] && Named(["."]) == Named([]);
  }
}

/** Fenced code by the text alone: which lines stand in a block, and that the links of a text are the links of its
    other lines. Nothing here speaks of the state the parsers carry from line to line. */
module FencedCode {
  import opened PythonText
  import opened LinkGrammar
  import opened LinkRefinement

  predicate StartsLine(t: string, s: nat) {
    s <= |t| && (s > 0 ==> t[s - 1] in BREAKS)
  }

  /** The line t[s..e] begins with at most three blanks and t[p..q], a whole run of three or more backticks or tildes. */
  predicate Marks(t: string, s: nat, e: nat, p: nat, q: nat)
    requires e <= |t|
  {
    && s <= p < q <= e && p - s <= 3 && q - p >= 3
    && (forall k :: s <= k < p ==> t[k] == ' ' || t[k] == '\t')
    && (t[p] == '`' || t[p] == '~')
    && (forall k :: p <= k < q ==> t[k] == t[p])
    && (q < e ==> t[q] != t[p])
  }

  /** The line at c ends a block that was opened with `length` markers: its run is of the same marker, no shorter, and
      only white space follows it. */
  ghost predicate Closes(t: string, c: nat, marker: char, length: nat)
    requires c <= |t|
  {
    var e := LineEnd(t, c);
    exists p: nat, q: nat :: Marks(t, c, e, p, q) && t[p] == marker && q - p >= length && forall k :: q <= k < e ==> IsSpace(t[k])
  }

  /** The line at o opens a block, and no line between it and the line at s closes that block. */
  ghost predicate OpenSince(t: string, o: nat, p: nat, q: nat, s: nat)
    requires s <= |t|
    decreases s, 0
  {
    && o < s && StartsLine(t, o) && Marks(t, o, LineEnd(t, o), p, q) && !InCode(t, o)
    && forall c: nat :: o < c < s && StartsLine(t, c) ==> !Closes(t, c, t[p], q - p)
  }

  /** The line at s stands in a block: an earlier line, not itself in code, opened one, and none between closed it. */
  ghost predicate InCode(t: string, s: nat)
    requires s <= |t|
    decreases s, 1
  {
    exists o: nat, p: nat, q: nat :: OpenSince(t, o, p, q, s)
  }

  /** The line at s is read for links: it neither stands in code nor opens a block. */
  ghost predicate Plain(t: string, s: nat)
    requires s <= |t|
  {
    !InCode(t, s) && forall p: nat, q: nat :: !Marks(t, s, LineEnd(t, s), p, q)
  }

  // ----- the fence test by the text

  lemma IndentIs(t: string, s: nat, e: nat, p: nat, k: nat)
    requires s <= p <= e <= |t| && p - s <= k
    requires forall j :: s <= j < p ==> t[j] == ' ' || t[j] == '\t'
    requires p < e && t[p] != ' ' && t[p] != '\t'
    ensures Indent(t, s, e, k) == p
    decreases k
  {
    if s < p {
      IndentIs(t, s + 1, e, p, k - 1);
    }
  }

  lemma {:induction false} IndentBlanks(t: string, s: nat, e: nat, k: nat)
    requires s <= e <= |t|
    ensures Indent(t, s, e, k) - s <= k
    ensures forall j :: s <= j < Indent(t, s, e, k) ==> t[j] == ' ' || t[j] == '\t'
    decreases k
  {
    if k > 0 && s < e && (t[s] == ' ' || t[s] == '\t') {
      IndentBlanks(t, s + 1, e, k - 1);
    }
  }

  lemma MarkedFence(t: string, s: nat, e: nat, p: nat, q: nat)
    requires e <= |t| && Marks(t, s, e, p, q)
    ensures FenceAt(t, s, e) == Some((Fence(t[p], q - p), forall k :: q <= k < e ==> IsSpace(t[k])))
    ensures p == Indent(t, s, e, 3)
  {
    IndentIs(t, s, e, p, 3);
    var r := RunEnd(t, p, e, t[p]);
    assert r == q;
    var a := StripStart(t, q, e);
    assert Strip(t, q, e) == "" <==> a == e;
  }

  lemma FenceMarks(t: string, s: nat, e: nat)
    requires s <= e <= |t| && FenceAt(t, s, e).Some?
    ensures exists p: nat, q: nat :: Marks(t, s, e, p, q)
  {
    hide Strip;
    IndentBlanks(t, s, e, 3);
    var p := Indent(t, s, e, 3);
    assert Marks(t, s, e, p, RunEnd(t, p, e, t[p]));
  }

  // ----- the state carried from line to line

  /** `fence` is the block the line at s stands in, if it stands in one. */
  ghost predicate Tracks(t: string, s: nat, fence: Option<Fence>)
    requires s <= |t|
  {
    match fence
    case None => !InCode(t, s)
    case Some(f) => exists o: nat, p: nat, q: nat :: OpenSince(t, o, p, q, s) && f == Fence(t[p], q - p)
  }

  lemma OpenBetween(t: string, o: nat, p: nat, q: nat, c: nat, s: nat)
    requires s <= |t| && OpenSince(t, o, p, q, s) && o < c <= s
    ensures InCode(t, c)
  {
    hide Closes;
    assert OpenSince(t, o, p, q, c);
  }

  /** A line stands in at most one block. */
  lemma OneBlock(t: string, s: nat, a: nat, p: nat, q: nat, b: nat, x: nat, y: nat)
    requires s <= |t| && OpenSince(t, a, p, q, s) && OpenSince(t, b, x, y, s)
    ensures a == b && p == x && q == y
  {
    hide Closes;
    if a < b {
      OpenBetween(t, a, p, q, b, s);
    } else if b < a {
      OpenBetween(t, b, x, y, a, s);
    } else {
      MarkedFence(t, a, LineEnd(t, a), p, q);
      MarkedFence(t, a, LineEnd(t, a), x, y);
    }
  }

  lemma NotYetInCode(t: string)
    ensures !InCode(t, 0)
  {
  }

  lemma InsideLine(t: string, s: nat, o: nat)
    requires s <= |t| && s < o <= LineEnd(t, s)
    ensures !StartsLine(t, o)
  {
    assert s <= o - 1 < LineEnd(t, s);
  }

  lemma StartsNext(t: string, s: nat)
    requires s <= |t| && LineEnd(t, s) < |t|
    ensures StartsLine(t, LineEnd(t, s) + 1)
    ensures forall o: nat :: StartsLine(t, o) && s <= o <= LineEnd(t, s) ==> o == s
  {
    forall o: nat | s < o <= LineEnd(t, s) ensures !StartsLine(t, o) {
      InsideLine(t, s, o);
    }
  }

  /** A line that does not close the block leaves it open. */
  lemma StaysOpen(t: string, o: nat, p: nat, q: nat, s: nat)
    requires s <= |t| && LineEnd(t, s) < |t| && StartsLine(t, s) && OpenSince(t, o, p, q, s)
    requires !Closes(t, s, t[p], q - p)
    ensures OpenSince(t, o, p, q, LineEnd(t, s) + 1)
  {
    hide Closes, InCode;
    StartsNext(t, s);
    hide StartsLine;
    var n := LineEnd(t, s) + 1;
    forall c: nat | o < c < n && StartsLine(t, c) ensures !Closes(t, c, t[p], q - p) {
      assert c < s || c == s;
    }
  }

  /** What is open after a line was open before it, or was opened by it. */
  lemma OpenBefore(t: string, o: nat, p: nat, q: nat, s: nat)
    requires s <= |t| && LineEnd(t, s) < |t| && StartsLine(t, s) && OpenSince(t, o, p, q, LineEnd(t, s) + 1)
    ensures o == s || (o < s && OpenSince(t, o, p, q, s) && !Closes(t, s, t[p], q - p))
  {
    hide Closes, Marks, InCode;
    StartsNext(t, s);
  }

  lemma StaysPlain(t: string, s: nat)
    requires s <= |t| && LineEnd(t, s) < |t| && StartsLine(t, s) && Plain(t, s)
    ensures !InCode(t, LineEnd(t, s) + 1)
  {
    hide StartsLine, Closes, Marks;
    var n := LineEnd(t, s) + 1;
    if o: nat, p: nat, q: nat :| OpenSince(t, o, p, q, n) {
      OpenBefore(t, o, p, q, s);
    }
  }

  /** The fence state the parsers compute for the next line is the block that line stands in. */
  lemma PlainStep(t: string, s: nat, fence: Option<Fence>)
    requires s <= |t| && LineEnd(t, s) < |t| && StartsLine(t, s) && Tracks(t, s, fence)
    requires FenceAt(t, s, LineEnd(t, s)).None?
    ensures Tracks(t, LineEnd(t, s) + 1, fence)
  {
    hide FenceAt, StartsLine, InCode;
    var e := LineEnd(t, s);
    forall p: nat, q: nat | Marks(t, s, e, p, q) ensures false {
      MarkedFence(t, s, e, p, q);
    }
    if fence.Some? {
      var o: nat, p: nat, q: nat :| OpenSince(t, o, p, q, s) && fence.value == Fence(t[p], q - p);
      StaysOpen(t, o, p, q, s);
    } else {
      StaysPlain(t, s);
    }
  }

  lemma FenceStep(t: string, s: nat, fence: Option<Fence>)
    requires s <= |t| && LineEnd(t, s) < |t| && StartsLine(t, s) && Tracks(t, s, fence)
    requires FenceAt(t, s, LineEnd(t, s)).Some?
    ensures Tracks(t, LineEnd(t, s) + 1, AfterFence(fence, FenceAt(t, s, LineEnd(t, s)).value))
  {
    hide FenceAt, StartsLine, InCode, OpenSince, Closes;
    var e := LineEnd(t, s);
    FenceMarks(t, s, e);
    var p: nat, q: nat :| Marks(t, s, e, p, q);
    MarkedFence(t, s, e, p, q);
    if fence.None? {
      OpensHere(t, s, p, q);
    } else {
      BlockStep(t, s, p, q, fence.value);
    }
  }

  /** In a block, a marker line closes it or leaves it as it was. */
  lemma BlockStep(t: string, s: nat, p: nat, q: nat, f: Fence)
    requires s <= |t| && LineEnd(t, s) < |t| && StartsLine(t, s) && Tracks(t, s, Some(f))
    requires Marks(t, s, LineEnd(t, s), p, q)
    ensures Tracks(t, LineEnd(t, s) + 1,
              if t[p] == f.marker && q - p >= f.length && forall k :: q <= k < LineEnd(t, s) ==> IsSpace(t[k]) then None else Some(f))
  {
    hide StartsLine, InCode, Closes;
    var n := LineEnd(t, s) + 1;
    var o: nat, x: nat, y: nat :| OpenSince(t, o, x, y, s) && f == Fence(t[x], y - x);
    ClosesByText(t, s, p, q, t[x], y - x);
    if Closes(t, s, t[x], y - x) {
      ClosedHere(t, s, o, x, y);
    } else {
      StaysOpen(t, o, x, y, s);
      assert OpenSince(t, o, x, y, n);
    }
  }

  lemma OpensHere(t: string, s: nat, p: nat, q: nat)
    requires s <= |t| && LineEnd(t, s) < |t| && StartsLine(t, s) && !InCode(t, s) && Marks(t, s, LineEnd(t, s), p, q)
    ensures OpenSince(t, s, p, q, LineEnd(t, s) + 1)
  {
    hide Closes, Marks, InCode;
    StartsNext(t, s);
  }

  lemma ClosesByText(t: string, s: nat, p: nat, q: nat, marker: char, length: nat)
    requires s <= |t| && Marks(t, s, LineEnd(t, s), p, q)
    ensures Closes(t, s, marker, length)
        <==> t[p] == marker && q - p >= length && forall k :: q <= k < LineEnd(t, s) ==> IsSpace(t[k])
  {
    var e := LineEnd(t, s);
    MarkedFence(t, s, e, p, q);
    forall x: nat, y: nat | Marks(t, s, e, x, y) ensures x == p && y == q {
      MarkedFence(t, s, e, x, y);
    }
  }

  lemma ClosedHere(t: string, s: nat, o: nat, x: nat, y: nat)
    requires s <= |t| && LineEnd(t, s) < |t| && StartsLine(t, s) && OpenSince(t, o, x, y, s) && Closes(t, s, t[x], y - x)
    ensures !InCode(t, LineEnd(t, s) + 1)
  {
    hide Closes, Marks, StartsLine;
    assert InCode(t, s);
    var n := LineEnd(t, s) + 1;
    if a: nat, p: nat, q: nat :| OpenSince(t, a, p, q, n) {
      OpenBefore(t, a, p, q, s);
      if a < s {
        OneBlock(t, s, o, x, y, a, p, q);
      }
    }
  }

  // ----- the links

  /** `item` is a link of the line at l, which is read for links. */
  ghost predicate StandsOn(t: string, l: nat, item: Item) {
    l <= |t| && StartsLine(t, l) && Plain(t, l) && item in LineScan(t, l, LineEnd(t, l), 0, false, 0)
  }

  lemma PlainByFence(t: string, s: nat, fence: Option<Fence>)
    requires s <= |t| && Tracks(t, s, fence)
    ensures Plain(t, s) <==> fence.None? && FenceAt(t, s, LineEnd(t, s)).None?
  {
    hide FenceAt, Marks, OpenSince;
    var e := LineEnd(t, s);
    if FenceAt(t, s, e).Some? {
      FenceMarks(t, s, e);
    } else {
      forall p: nat, q: nat | Marks(t, s, e, p, q) ensures false {
        MarkedFence(t, s, e, p, q);
      }
    }
  }

  lemma {:induction false} ScanStands(t: string, s: nat, fence: Option<Fence>, item: Item)
    requires s <= |t| && StartsLine(t, s) && Tracks(t, s, fence)
    ensures item in TextScan(t, s, fence) <==> exists l: nat :: s <= l && StandsOn(t, l, item)
    decreases |t| - s
  {
    hide FenceAt, AfterFence, LineScan, Plain, Tracks;
    var e := LineEnd(t, s);
    if s == |t| {
      NothingAtTheEnd(t, item);
    } else {
      var f := FenceAt(t, s, e);
      var rest := if f.Some? then AfterFence(fence, f.value) else fence;
      PlainByFence(t, s, fence);
      if e < |t| {
        StartsNext(t, s);
        if f.Some? {
          FenceStep(t, s, fence);
        } else {
          PlainStep(t, s, fence);
        }
        ScanStands(t, e + 1, rest, item);
      }
      LaterLines(t, s, item);
    }
  }

  lemma NothingAtTheEnd(t: string, item: Item)
    ensures forall l: nat :: |t| <= l ==> !StandsOn(t, l, item)
  {
  }

  lemma LaterLines(t: string, s: nat, item: Item)
    requires s < |t| && StartsLine(t, s)
    ensures (exists l: nat :: s <= l && StandsOn(t, l, item))
        <==> StandsOn(t, s, item) || (LineEnd(t, s) < |t| && exists l: nat :: LineEnd(t, s) + 1 <= l && StandsOn(t, l, item))
  {
    hide Plain, LineScan;
    var e := LineEnd(t, s);
    if e < |t| {
      StartsNext(t, s);
      forall l: nat | s <= l && StandsOn(t, l, item) ensures l == s || e + 1 <= l {
      }
    } else {
      NothingAtTheEnd(t, item);
      forall l: nat | s < l <= |t| ensures !StartsLine(t, l) {
        InsideLine(t, s, l);
      }
    }
  }

  lemma {:induction false} OnlyMembers(origin: Origin, items: seq<Item>, item: Item)
    ensures item in Only(origin, items) <==> item in items && item.origin == origin
  {
    if items != [] {
      OnlyMembers(origin, items[1..], item);
      assert items == [items[0]] + items[1..];
    }
  }

  lemma ScannedByDialect(t: string, s: nat, e: nat, item: Item)
    requires s <= e <= |t|
    ensures item in LineScan(t, s, e, 0, false, 0) <==> item in LineItems(item.origin, t, s, e)
  {
    hide LineScan, Only, WikiLine, MarkdownLine;
    ScanMarkdown(t, s, e, 0, false, 0);
    ScanWiki(t, s, e, 0, false, 0);
    OnlyMembers(item.origin, LineScan(t, s, e, 0, false, 0), item);
  }

  lemma WithinLine(t: string, s: nat, e: nat, item: Item)
    requires s <= e <= |t| && item in LineScan(t, s, e, 0, false, 0)
    ensures s <= item.position < e
  {
    hide LineScan;
    ScanAscends(t, s, e, 0, false, 0);
  }

  /** The line at l is read for links, and `item` is one of the links its dialect finds on that line alone. */
  ghost predicate LinkOf(t: string, l: nat, item: Item) {
    && l <= |t| && StartsLine(t, l) && Plain(t, l) && l <= item.position < LineEnd(t, l)
    && item in LineItems(item.origin, t, l, LineEnd(t, l))
  }

  /** The links of a text are those of its lines that neither stand in a block nor open one: the one pass finds no
      other, and misses none. The same holds of either eager parse. */
  lemma LinksStandOutsideCode(t: string, item: Item)
    ensures item in Recognition(t) <==> exists l: nat :: LinkOf(t, l, item)
    ensures item in EagerParse(item.origin, t) <==> exists l: nat :: LinkOf(t, l, item)
  {
    hide LineScan, TextScan, LineItems, Plain, Only, EagerParse;
    NotYetInCode(t);
    ScanStands(t, 0, None, item);
    OnePassIsEager(t, item.origin);
    OnlyMembers(item.origin, Recognition(t), item);
    forall l: nat ensures StandsOn(t, l, item) <==> LinkOf(t, l, item) {
      if l <= |t| {
        SameLine(t, l, item);
      }
    }
  }

  lemma SameLine(t: string, l: nat, item: Item)
    requires l <= |t|
    ensures StandsOn(t, l, item) <==> LinkOf(t, l, item)
  {
    hide LineScan, LineItems, Plain;
    ScannedByDialect(t, l, LineEnd(t, l), item);
    if StandsOn(t, l, item) {
      WithinLine(t, l, LineEnd(t, l), item);
    }
  }
}

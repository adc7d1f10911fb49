/** The one-pass recognition of both dialects over a whole text, and the proof that it finds
    exactly what the two eager, line-splitting parsers find, in source order. */
module LinkRefinement {
  import opened PythonText
  import opened LinkGrammar

  // ----- one pass

  datatype WikiState = WikiState(spec: Option<Spec>, next: nat, missing: bool)

  /** A wikilink attempt at "[[": without a "]]" the line holds no further wikilink. */
  function WikiAt(t: string, start: nat, e: nat): (r: WikiState)
    requires start + 2 <= e <= |t|
    ensures start + 2 <= r.next <= e
    ensures r.missing ==> r.spec.None?
  {
    match Find(t, start + 2, e, "]]")
    case None => WikiState(None, start + 2, true)
    case Some(end) => WikiState(WikiBody(t[start + 2..end]), end + 2, false)
  }

  predicate OpensWiki(t: string, i: nat, e: nat)
    requires i < e <= |t|
  {
    t[i] == '[' && i + 1 < e && t[i + 1] == '['
  }

  function WikiStep(t: string, i: nat, e: nat, next: nat, missing: bool): (r: WikiState)
    requires i < e <= |t| && next <= e
    ensures r.next <= e
  {
    if i >= next && !missing && OpensWiki(t, i, e) then WikiAt(t, i, e)
    else WikiState(None, next, missing)
  }

  function SkippingStep(t: string, i: nat, e: nat, next: nat): (r: Step)
    requires i < e <= |t| && next <= e
    ensures r.next <= e
  {
    if i >= next then MarkdownStep(t, i, e) else Step(None, next)
  }

  /** The items of t[i..e] when each dialect holds back until its own skip cursor. */
  function LineScan(t: string, i: nat, e: nat, wiki: nat, missing: bool, markdown: nat): seq<Item>
    requires i <= e <= |t| && wiki <= e && markdown <= e
    decreases e - i
  {
    if i == e then []
    else
      var w := WikiStep(t, i, e, wiki, missing);
      var m := SkippingStep(t, i, e, markdown);
      Emit(i, ObsidianWikilink, w.spec) + Emit(i, MarkdownLink, m.spec)
      + LineScan(t, i + 1, e, w.next, w.missing, m.next)
  }

  /** The items from the line start s on. Every break ends a line here, also the line feed of "\r\n". */
  function TextScan(t: string, s: nat, fence: Option<Fence>): seq<Item>
    requires s <= |t|
    decreases |t| - s, 1
  {
    if s == |t| then []
    else
      var e := LineEnd(t, s);
      match FenceAt(t, s, e)
      case Some(f) => NextLine(t, s, AfterFence(fence, f))
      case None =>
        (if fence.None? then LineScan(t, s, e, 0, false, 0) else []) + NextLine(t, s, fence)
  }

  function NextLine(t: string, s: nat, fence: Option<Fence>): seq<Item>
    requires s <= |t|
    decreases |t| - s, 0
  {
    var e := LineEnd(t, s);
    if e == |t| then [] else TextScan(t, e + 1, fence)
  }

  function Recognition(t: string): seq<Item> {
    TextScan(t, 0, None)
  }

  function Only(origin: Origin, items: seq<Item>): seq<Item> {
    if items == [] then []
    else (if items[0].origin == origin then [items[0]] else []) + Only(origin, items[1..])
  }

  // ----- the skip cursors change nothing

  lemma {:induction false} OnlyConcat(origin: Origin, a: seq<Item>, b: seq<Item>)
    ensures Only(origin, a + b) == Only(origin, a) + Only(origin, b)
  {
    if a == [] {
      assert a + b == b;
    } else {
      assert (a + b)[1..] == a[1..] + b;
      OnlyConcat(origin, a[1..], b);
    }
  }

  lemma OnlyEmitted(origin: Origin, i: nat, w: Option<Spec>, m: Option<Spec>, rest: seq<Item>)
    ensures Only(origin, Emit(i, ObsidianWikilink, w) + Emit(i, MarkdownLink, m) + rest)
         == (if origin == ObsidianWikilink then Emit(i, ObsidianWikilink, w) else Emit(i, MarkdownLink, m))
            + Only(origin, rest)
  {
    var a, b := Emit(i, ObsidianWikilink, w), Emit(i, MarkdownLink, m);
    OnlyConcat(origin, a + b, rest);
    OnlyConcat(origin, a, b);
  }

  function Max(a: nat, b: nat): nat { if a < b then b else a }

  lemma {:induction false} ScanMarkdown(t: string, i: nat, e: nat, wiki: nat, missing: bool, markdown: nat)
    requires i <= e <= |t| && wiki <= e && markdown <= e
    ensures Only(MarkdownLink, LineScan(t, i, e, wiki, missing, markdown)) == MarkdownLine(t, Max(i, markdown), e)
    decreases e - i
  {
    hide MarkdownStep, WikiAt, OpensWiki;
    if i < e {
      var w := WikiStep(t, i, e, wiki, missing);
      var m := SkippingStep(t, i, e, markdown);
      ScanMarkdown(t, i + 1, e, w.next, w.missing, m.next);
      OnlyEmitted(MarkdownLink, i, w.spec, m.spec, LineScan(t, i + 1, e, w.next, w.missing, m.next));
    }
  }

  lemma OpensWikiOccurs(t: string, i: nat, e: nat)
    requires i < e <= |t|
    ensures OpensWiki(t, i, e) <==> Occurs(t, i, e, "[[")
  {
    if i + 2 <= e {
      assert t[i..i + 2] == [t[i], t[i + 1]];
    }
  }

  lemma FindSplit(t: string, i: nat, e: nat, sub: string)
    requires i < e <= |t| && |sub| > 0
    ensures Find(t, i, e, sub) == if Occurs(t, i, e, sub) then Some(i) else Find(t, i + 1, e, sub)
  {
  }

  /** The eager search skips a position that opens nothing, and splits at one that does. */
  lemma WikiLineSplit(t: string, i: nat, e: nat)
    requires i < e <= |t|
    ensures !OpensWiki(t, i, e) ==> WikiLine(t, i, e) == WikiLine(t, i + 1, e)
    ensures OpensWiki(t, i, e) ==>
              var w := WikiAt(t, i, e);
              WikiLine(t, i, e)
              == if w.missing then [] else Emit(i, ObsidianWikilink, w.spec) + WikiLine(t, w.next, e)
  {
    hide WikiBody, Find, OpensWiki, Occurs;
    OpensWikiOccurs(t, i, e);
    FindSplit(t, i, e, "[[");
  }

  lemma {:induction false} ScanWiki(t: string, i: nat, e: nat, wiki: nat, missing: bool, markdown: nat)
    requires i <= e <= |t| && wiki <= e && markdown <= e
    ensures Only(ObsidianWikilink, LineScan(t, i, e, wiki, missing, markdown))
         == if missing then [] else WikiLine(t, Max(i, wiki), e)
    decreases e - i
  {
    hide MarkdownStep, WikiAt, WikiLine, OpensWiki;
    if i == e {
      WikiLineAtEnd(t, e);
    } else {
      var w := WikiStep(t, i, e, wiki, missing);
      var m := SkippingStep(t, i, e, markdown);
      ScanWiki(t, i + 1, e, w.next, w.missing, m.next);
      OnlyEmitted(ObsidianWikilink, i, w.spec, m.spec, LineScan(t, i + 1, e, w.next, w.missing, m.next));
      WikiLineSplit(t, i, e);
    }
  }

  lemma WikiLineAtEnd(t: string, e: nat)
    requires e <= |t|
    ensures WikiLine(t, e, e) == []
  {
  }

  /** A skip cursor at or before the current position skips nothing, wherever exactly it is. */
  lemma {:induction false} PassedCursors(t: string, i: nat, e: nat, w: nat, v: nat, missing: bool, m: nat, n: nat)
    requires i <= e <= |t| && w <= e && v <= e && m <= e && n <= e
    requires w == v || (w <= i && v <= i)
    requires m == n || (m <= i && n <= i)
    ensures LineScan(t, i, e, w, missing, m) == LineScan(t, i, e, v, missing, n)
    decreases e - i
  {
    hide MarkdownStep, WikiAt, OpensWiki;
    if i < e {
      var a, b := WikiStep(t, i, e, w, missing), WikiStep(t, i, e, v, missing);
      var c, d := SkippingStep(t, i, e, m), SkippingStep(t, i, e, n);
      PassedCursors(t, i + 1, e, a.next, b.next, a.missing, c.next, d.next);
    }
  }

  // ----- lines of a text against lines on their own

  lemma FirstShift(t: string, s: nat, e: nat, i: nat, stop: set<char>)
    requires s + i <= e <= |t|
    ensures First(t[s..e], i, e - s, stop) + s == First(t, s + i, e, stop)
  {
    assert forall k :: 0 <= k < e - s ==> t[s..e][k] == t[s + k];
  }

  lemma RunEndShift(t: string, s: nat, e: nat, i: nat, c: char)
    requires s + i <= e <= |t|
    ensures RunEnd(t[s..e], i, e - s, c) + s == RunEnd(t, s + i, e, c)
  {
    assert forall k :: 0 <= k < e - s ==> t[s..e][k] == t[s + k];
  }

  lemma OccursShift(t: string, s: nat, e: nat, k: nat, sub: string)
    requires s + k <= e <= |t|
    ensures Occurs(t[s..e], k, e - s, sub) <==> Occurs(t, s + k, e, sub)
  {
    if s + k + |sub| <= e {
      var n := k + |sub|;
      forall x | 0 <= x < |sub| ensures t[s..e][k..n][x] == t[s + k..s + n][x] {
      }
      assert t[s..e][k..n] == t[s + k..s + n];
    }
  }

  lemma {:induction false} FindShift(t: string, s: nat, e: nat, i: nat, sub: string)
    requires s + i <= e <= |t| && |sub| > 0
    ensures Find(t, s + i, e, sub)
         == match Find(t[s..e], i, e - s, sub) case None => None case Some(k) => Some(s + k)
    decreases e - i
  {
    OccursShift(t, s, e, i, sub);
    if s + i < e {
      FindShift(t, s, e, i + 1, sub);
    }
  }

  lemma SliceSlice(t: string, s: nat, e: nat, a: nat, b: nat)
    requires s <= e <= |t| && a <= b <= e - s
    ensures t[s..e][a..b] == t[s + a..s + b]
  {
    forall x | 0 <= x < b - a ensures t[s..e][a..b][x] == t[s + a..s + b][x] {
    }
    assert t[s..e][a..b] == t[s + a..s + b];
  }

  lemma {:induction false} FirstCloseShift(t: string, s: nat, e: nat, i: nat, n: nat)
    requires s + i <= e <= |t| && n > 0 && i > 0
    ensures FirstClose(t, s + i, e, n)
         == match FirstClose(t[s..e], i, e - s, n) case None => None case Some(k) => Some(s + k)
    decreases e - i
  {
    var l := t[s..e];
    assert forall k :: 0 <= k < e - s ==> l[k] == t[s + k];
    assert ClosesAt(l, i, e - s, n) ==> ClosesAt(t, s + i, e, n) by {
      assert forall k :: s + i <= k < s + i + n && k < e ==> t[k] == l[k - s];
    }
    assert ClosesAt(t, s + i, e, n) ==> ClosesAt(l, i, e - s, n) by {
      assert forall k :: i <= k < i + n && s + k < e ==> l[k] == t[s + k];
    }
    if s + i < e {
      FirstCloseShift(t, s, e, i + 1, n);
    }
  }

  predicate PlainStart(t: string, s: nat)
    requires s <= |t|
  {
    0 < s < |t| ==> t[s - 1] in BREAKS
  }

  /** Attempts on a line of its own are attempts on the text, moved to the line start. */
  lemma DestinationShift(t: string, s: nat, e: nat, caption: string, d: nat)
    requires s + d < e <= |t|
    ensures var a, b := DestinationAt(t[s..e], caption, d, e - s), DestinationAt(t, caption, s + d, e);
            a.spec == b.spec && a.next + s == b.next
  {
    hide Find, NoteDestination, HasSpace, Occurs;
    var l, angle := t[s..e], t[s + d] == '<';
    assert l[d] == t[s + d];
    var from, sub := if angle then d + 1 else d, if angle then ">" else ")";
    FindShift(t, s, e, from, sub);
    var r := Find(l, from, e - s, sub);
    if r.Some? {
      FindBound(l, from, e - s, sub);
      SliceSlice(t, s, e, from, r.value);
      assert angle && r.value + 1 < e - s ==> l[r.value + 1] == t[s + r.value + 1];
    }
  }

  lemma MarkdownAtShift(t: string, s: nat, e: nat, i: nat)
    requires s + i < e <= |t|
    ensures var a, b := MarkdownAt(t[s..e], i, e - s), MarkdownAt(t, s + i, e);
            a.spec == b.spec && a.next + s == b.next
  {
    hide DestinationAt;
    var lt := t[s..e];
    FirstShift(t, s, e, i + 1, LABEL_STOP);
    var l := First(lt, i + 1, e - s, LABEL_STOP);
    SliceSlice(t, s, e, i + 1, l);
    if l + 2 < e - s {
      DestinationShift(t, s, e, lt[i + 1..l], l + 2);
    }
  }

  lemma CodeNextShift(t: string, s: nat, e: nat, i: nat)
    requires s + i < e <= |t| && t[s + i] == '`'
    ensures t[s..e][i] == '`' && CodeNext(t[s..e], i, e - s) + s == CodeNext(t, s + i, e)
  {
    hide FirstClose;
    RunEndShift(t, s, e, i, '`');
    var run := RunEnd(t[s..e], i, e - s, '`');
    FirstCloseShift(t, s, e, run, run - i);
  }

  lemma MarkdownStepShift(t: string, s: nat, e: nat, i: nat)
    requires s + i < e <= |t| && PlainStart(t, s)
    ensures var a, b := MarkdownStep(t[s..e], i, e - s), MarkdownStep(t, s + i, e);
            a.spec == b.spec && a.next + s == b.next
  {
    hide MarkdownAt, CodeNext;
    var l := t[s..e];
    assert l[i] == t[s + i] && (i > 0 ==> l[i - 1] == t[s + i - 1]);
    if t[s + i] == '`' {
      CodeNextShift(t, s, e, i);
    } else {
      MarkdownAtShift(t, s, e, i);
    }
  }

  lemma {:induction false} MarkdownLineShift(t: string, s: nat, e: nat, i: nat)
    requires s + i <= e <= |t| && PlainStart(t, s)
    ensures Shift(MarkdownLine(t[s..e], i, e - s), s) == MarkdownLine(t, s + i, e)
    decreases e - i
  {
    hide MarkdownStep, Emit;
    if s + i < e {
      var l := t[s..e];
      MarkdownStepShift(t, s, e, i);
      var a := MarkdownStep(l, i, e - s);
      MarkdownLineShift(t, s, e, a.next);
      ShiftEmit(i, MarkdownLink, a.spec, MarkdownLine(l, a.next, e - s), s);
    }
  }

  lemma {:induction false} WikiLineShift(t: string, s: nat, e: nat, i: nat)
    requires s + i <= e <= |t|
    ensures Shift(WikiLine(t[s..e], i, e - s), s) == WikiLine(t, s + i, e)
    decreases e - i
  {
    hide WikiBody, Find, Occurs, Emit, WikiLine;
    var l := t[s..e];
    FindShift(t, s, e, i, "[[");
    var open := Find(l, i, e - s, "[[");
    if open.None? {
      WikiLineAbsent(l, i, e - s);
      WikiLineAbsent(t, s + i, e);
    } else {
      var start := open.value;
      WikiLineFound(l, i, e - s, start);
      WikiLineFound(t, s + i, e, s + start);
      FindShift(t, s, e, start + 2, "]]");
      var close := Find(l, start + 2, e - s, "]]");
      if close.Some? {
        var end := close.value;
        SliceSlice(t, s, e, start + 2, end);
        ShiftEmit(start, ObsidianWikilink, WikiBody(l[start + 2..end]), WikiLine(l, end + 2, e - s), s);
        WikiLineShift(t, s, e, end + 2);
      }
    }
  }

  lemma {:induction false} IndentShift(t: string, s: nat, e: nat, i: nat, k: nat)
    requires s + i <= e <= |t|
    ensures Indent(t[s..e], i, e - s, k) + s == Indent(t, s + i, e, k)
    decreases k
  {
    if k > 0 && s + i < e {
      assert t[s..e][i] == t[s + i];
      IndentShift(t, s, e, i + 1, k - 1);
    }
  }

  lemma StripShift(t: string, s: nat, e: nat, i: nat)
    requires s + i <= e <= |t|
    ensures Strip(t[s..e], i, e - s) == Strip(t, s + i, e)
  {
    var l := t[s..e];
    assert forall k :: 0 <= k < e - s ==> l[k] == t[s + k];
    var a, b := StripStart(l, i, e - s), StripStart(t, s + i, e);
    assert a + s == b;
    assert StripEnd(l, a, e - s) + s == StripEnd(t, b, e);
    SliceSlice(t, s, e, a, StripEnd(l, a, e - s));
  }

  lemma FenceShift(t: string, s: nat, e: nat)
    requires s <= e <= |t|
    ensures FenceAt(t[s..e], 0, e - s) == FenceAt(t, s, e)
  {
    hide Strip, Indent;
    IndentShift(t, s, e, 0, 3);
    var l := t[s..e];
    var p := Indent(l, 0, e - s, 3);
    if p < e - s {
      assert l[p] == t[s + p];
      RunEndShift(t, s, e, p, l[p]);
      StripShift(t, s, e, RunEnd(l, p, e - s, l[p]));
    }
  }

  // ----- whole texts

  /** Reading "\r\n" as two breaks only adds an empty line, which holds nothing. */
  lemma BlankLine(t: string, s: nat, fence: Option<Fence>)
    requires s < |t| && t[s] in BREAKS
    ensures TextScan(t, s, fence) == TextScan(t, s + 1, fence)
  {
    assert LineEnd(t, s) == s;
    assert FenceAt(t, s, s).None?;
  }

  lemma NextLineSkips(t: string, s: nat, fence: Option<Fence>)
    requires s < |t|
    ensures NextLine(t, s, fence) == TextScan(t, AfterBreak(t, LineEnd(t, s)), fence)
  {
    hide TextScan;
    var e := LineEnd(t, s);
    if e == |t| {
      TextScanEnd(t, fence);
    } else if AfterBreak(t, e) == e + 2 {
      BlankLine(t, e + 1, fence);
    }
  }

  lemma TextScanEnd(t: string, fence: Option<Fence>)
    ensures TextScan(t, |t|, fence) == []
  {
  }

  lemma LineMatches(origin: Origin, t: string, s: nat, e: nat)
    requires s <= e <= |t| && PlainStart(t, s)
    ensures Only(origin, LineScan(t, s, e, 0, false, 0)) == Shift(LineItems(origin, t[s..e], 0, e - s), s)
  {
    ScanMarkdown(t, s, e, 0, false, 0);
    ScanWiki(t, s, e, 0, false, 0);
    MarkdownLineShift(t, s, e, 0);
    WikiLineShift(t, s, e, 0);
  }

  /** From any line start on, one pass finds exactly what either eager parser finds. */
  lemma {:induction false} TextMatches(origin: Origin, t: string, s: nat, fence: Option<Fence>)
    requires s <= |t| && PlainStart(t, s)
    ensures Only(origin, TextScan(t, s, fence)) == EagerItems(origin, SplitLines(t, s), s, fence)
    decreases |t| - s
  {
    hide LineScan, LineItems, FenceAt, AfterFence, NextLine;
    if s < |t| {
      var e := LineEnd(t, s);
      var next := AfterBreak(t, e);
      assert SplitLines(t, s) == [RawLine(t[s..e], t[e..next])] + SplitLines(t, next);
      FenceShift(t, s, e);
      var f := FenceAt(t, s, e);
      var rest := if f.Some? then AfterFence(fence, f.value) else fence;
      NextLineSkips(t, s, rest);
      TextMatches(origin, t, next, rest);
      if f.None? {
        LineMatches(origin, t, s, e);
        OnlyConcat(origin, if fence.None? then LineScan(t, s, e, 0, false, 0) else [], NextLine(t, s, fence));
      }
    }
  }

  // ----- source order

  predicate Ascending(items: seq<Item>, lo: nat, hi: nat) {
    && (forall k :: 0 <= k < |items| ==> lo <= items[k].position < hi)
    && forall j, k :: 0 <= j < k < |items| ==> items[j].position < items[k].position
  }

  /** The two dialects never claim the same position: a wikilink's second bracket ends a label. */
  lemma OneDialectPerPosition(t: string, i: nat, e: nat)
    requires i < e <= |t| && OpensWiki(t, i, e)
    ensures MarkdownStep(t, i, e).spec.None?
  {
  }

  lemma {:induction false} ScanAscends(t: string, i: nat, e: nat, wiki: nat, missing: bool, markdown: nat)
    requires i <= e <= |t| && wiki <= e && markdown <= e
    ensures Ascending(LineScan(t, i, e, wiki, missing, markdown), i, e)
    decreases e - i
  {
    hide MarkdownStep, WikiAt, OpensWiki;
    if i < e {
      var w := WikiStep(t, i, e, wiki, missing);
      var m := SkippingStep(t, i, e, markdown);
      ScanAscends(t, i + 1, e, w.next, w.missing, m.next);
      if OpensWiki(t, i, e) {
        OneDialectPerPosition(t, i, e);
      }
      var here := Emit(i, ObsidianWikilink, w.spec) + Emit(i, MarkdownLink, m.spec);
      assert |here| <= 1 && Ascending(here, i, i + 1);
      hide Ascending, Emit;
      AscendingConcat(here, LineScan(t, i + 1, e, w.next, w.missing, m.next), i, i + 1, e);
    }
  }

  lemma AscendingConcat(a: seq<Item>, b: seq<Item>, lo: nat, mid: nat, hi: nat)
    requires Ascending(a, lo, mid) && Ascending(b, mid, hi) && lo <= mid <= hi
    ensures Ascending(a + b, lo, hi)
  {
  }

  lemma {:induction false} TextAscends(t: string, s: nat, fence: Option<Fence>)
    requires s <= |t|
    ensures Ascending(TextScan(t, s, fence), s, |t|)
    decreases |t| - s
  {
    hide LineScan, FenceAt, AfterFence;
    if s < |t| {
      var e := LineEnd(t, s);
      var f := FenceAt(t, s, e);
      var rest := if f.Some? then AfterFence(fence, f.value) else fence;
      if e < |t| {
        TextAscends(t, e + 1, rest);
      }
      ScanAscends(t, s, e, 0, false, 0);
      AscendingConcat(if f.None? && fence.None? then LineScan(t, s, e, 0, false, 0) else [],
                      NextLine(t, s, rest), s, e, |t|);
    }
  }

  lemma {:induction false} OnlyPartitions(items: seq<Item>)
    ensures multiset(Only(ObsidianWikilink, items)) + multiset(Only(MarkdownLink, items)) == multiset(items)
  {
    if items != [] {
      OnlyPartitions(items[1..]);
      assert items == [items[0]] + items[1..];
    }
  }

  lemma SameHead(a: seq<Item>, b: seq<Item>, lo: nat, hi: nat)
    requires a != [] && b != [] && Ascending(a, lo, hi) && a[0] in b && b[0] in a
    requires forall k :: 0 <= k < |b| ==> b[0].position <= b[k].position
    ensures a[0] == b[0]
  {
    var k :| 0 <= k < |a| && a[k] == b[0];
    var m :| 0 <= m < |b| && b[m] == a[0];
    assert a[k].position <= a[0].position;
  }

  lemma MultisetTail(a: seq<Item>)
    requires a != []
    ensures multiset(a[1..]) == multiset(a) - multiset{a[0]}
  {
    assert a == [a[0]] + a[1..];
  }

  lemma SameElements(a: seq<Item>, b: seq<Item>)
    requires multiset(a) == multiset(b)
    ensures |a| == |b|
    ensures a != [] ==> a[0] in b && b[0] in a
  {
    assert |multiset(a)| == |multiset(b)|;
    if a != [] {
      assert a[0] in multiset(b) && b[0] in multiset(a);
    }
  }

  predicate NonDecreasing(b: seq<Item>) {
    forall j, k :: 0 <= j < k < |b| ==> b[j].position <= b[k].position
  }

  lemma SortedTails(a: seq<Item>, b: seq<Item>, lo: nat, hi: nat)
    requires a != [] && b != [] && Ascending(a, lo, hi) && NonDecreasing(b)
    ensures Ascending(a[1..], lo, hi) && NonDecreasing(b[1..])
    ensures forall k :: 0 <= k < |b| ==> b[0].position <= b[k].position
  {
  }

  lemma {:induction false} AscendingIsTheSort(a: seq<Item>, b: seq<Item>, lo: nat, hi: nat)
    requires Ascending(a, lo, hi) && multiset(a) == multiset(b) && NonDecreasing(b)
    ensures a == b
  {
    hide Ascending, NonDecreasing;
    SameElements(a, b);
    if a != [] {
      SortedTails(a, b, lo, hi);
      SameHead(a, b, lo, hi);
      MultisetTail(a);
      MultisetTail(b);
      AscendingIsTheSort(a[1..], b[1..], lo, hi);
      assert a == [a[0]] + a[1..] && b == [b[0]] + b[1..];
    }
  }

  /** The refinement: dialect by dialect, one pass over the text equals the eager parse. */
  lemma OnePassIsEager(t: string, origin: Origin)
    ensures Only(origin, Recognition(t)) == EagerParse(origin, t)
  {
    TextMatches(origin, t, 0, None);
  }

  /** Both dialects together: sorting the two eager parses by position gives the one pass. */
  lemma OnePassIsSortedEager(t: string, sorted: seq<Item>)
    requires multiset(sorted) == multiset(EagerParse(ObsidianWikilink, t)) + multiset(EagerParse(MarkdownLink, t))
    requires NonDecreasing(sorted)
    ensures sorted == Recognition(t)
  {
    OnePassIsEager(t, ObsidianWikilink);
    OnePassIsEager(t, MarkdownLink);
    OnlyPartitions(Recognition(t));
    TextAscends(t, 0, None);
    AscendingIsTheSort(Recognition(t), sorted, 0, |t|);
  }
}

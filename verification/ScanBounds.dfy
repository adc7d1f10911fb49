/** How much recognition can cost: at most fifteen probes for every character, plus what is read again behind
    backtick runs that nothing closes. */
module ScanBounds {
  import opened PythonText
  import opened LinkGrammar
  import opened LinkRefinement
  import opened ScanCosts

  // ----- single scans

  lemma {:induction false} MatchBound(t: string, i: nat, token: string, k: nat)
    requires k <= |token|
    ensures MatchCost(t, i, token, k) <= |token| - k
    decreases |token| - k
  {
    if k < |token| {
      MatchBound(t, i, token, k + 1);
    }
  }

  lemma {:induction false} SeekBound(t: string, i: nat, e: nat, token: string)
    requires i <= e <= |t| && 1 <= |token| <= 2
    ensures match Find(t, i, e, token)
            case None => SeekCost(t, i, e, token) <= 3 * (e - i) + CharCost(t, e)
            case Some(k) => SeekCost(t, i, e, token) <= 3 * (k - i) + 3
    decreases e - i
  {
    if i < e {
      MatchBound(t, i, token, 0);
      SeekBound(t, i + 1, e, token);
      FindStep(t, i, e, token);
    }
  }

  lemma FindStep(t: string, i: nat, e: nat, token: string)
    requires i < e <= |t| && |token| > 0
    ensures Find(t, i, e, token) == if Occurs(t, i, e, token) then Some(i) else Find(t, i + 1, e, token)
  {
  }

  lemma {:induction false} SeekOneBound(t: string, i: nat, e: nat, token: string)
    requires i <= e <= |t| && |token| == 1
    ensures match Find(t, i, e, token)
            case None => SeekCost(t, i, e, token) <= e - i + CharCost(t, e)
            case Some(k) => SeekCost(t, i, e, token) <= k - i + 2
    decreases e - i
  {
    if i < e {
      MatchBound(t, i, token, 0);
      SeekOneBound(t, i + 1, e, token);
      FindStep(t, i, e, token);
      if t[i] == token[0] {
        assert t[i..i + 1] == token;
      }
    }
  }

  lemma TrimBound(t: string, a: nat, b: nat)
    requires a <= b <= |t|
    ensures TrimCost(t, a, b) <= b - a + 1
  {
  }

  // ----- wikilinks

  lemma WikiBodyBound(t: string, a: nat, end: nat)
    requires a <= end <= |t|
    ensures WikiBodyCost(t, a, end) <= 2 * (end - a) + 3
  {
    hide TrimCost, First;
    var p := First(t, a, end, {'|'});
    var h := First(t, a, p, {'#'});
    TrimBound(t, a, h);
    if h < p {
      TrimBound(t, h + 1, p);
    }
    if p < end {
      TrimBound(t, p + 1, end);
    }
  }

  /** What the wikilink dialect may still pay on the line. */
  function WikiAhead(t: string, i: nat, e: nat, next: nat, missing: bool): nat
    requires i <= e <= |t| && next <= e
  {
    if missing then 0 else 6 * (e - Max(i, next)) + CharCost(t, e)
  }

  lemma WikiStepBound(t: string, i: nat, e: nat, next: nat, missing: bool)
    requires i < e <= |t| && next <= e
    ensures var w := WikiStep(t, i, e, next, missing);
            WikiStepCost(t, i, e, next, missing) + WikiAhead(t, i + 1, e, w.next, w.missing) <= WikiAhead(t, i, e, next, missing)
  {
    hide WikiBody, WikiBodyCost, SeekCost, Find;
    if i >= next && !missing && OpensWiki(t, i, e) {
      SeekBound(t, i + 2, e, "]]");
      FindBound(t, i + 2, e, "]]");
      match Find(t, i + 2, e, "]]")
      case None =>
      case Some(end) => WikiBodyBound(t, i + 2, end);
    }
  }

  // ----- Markdown links and code spans

  lemma CheckBound(t: string, a: nat, end: nat, angle: bool)
    requires a <= end <= |t|
    ensures CheckCost(t, a, end, angle) <= end - a + 5
  {
  }

  lemma DestinationBound(t: string, caption: string, d: nat, e: nat)
    requires d < e <= |t|
    ensures DestinationCost(t, d, e) <= 4 * (DestinationAt(t, caption, d, e).next - d) + 4 + 2 * CharCost(t, e)
    ensures DestinationAt(t, caption, d, e).next < e ==> DestinationCost(t, d, e) <= 4 * (DestinationAt(t, caption, d, e).next - d) + 4
  {
    hide NoteDestination, CheckCost, SeekCost, Find, HasSpace;
    var angle := t[d] == '<';
    var from, token := if angle then d + 1 else d, if angle then ">" else ")";
    SeekOneBound(t, from, e, token);
    FindBound(t, from, e, token);
    match Find(t, from, e, token)
    case None =>
    case Some(close) => CheckBound(t, from, close, angle);
  }

  lemma MarkdownBound(t: string, i: nat, e: nat)
    requires i < e <= |t|
    ensures var next := MarkdownAt(t, i, e).next;
            MarkdownCost(t, i, e) <= 4 * (next - i) + if next == e then 3 * CharCost(t, e) else 0
  {
    hide DestinationAt, DestinationCost, First;
    var l := First(t, i + 1, e, LABEL_STOP);
    if l + 2 < e && t[l] == ']' && t[l + 1] == '(' {
      DestinationBound(t, t[i + 1..l], l + 2, e);
    } else if l + 2 == e && t[l] == ']' && t[l + 1] == '(' {
      NoDestination(t, e);
    }
  }

  lemma NoDestination(t: string, e: nat)
    requires e <= |t|
    ensures DestinationCost(t, e, e) == 3 * CharCost(t, e)
  {
  }

  lemma {:induction false} SpanBound(t: string, i: nat, e: nat, n: nat)
    requires i <= e <= |t| && n > 0 && (0 < i < e && t[i] == '`' ==> t[i - 1] != '`')
    ensures match FirstClose(t, i, e, n)
            case None => SpanCost(t, i, e, n) <= 3 * (e - i) + CharCost(t, e)
            case Some(c) => c + n <= e && SpanCost(t, i, e, n) <= 3 * (c - i) + 2 + n
    decreases e - i
  {
    hide FirstClose, ClosesAt;
    if i == e {
      NeverCloses(t, e, n);
    } else if t[i] != '`' {
      NotAtTick(t, i, e, n);
      SpanBound(t, i + 1, e, n);
      CloseFits(t, i + 1, e, n);
    } else {
      var end := RunEnd(t, i + 1, e, '`');
      if end - i == n {
        ClosesHere(t, i, e, n);
      } else {
        OtherRun(t, i, end, e, n);
        SpanBound(t, end, e, n);
        CloseFits(t, end, e, n);
      }
    }
  }

  lemma CloseFits(t: string, i: nat, e: nat, n: nat)
    requires i <= e <= |t|
    ensures FirstClose(t, i, e, n).Some? ==> i <= FirstClose(t, i, e, n).value && FirstClose(t, i, e, n).value + n <= e
  {
  }

  /** A backtick run that opens no code span: what follows it on the line is read and then read again. */
  function Rescan(t: string, i: nat, e: nat): nat
    requires i < e <= |t|
  {
    if t[i] != '`' then 0
    else
      var run := RunEnd(t, i, e, '`');
      if FirstClose(t, run, e, run - i).Some? then 0 else 3 * (e - run) + 2
  }

  /** What the Markdown dialect may still pay on the line, runs that nothing closes apart. */
  function MarkdownAhead(t: string, i: nat, e: nat, next: nat): nat
    requires i <= e <= |t| && next <= e
  {
    5 * (e - Max(i, next)) + if Max(i, next) < e then 3 * CharCost(t, e) else 0
  }

  lemma CodeBound(t: string, i: nat, e: nat)
    requires i < e <= |t| && t[i] == '`'
    ensures CodeCost(t, i, e) <= 5 * (CodeNext(t, i, e) - i) + Rescan(t, i, e)
  {
    hide FirstClose, SpanCost;
    var run := RunEnd(t, i + 1, e, '`');
    assert run == RunEnd(t, i, e, '`');
    SpanBound(t, run, e, run - i);
  }

  lemma MarkdownStepBound(t: string, i: nat, e: nat, next: nat)
    requires i < e <= |t| && next <= e
    ensures var m := SkippingStep(t, i, e, next);
            (if i >= next then MarkdownStepCost(t, i, e) else 0) + MarkdownAhead(t, i + 1, e, m.next)
            <= MarkdownAhead(t, i, e, next) + if i >= next then Rescan(t, i, e) else 0
  {
    hide CodeNext, CodeCost, MarkdownAt, MarkdownCost, Rescan;
    if i >= next {
      if t[i] == '`' {
        CodeBound(t, i, e);
      } else if t[i] == '[' {
        MarkdownBound(t, i, e);
      }
    }
  }

  // ----- lines and texts

  function LineRescans(t: string, i: nat, e: nat, markdown: nat): nat
    requires i <= e <= |t| && markdown <= e
    decreases e - i
  {
    if i == e then 0
    else (if i >= markdown then Rescan(t, i, e) else 0) + LineRescans(t, i + 1, e, SkippingStep(t, i, e, markdown).next)
  }

  lemma {:induction false} LineBound(t: string, i: nat, e: nat, wiki: nat, missing: bool, markdown: nat)
    requires i <= e <= |t| && wiki <= e && markdown <= e
    ensures LineCost(t, i, e, wiki, missing, markdown)
            <= (e - i) + WikiAhead(t, i, e, wiki, missing) + MarkdownAhead(t, i, e, markdown) + LineRescans(t, i, e, markdown)
    decreases e - i
  {
    hide WikiStep, WikiStepCost, SkippingStep, MarkdownStepCost, Rescan, WikiAhead, MarkdownAhead;
    if i < e {
      var w, m := WikiStep(t, i, e, wiki, missing), SkippingStep(t, i, e, markdown);
      WikiStepBound(t, i, e, wiki, missing);
      MarkdownStepBound(t, i, e, markdown);
      LineBound(t, i + 1, e, w.next, w.missing, m.next);
    }
  }

  /** What is read again in the text from the line start s on, in lines outside fences. */
  function TextRescans(t: string, s: nat, fence: Option<Fence>): nat
    requires s <= |t|
    decreases |t| - s, 1
  {
    if s == |t| then 0
    else
      match FenceAt(t, s, LineEnd(t, s))
      case Some(f) => NextRescans(t, s, AfterFence(fence, f))
      case None => (if fence.None? then LineRescans(t, s, LineEnd(t, s), 0) else 0) + NextRescans(t, s, fence)
  }

  function NextRescans(t: string, s: nat, fence: Option<Fence>): nat
    requires s <= |t|
    decreases |t| - s, 0
  {
    if LineEnd(t, s) == |t| then 0 else TextRescans(t, LineEnd(t, s) + 1, fence)
  }

  lemma FenceBound(t: string, s: nat, e: nat, open: Option<Fence>)
    requires s <= e <= |t|
    ensures FenceAt(t, s, e).None? ==> FenceCost(t, s, e, open) <= 3 * (e - s) + 2 * CharCost(t, e)
    ensures FenceAt(t, s, e).Some? ==> s < e && FenceCost(t, s, e, open) + 1 <= 4 * (e - s) + CharCost(t, e)
  {
    hide Strip, TrimCost;
    var p := Indent(t, s, e, 3);
    if p < e && (t[p] == '`' || t[p] == '~') {
      TrimBound(t, RunEnd(t, p, e, t[p]), e);
    }
  }

  lemma {:induction false} TextBound(t: string, s: nat, fence: Option<Fence>)
    requires s <= |t|
    ensures TextCost(t, s, fence) <= 15 * (|t| - s) + TextRescans(t, s, fence)
    decreases |t| - s, 1
  {
    hide *;
    if s == |t| {
      NothingLeft(t, fence);
    } else {
      var e := LineEnd(t, s);
      TextUnfolds(t, s, fence);
      FenceBound(t, s, e, fence);
      LineStartBound(t, s, e);
      if FenceAt(t, s, e).Some? {
        NextBound(t, s, AfterFence(fence, FenceAt(t, s, e).value));
      } else {
        LineBound(t, s, e, 0, false, 0);
        NextBound(t, s, fence);
      }
    }
  }

  lemma LineStartBound(t: string, s: nat, e: nat)
    requires s <= e <= |t|
    ensures WikiAhead(t, s, e, 0, false) + MarkdownAhead(t, s, e, 0) <= 11 * (e - s) + 4 * CharCost(t, e) && CharCost(t, e) <= 1
  {
  }

  lemma TextUnfolds(t: string, s: nat, fence: Option<Fence>)
    requires s < |t|
    ensures var e, f := LineEnd(t, s), FenceAt(t, s, LineEnd(t, s));
            && s <= e <= |t|
            && TextCost(t, s, fence) == FenceCost(t, s, e, fence) +
                 (if f.Some? then 1 + NextCost(t, s, AfterFence(fence, f.value))
                  else (if fence.None? then LineCost(t, s, e, 0, false, 0) else e - s) + NextCost(t, s, fence))
            && TextRescans(t, s, fence) ==
                 if f.Some? then NextRescans(t, s, AfterFence(fence, f.value))
                 else (if fence.None? then LineRescans(t, s, e, 0) else 0) + NextRescans(t, s, fence)
  {
    hide FenceAt, FenceCost, LineCost, LineRescans, NextCost, NextRescans;
  }

  lemma {:induction false} NextBound(t: string, s: nat, fence: Option<Fence>)
    requires s < |t|
    ensures NextCost(t, s, fence) <= 15 * (|t| - LineEnd(t, s)) - 14 * CharCost(t, LineEnd(t, s)) + NextRescans(t, s, fence)
    decreases |t| - s, 0
  {
    hide *;
    NextUnfolds(t, s, fence);
    var e := LineEnd(t, s);
    if e < |t| {
      TextBound(t, e + 1, fence);
    }
  }

  lemma NextUnfolds(t: string, s: nat, fence: Option<Fence>)
    requires s < |t|
    ensures var e := LineEnd(t, s);
            && s <= e <= |t| && CharCost(t, e) == (if e < |t| then 1 else 0)
            && NextCost(t, s, fence) == (if e == |t| then 0 else 1 + TextCost(t, e + 1, fence))
            && NextRescans(t, s, fence) == (if e == |t| then 0 else TextRescans(t, e + 1, fence))
  {
    hide TextCost, TextRescans;
  }

  /** What a text makes the recogniser read again. */
  function Rescans(t: string): nat { TextRescans(t, 0, None) }

  /** Recognising a text costs at most fifteen probes for every character and what is read again. */
  lemma RecognitionBound(t: string)
    ensures RecognitionCost(t) <= 15 * |t| + Rescans(t)
  {
    TextBound(t, 0, None);
  }

  /** Where every code span attempt finds its closing run, sixteen probes per byte are more than enough. */
  lemma ClosedSpansSuffice(t: string)
    requires Rescans(t) == 0 && t != ""
    ensures RecognitionCost(t) < 16 * Utf8Size(t, 0, |t|)
  {
    RecognitionBound(t);
  }

  function Rows(n: nat, width: nat): nat { n * width }

  lemma RowsAdd(x: nat, y: nat, width: nat)
    ensures Rows(x + y, width) == Rows(x, width) + Rows(y, width) && Rows(1, width) == width
  {
  }

  lemma RowsSplit(n: nat, s: nat, e: nat, width: nat)
    requires s <= e < n
    ensures Rows(e - s, width) + Rows(n - (e + 1), width) <= Rows(n - s, width)
  {
    RowsAdd(e - s, n - e, width);
    RowsAdd(1, n - (e + 1), width);
    hide Rows;
  }

  lemma {:induction false} LineRescansBound(t: string, i: nat, e: nat, markdown: nat)
    requires i <= e <= |t| && markdown <= e
    ensures LineRescans(t, i, e, markdown) <= Rows(e - i, 3 * |t| + 2)
    ensures (forall k :: i <= k < e ==> t[k] != '`') ==> LineRescans(t, i, e, markdown) == 0
    decreases e - i
  {
    hide SkippingStep, FirstClose, Rows;
    if i < e {
      LineRescansBound(t, i + 1, e, SkippingStep(t, i, e, markdown).next);
      RowsAdd(e - i - 1, 1, 3 * |t| + 2);
    }
  }

  /** One line's share and what is left for the lines after it. */
  lemma RescansStep(t: string, s: nat, fence: Option<Fence>) returns (next: Option<Fence>)
    requires s < |t|
    ensures var e := LineEnd(t, s);
            && s <= e <= |t|
            && TextRescans(t, s, fence) <= LineRescans(t, s, e, 0) + if e == |t| then 0 else TextRescans(t, e + 1, next)
  {
    var f := FenceAt(t, s, LineEnd(t, s));
    TextUnfolds(t, s, fence);
    next := if f.Some? then AfterFence(fence, f.value) else fence;
    NextUnfolds(t, s, next);
    hide *;
  }

  lemma NothingLeft(t: string, fence: Option<Fence>)
    ensures TextRescans(t, |t|, fence) == 0 && TextCost(t, |t|, fence) == 0
  {
  }

  lemma {:induction false} TextRescansBound(t: string, s: nat, fence: Option<Fence>)
    requires s <= |t|
    ensures TextRescans(t, s, fence) <= Rows(|t| - s, 3 * |t| + 2)
    decreases |t| - s
  {
    hide *;
    if s == |t| {
      NothingLeft(t, fence);
    } else {
      var e, b := LineEnd(t, s), 3 * |t| + 2;
      var next := RescansStep(t, s, fence);
      LineRescansBound(t, s, e, 0);
      if e < |t| {
        TextRescansBound(t, e + 1, next);
        RowsSplit(|t|, s, e, b);
      }
    }
  }

  lemma {:induction false} NoTicksNoRescans(t: string, s: nat, fence: Option<Fence>)
    requires s <= |t| && forall k :: s <= k < |t| ==> t[k] != '`'
    ensures TextRescans(t, s, fence) == 0
    decreases |t| - s
  {
    hide *;
    if s == |t| {
      NothingLeft(t, fence);
    } else {
      var e := LineEnd(t, s);
      var next := RescansStep(t, s, fence);
      LineRescansBound(t, s, e, 0);
      if e < |t| {
        NoTicksNoRescans(t, e + 1, next);
      }
    }
  }

  /** Text without backticks is one such text, and for any text a quadratic credit suffices. */
  lemma RescansBound(t: string)
    ensures Rescans(t) <= Rows(|t|, 3 * |t| + 2)
    ensures '`' !in t ==> Rescans(t) == 0
  {
    TextRescansBound(t, 0, None);
    if '`' !in t {
      NoTicksNoRescans(t, 0, None);
    }
  }
}

/** Where the two readers of a capture cut it: promotion's `_body`, which breaks lines where Python does, and the
    envelope scanner, which breaks them at line feeds and also accepts three dots. */
module CaptureCuts {
  import opened Capture
  import opened Frontmatter
  import opened PythonText

  /** A whole line holds the mark: a line feed, alone or after a carriage return, or the end of the text follows. */
  predicate Fence(t: string, i: nat, mark: string) {
    && i + 3 <= |t| && t[i..i + 3] == mark
    && (i + 3 == |t| || t[i + 3] == '\n' || (i + 4 < |t| && t[i + 3] == '\r' && t[i + 4] == '\n'))
  }

  function FenceEnd(t: string, i: nat): (r: nat)
    requires i + 3 <= |t|
  {
    if i + 3 == |t| then i + 3 else if t[i + 3] == '\n' then i + 4 else i + 5
  }

  /** A line of `splitlines` starts here. */
  predicate Starts(t: string, i: nat) {
    0 < i <= |t| && t[i - 1] in BREAKS && !(t[i - 1] == '\r' && i < |t| && t[i] == '\n')
  }

  predicate AfterFeed(t: string, i: nat) { 0 < i <= |t| && t[i - 1] == '\n' }

  predicate BodyCloser(t: string, i: nat) { Starts(t, i) && Fence(t, i, "---") }

  predicate ScannerCloser(t: string, i: nat) { AfterFeed(t, i) && (Fence(t, i, "---") || Fence(t, i, "...")) }

  /** A closing fence for both readers. */
  predicate CommonCloser(t: string, i: nat) { AfterFeed(t, i) && Fence(t, i, "---") }

  /** A closing fence for one reader only: three dashes after another break than a line feed, or three dots. */
  predicate DoubtfulCloser(t: string, i: nat) {
    (BodyCloser(t, i) && !AfterFeed(t, i)) || (AfterFeed(t, i) && Fence(t, i, "..."))
  }

  lemma CloserKinds(t: string, i: nat)
    ensures BodyCloser(t, i) && ScannerCloser(t, i) <==> CommonCloser(t, i)
    ensures BodyCloser(t, i) || ScannerCloser(t, i) <==> CommonCloser(t, i) || DoubtfulCloser(t, i)
    ensures CommonCloser(t, i) ==> !DoubtfulCloser(t, i)
  {
  }

  /** The first closer at or after i. */
  ghost predicate FirstBody(t: string, i: nat, c: nat) {
    i <= c && BodyCloser(t, c) && forall k :: i <= k < c ==> !BodyCloser(t, k)
  }

  ghost predicate FirstScanner(t: string, i: nat, c: nat) {
    i <= c && ScannerCloser(t, c) && forall k :: i <= k < c ==> !ScannerCloser(t, k)
  }

  // ----- what the two readers find

  lemma LineHasNoStart(t: string, i: nat, k: nat)
    requires i < |t| && i < k < AfterBreak(t, LineEnd(t, i))
    ensures !Starts(t, k)
  {
  }

  lemma LineCloses(t: string, i: nat)
    requires i < |t|
    ensures var next := AfterBreak(t, LineEnd(t, i));
            && (Closes(t[i..next]) <==> Fence(t, i, "---"))
            && (Closes(t[i..next]) ==> next == FenceEnd(t, i))
            && (next < |t| ==> Starts(t, next))
  {
    var e := LineEnd(t, i);
    var next := AfterBreak(t, e);
    if Fence(t, i, "---") {
      FenceCloses(t, i, next);
    }
    if Closes(t[i..next]) {
      ClosesIsFence(t, i, next);
    }
  }

  lemma FenceCloses(t: string, i: nat, next: nat)
    requires i < |t| && next == AfterBreak(t, LineEnd(t, i)) && Fence(t, i, "---")
    ensures Closes(t[i..next])
  {
    assert forall k :: i <= k < i + 3 ==> t[k] == t[i..i + 3][k - i] == '-';
    FirstIs(t, i, |t|, BREAKS, i + 3);
    var line := t[i..next];
    assert |line| == next - i && forall k :: 0 <= k < |line| ==> line[k] == t[i + k];
    if i + 3 == |t| {
      assert line == "---";
    } else if t[i + 3] == '\n' {
      assert next == i + 4 && line[3] == '\n';
      assert line == "---\n";
    } else {
      assert next == i + 5 && line[3] == '\r' && line[4] == '\n';
      assert line == "---\r\n";
    }
  }

  lemma ClosesIsFence(t: string, i: nat, next: nat)
    requires i < |t| && next == AfterBreak(t, LineEnd(t, i)) && Closes(t[i..next])
    ensures Fence(t, i, "---") && next == FenceEnd(t, i)
  {
    var line, e := t[i..next], LineEnd(t, i);
    assert forall k :: 0 <= k < |line| ==> line[k] == t[i + k];
    assert e < |t| ==> t[e] == line[e - i];
    assert line[0] == line[1] == line[2] == '-';
    assert t[i..i + 3] == "---";
    if |line| == 4 {
      assert t[i + 3] == line[3] == '\n';
    } else if |line| == 5 {
      assert t[i + 3] == line[3] == '\r' && t[i + 4] == line[4] == '\n';
    }
  }

  lemma {:induction false} BodyFinds(t: string, i: nat)
    requires i <= |t| && Starts(t, i)
    ensures match AfterCloser(t, i)
            case None => forall k :: i <= k ==> !BodyCloser(t, k)
            case Some(r) => exists c :: FirstBody(t, i, c) && r == FenceEnd(t, c)
    decreases |t| - i
  {
    if i < |t| {
      var next := AfterBreak(t, LineEnd(t, i));
      LineCloses(t, i);
      if Closes(t[i..next]) {
        assert FirstBody(t, i, i);
      } else {
        forall k | i < k < next ensures !Starts(t, k) {
          LineHasNoStart(t, i, k);
        }
        if next < |t| {
          BodyFinds(t, next);
        }
        BodyLater(t, i, next);
        if AfterCloser(t, next).Some? {
          var c :| FirstBody(t, next, c) && AfterCloser(t, next) == Some(FenceEnd(t, c));
          assert FirstBody(t, i, c);
        }
      }
    }
  }

  lemma BodyLater(t: string, i: nat, next: nat)
    requires i < next <= |t| && !Fence(t, i, "---") && forall k :: i < k < next ==> !Starts(t, k)
    ensures forall c :: FirstBody(t, next, c) ==> FirstBody(t, i, c)
    ensures (forall k :: next <= k ==> !BodyCloser(t, k)) ==> forall k :: i <= k ==> !BodyCloser(t, k)
  {
  }

  lemma FeedLine(t: string, p: nat)
    requires p <= |t|
    ensures var b := LineBounds(t, p);
            && (ClosesAt(t, p, b.end) <==> Fence(t, p, "---") || Fence(t, p, "..."))
            && (ClosesAt(t, p, b.end) ==> (if b.next.Some? then b.next.value else |t|) == FenceEnd(t, p))
            && (b.next.Some? ==> AfterFeed(t, b.next.value))
            && (forall k :: p < k && (b.next.Some? ==> k < b.next.value) ==> !AfterFeed(t, k))
  {
    var f, b := First(t, p, |t|, {'\n'}), LineBounds(t, p);
    if Fence(t, p, "---") || Fence(t, p, "...") {
      assert forall k :: p <= k < p + 3 ==> t[k] == t[p..p + 3][k - p];
      FirstIs(t, p, |t|, {'\n'}, if p + 3 == |t| || t[p + 3] == '\n' then p + 3 else p + 4);
    }
    if ClosesAt(t, p, b.end) {
      assert |t[p..b.end]| == 3;
      assert forall k :: p <= k < p + 3 ==> t[k] == t[p..p + 3][k - p];
    }
  }

  lemma {:induction false} ScannerFinds(t: string, p: nat)
    requires p <= |t| && AfterFeed(t, p)
    ensures match FindCloser(t, p)
            case None => forall k :: p <= k ==> !ScannerCloser(t, k)
            case Some(closer) => FirstScanner(t, p, closer.start) && closer.end == FenceEnd(t, closer.start)
    decreases |t| - p
  {
    FeedLine(t, p);
    var b := LineBounds(t, p);
    hide LineBounds, ClosesAt, Fence, FenceEnd, AfterFeed;
    if !ClosesAt(t, p, b.end) && b.next.Some? {
      ScannerFinds(t, b.next.value);
    }
  }

  // ----- when they cut at the same place

  /** Before every closer that only one reader accepts there is one that both accept. */
  ghost predicate Clear(t: string, start: nat) {
    forall i :: start <= i && DoubtfulCloser(t, i) ==> exists j :: start <= j < i && CommonCloser(t, j)
  }

  function EndOf(closer: Option<Closer>): Option<nat> { if closer.Some? then Some(closer.value.end) else None }

  lemma OneEndOneFence(t: string, a: nat, b: nat)
    requires (BodyCloser(t, a) || ScannerCloser(t, a)) && (BodyCloser(t, b) || ScannerCloser(t, b))
    requires FenceEnd(t, a) == FenceEnd(t, b)
    ensures a == b
  {
    assert t[a..a + 3][2] == t[a + 2] && t[b..b + 3][2] == t[b + 2];
  }

  /** Behind an opening line both readers cut at the same place, or neither does, exactly when the text is clear. */
  lemma CutsAgreeExactly(t: string, start: nat)
    requires AfterFeed(t, start)
    ensures AfterCloser(t, start) == EndOf(FindCloser(t, start)) <==> Clear(t, start)
  {
    BodyFinds(t, start);
    ScannerFinds(t, start);
    forall i ensures BodyCloser(t, i) && ScannerCloser(t, i) <==> CommonCloser(t, i)
      ensures BodyCloser(t, i) || ScannerCloser(t, i) <==> CommonCloser(t, i) || DoubtfulCloser(t, i)
      ensures CommonCloser(t, i) ==> !DoubtfulCloser(t, i)
    {
      CloserKinds(t, i);
    }
    hide BodyCloser, ScannerCloser, CommonCloser, DoubtfulCloser, AfterCloser, FindCloser, FenceEnd;
    var s := FindCloser(t, start);
    if AfterCloser(t, start).Some? {
      var c :| FirstBody(t, start, c) && AfterCloser(t, start) == Some(FenceEnd(t, c));
      if s.Some? && s.value.end == FenceEnd(t, c) {
        OneEndOneFence(t, c, s.value.start);
      }
    }
  }

  // ----- whole texts

  /** Where `_body` cuts: after the closing line, if there is an opening one. */
  function BodyCut(t: string): (r: Option<nat>)
    ensures r.Some? ==> r.value <= |t|
  {
    if t == "" then None
    else
      var first := AfterBreak(t, LineEnd(t, 0));
      if Opener(t[..first]) then AfterCloser(t, first) else None
  }

  predicate Marked(t: string) { t != "" && t[0] == '\U{FEFF}' }

  /** Where the scanner's payload begins, if the text opens with a fence; a byte order mark may stand before it. */
  function PayloadStart(t: string): (r: Option<nat>)
    ensures r.Some? ==> r.value <= |t|
  {
    var start := if Marked(t) then 1 else 0;
    var b := LineBounds(t, start);
    if t[start..b.end] == "---" then b.next else None
  }

  /** Where the scanner cuts, whatever the size of the envelope. */
  function ScannerCut(t: string): (r: Option<nat>)
    ensures r.Some? ==> r.value <= |t|
  {
    var start := PayloadStart(t);
    if start.Some? then EndOf(FindCloser(t, start.value)) else None
  }

  /** The cuts are what the two readers return by. */
  lemma CutsAreTheReaders(t: string)
    ensures BodySpec(t) == AfterFence(t, BodyCut(t))
    ensures (ScannerCut(t).Some? <==> ExtractSpec(t).Envelope? || ExtractSpec(t).TooLarge?)
    ensures ExtractSpec(t).Envelope? ==> ScannerCut(t) == Some(ExtractSpec(t).offset)
  {
    hide LineBounds, FindCloser, Utf8Size, AfterCloser;
  }

  /** Without a byte order mark both see the same opening line. */
  lemma OpensAlike(t: string)
    requires t != "" && !Marked(t)
    ensures var first := AfterBreak(t, LineEnd(t, 0));
            if Opener(t[..first]) then PayloadStart(t) == Some(first) else PayloadStart(t) == None
  {
    var first, b := AfterBreak(t, LineEnd(t, 0)), LineBounds(t, 0);
    assert t[0..first] == t[..first];
    LineCloses(t, 0);
    FeedLine(t, 0);
    assert Opener(t[..first]) <==> Closes(t[..first]) && |t[..first]| > 3;
    assert t[0..b.end] == "---" ==> ClosesAt(t, 0, b.end);
    if Fence(t, 0, "---") {
      FenceBounds(t, 0);
      FenceCloses(t, 0, first);
    }
    hide LineBounds, LineEnd, AfterBreak;
  }

  lemma FenceBounds(t: string, p: nat)
    requires Fence(t, p, "---")
    ensures LineBounds(t, p) == Bounds(p + 3, if p + 3 == |t| then None else Some(FenceEnd(t, p)))
  {
    assert forall k :: p <= k < p + 3 ==> t[k] == t[p..p + 3][k - p] == '-';
    FirstIs(t, p, |t|, {'\n'}, if p + 3 == |t| || t[p + 3] == '\n' then p + 3 else p + 4);
  }

  lemma PayloadAfterFeed(t: string)
    ensures PayloadStart(t).Some? ==> AfterFeed(t, PayloadStart(t).value)
  {
    FeedLine(t, if Marked(t) then 1 else 0);
    hide LineBounds;
  }

  /** The two readers cut a text at the same place, or both not at all, exactly when it does not open with a fence,
      or it does and is clear; behind a byte order mark, which only the scanner skips, when nothing closes it. */
  lemma ReadersAgreeExactly(t: string)
    ensures var start := PayloadStart(t);
            BodyCut(t) == ScannerCut(t)
            <==> (start.Some? ==>
                    if Marked(t) then forall i :: start.value <= i ==> !ScannerCloser(t, i)
                    else Clear(t, start.value))
  {
    var start := PayloadStart(t);
    PayloadAfterFeed(t);
    if t != "" && !Marked(t) {
      OpensAlike(t);
      if start.Some? {
        CutsAgreeExactly(t, start.value);
      }
    } else if start.Some? {
      MarkIsNoFence(t);
      ScannerFinds(t, start.value);
    }
    hide PayloadStart, Clear, FindCloser, AfterCloser, ScannerCloser;
  }

  lemma MarkIsNoFence(t: string)
    requires Marked(t)
    ensures BodyCut(t) == None
  {
    var first := AfterBreak(t, LineEnd(t, 0));
    assert t[..first][0] == t[0];
    hide LineEnd, AfterBreak, AfterCloser;
  }

  /** Where they agree and the envelope is not too large, the body is what follows it, less one line break. */
  lemma AgreeingBody(t: string)
    requires BodyCut(t) == ScannerCut(t) && ExtractSpec(t).Envelope?
    ensures BodySpec(t) == Some(Unled(t[ExtractSpec(t).offset..]))
  {
    CutsAreTheReaders(t);
  }

  lemma CutsAt(t: string, b: nat, s: nat)
    requires Fence(t, 0, "---") && 3 < |t| && FirstBody(t, FenceEnd(t, 0), b) && FirstScanner(t, FenceEnd(t, 0), s)
    ensures BodyCut(t) == Some(FenceEnd(t, b)) && ScannerCut(t) == Some(FenceEnd(t, s))
  {
    var start := FenceEnd(t, 0);
    FenceBounds(t, 0);
    FenceCloses(t, 0, AfterBreak(t, LineEnd(t, 0)));
    assert t[0..3][0] == t[0];
    OpensAlike(t);
    PayloadAfterFeed(t);
    BodyFinds(t, start);
    ScannerFinds(t, start);
    hide LineBounds, LineEnd, AfterBreak, Fence, FenceEnd, AfterCloser, FindCloser, BodyCloser, ScannerCloser;
  }

  /** Three dashes after a form feed close the body only, so the body begins too early. */
  lemma FormFeedCuts()
    ensures var t := "---\na\U{0C}---\nb\n---\nc"; BodyCut(t) == Some(10) && ScannerCut(t) == Some(16)
  {
    var t := "---\na\U{0C}---\nb\n---\nc";
    assert t[0..3] == "---" && t[6..9] == "---" && t[12..15] == "---";
    assert BodyCloser(t, 6) && ScannerCloser(t, 12);
    CutsAt(t, 6, 12);
  }

  /** Three dots close the envelope only. */
  lemma DotsCut()
    ensures var t := "---\na\n...\nb\n---\nc"; BodyCut(t) == Some(16) && ScannerCut(t) == Some(10)
  {
    var t := "---\na\n...\nb\n---\nc";
    assert t[0..3] == "---" && t[6..9] == "..." && t[12..15] == "---";
    assert t[4] == 'a' && t[10] == 'b';
    assert BodyCloser(t, 12) && ScannerCloser(t, 6);
    forall k | 4 <= k < 12 ensures !BodyCloser(t, k) {
      assert t[k..k + 3][0] == t[k] && t[k..k + 3][1] == t[k + 1];
    }
    CutsAt(t, 12, 6);
  }
}

/** A family of texts without a link on which sixteen probes per byte run out: backtick runs of distinct lengths,
    none of which closes, before a long tail. */
module ScanWitness {
  import opened PythonText
  import opened LinkGrammar
  import opened LinkRefinement
  import opened ScanCosts

  function Repeat(c: char, n: nat): (r: string)
    ensures |r| == n && forall k :: 0 <= k < n ==> r[k] == c
  {
    if n == 0 then "" else [c] + Repeat(c, n - 1)
  }

  /** Runs of k, k - 1, ..., 1 backticks, each followed by a letter. */
  function Rungs(k: nat): string { if k == 0 then "" else Repeat('`', k) + "a" + Rungs(k - 1) }

  function Ladder(k: nat, tail: nat): string { "a" + Rungs(k) + Repeat('a', tail) }

  /** The runs of k, k - 1, ..., 1 backticks start at i, and only letters come after them. */
  predicate Standing(t: string, i: nat, k: nat)
    decreases k
  {
    if k == 0 then i <= |t| && forall j :: i <= j < |t| ==> t[j] == 'a'
    else i + k < |t| && (forall j :: i <= j < i + k ==> t[j] == '`') && t[i + k] == 'a' && Standing(t, i + k + 1, k - 1)
  }

  lemma {:induction false} LadderStands(t: string, i: nat, k: nat, tail: nat)
    requires i <= |t| && t[i..] == Rungs(k) + Repeat('a', tail)
    ensures Standing(t, i, k)
    decreases k
  {
    var rest := t[i..];
    assert forall j :: i <= j < |t| ==> t[j] == rest[j - i];
    if k > 0 {
      RungStands(rest, k, tail);
      assert t[i + k + 1..] == rest[k + 1..];
      LadderStands(t, i + k + 1, k - 1, tail);
    }
  }

  lemma RungStands(rest: string, k: nat, tail: nat)
    requires rest == Rungs(k) + Repeat('a', tail) && k > 0
    ensures k < |rest| && rest[k] == 'a' && (forall j :: 0 <= j < k ==> rest[j] == '`')
    ensures rest[k + 1..] == Rungs(k - 1) + Repeat('a', tail)
  {
    var run, after := Repeat('`', k), "a" + (Rungs(k - 1) + Repeat('a', tail));
    assert rest == run + after;
    hide Rungs, Repeat;
  }

  lemma {:induction false} RungsSize(k: nat)
    ensures 2 * |Rungs(k)| == k * (k + 1) + 2 * k
    decreases k
  {
    if k > 0 {
      RungsSize(k - 1);
      assert k * (k + 1) == (k - 1) * k + 2 * k;
    }
  }

  /** No n backticks in a row, if n > k. */
  lemma {:induction false} NoLongRun(t: string, i: nat, k: nat, c: nat, n: nat)
    requires Standing(t, i, k) && i <= c && c + n <= |t| && n > k
    ensures exists j :: c <= j < c + n && t[j] != '`'
    decreases k
  {
    if k == 0 {
      assert t[c] == 'a';
    } else if c <= i + k {
      assert t[i + k] == 'a';
    } else {
      NoLongRun(t, i + k + 1, k - 1, c, n);
    }
  }

  lemma NeverClosed(t: string, i: nat, k: nat)
    requires Standing(t, i, k) && k > 0
    ensures FirstClose(t, i + k, |t|, k).None?
  {
    forall c | i + k <= c
      ensures !ClosesAt(t, c, |t|, k)
    {
      if c + k <= |t| {
        if c == i + k {
          assert t[c] == 'a';
        } else {
          NoLongRun(t, i + k + 1, k - 1, c, k);
        }
      }
    }
  }

  /** Until the end of the line the search for a close pays twice for every letter of the tail. */
  lemma {:induction false} SpanPaysTail(t: string, i: nat, n: nat, tail: nat)
    requires i + tail <= |t| && n > 0 && FirstClose(t, i, |t|, n).None? && (0 < i < |t| && t[i] == '`' ==> t[i - 1] != '`')
    requires forall j :: |t| - tail <= j < |t| ==> t[j] != '`'
    ensures SpanCost(t, i, |t|, n) >= 2 * tail
    decreases |t| - i
  {
    hide FirstClose, ClosesAt;
    if i < |t| {
      if t[i] != '`' {
        NotAtTick(t, i, |t|, n);
        SpanPaysTail(t, i + 1, n, if i + tail == |t| then tail - 1 else tail);
      } else {
        var end := RunEnd(t, i + 1, |t|, '`');
        if end - i == n {
          ClosesHere(t, i, |t|, n);
        } else {
          OtherRun(t, i, end, |t|, n);
          assert tail > 0 ==> t[|t| - tail] != '`';
          assert end + tail <= |t|;
          SpanPaysTail(t, end, n, tail);
        }
      }
    }
  }

  predicate Plain(t: string) { forall j :: 0 <= j < |t| ==> t[j] == 'a' || t[j] == '`' }

  /** While the Markdown cursor is ahead only the visit is paid. */
  lemma {:induction false} Skipped(t: string, i: nat, m: nat)
    requires Plain(t) && i <= m <= |t|
    ensures LineCost(t, i, |t|, 0, false, m) == (m - i) + LineCost(t, m, |t|, 0, false, m)
    decreases m - i
  {
    if i < m {
      Skipped(t, i + 1, m);
    }
  }

  lemma UnclosedRun(t: string, i: nat, k: nat, tail: nat)
    requires Standing(t, i, k) && k > 0 && i + k + tail < |t|
    requires forall j :: |t| - tail <= j < |t| ==> t[j] != '`'
    ensures t[i] == '`' && t[i + k] == 'a' && CodeCost(t, i, |t|) >= 2 * tail && CodeNext(t, i, |t|) == i + k
  {
    RunIs(t, i, |t|, i + k);
    RunIs(t, i + 1, |t|, i + k);
    NeverClosed(t, i, k);
    SpanPaysTail(t, i + k, k, tail);
    hide FirstClose, SpanCost, RunEnd;
  }

  lemma StepAtTick(t: string, i: nat, m: nat)
    requires Plain(t) && m <= i < |t| && t[i] == '`'
    ensures LineCost(t, i, |t|, 0, false, m)
         == 1 + CodeCost(t, i, |t|) + LineCost(t, i + 1, |t|, 0, false, CodeNext(t, i, |t|))
  {
    hide CodeCost, CodeNext;
  }

  lemma StepAtLetter(t: string, i: nat, m: nat)
    requires Plain(t) && m <= i < |t| && t[i] == 'a'
    ensures LineCost(t, i, |t|, 0, false, m) == 1 + LineCost(t, i + 1, |t|, 0, false, i + 1)
  {
    hide CodeCost, CodeNext;
  }

  /** A run that nothing closes pays twice for the tail. */
  lemma RungPays(t: string, i: nat, k: nat, m: nat, tail: nat)
    requires Plain(t) && Standing(t, i, k) && k > 0 && m <= i && i + k + tail < |t|
    requires forall j :: |t| - tail <= j < |t| ==> t[j] != '`'
    ensures LineCost(t, i, |t|, 0, false, m) >= 2 * tail + LineCost(t, i + k + 1, |t|, 0, false, i + k + 1)
  {
    hide *;
    UnclosedRun(t, i, k, tail);
    StepAtTick(t, i, m);
    Skipped(t, i + 1, i + k);
    StepAtLetter(t, i + k, i + k);
  }

  lemma {:induction false} RunIs(t: string, i: nat, e: nat, run: nat)
    requires i <= run < e <= |t| && (forall j :: i <= j < run ==> t[j] == '`') && t[run] != '`'
    ensures RunEnd(t, i, e, '`') == run
    decreases run - i
  {
    if i < run {
      RunIs(t, i + 1, e, run);
    }
  }

  lemma {:induction false} LadderPays(t: string, i: nat, k: nat, m: nat, tail: nat)
    requires Plain(t) && Standing(t, i, k) && m <= i && |t| >= tail && i <= |t| - tail
    requires forall j :: |t| - tail <= j < |t| ==> t[j] != '`'
    requires k > 0 ==> Reaches(t, i, k, tail)
    ensures LineCost(t, i, |t|, 0, false, m) >= 2 * tail * k
    decreases k
  {
    hide *;
    if k > 0 {
      Rung(t, i, k, tail);
      RungPays(t, i, k, m, tail);
      LadderPays(t, i + k + 1, k - 1, i + k + 1, tail);
      assert 2 * tail * k == 2 * tail * (k - 1) + 2 * tail;
    }
  }

  lemma Rung(t: string, i: nat, k: nat, tail: nat)
    requires Standing(t, i, k) && k > 0 && Reaches(t, i, k, tail)
    ensures i + k + tail < |t| && Standing(t, i + k + 1, k - 1) && (k > 1 ==> Reaches(t, i + k + 1, k - 1, tail))
  {
  }

  /** All the runs end before the tail. */
  predicate Reaches(t: string, i: nat, k: nat, tail: nat)
    decreases k
  {
    if k == 0 then i + tail <= |t| else i + k + tail < |t| && Reaches(t, i + k + 1, k - 1, tail)
  }

  lemma {:induction false} RungsReach(t: string, i: nat, k: nat, tail: nat)
    requires i + |Rungs(k)| + tail == |t|
    ensures k > 0 ==> Reaches(t, i, k, tail)
    decreases k
  {
    if k > 0 {
      RungsReach(t, i + k + 1, k - 1, tail);
    }
  }

  lemma {:induction false} RungsArePlain(k: nat)
    ensures Plain(Rungs(k))
    decreases k
  {
    if k > 0 {
      RungsArePlain(k - 1);
    }
  }

  /** One line, which is no fence line. */
  lemma LadderIsOneLine(k: nat, tail: nat)
    ensures var t := Ladder(k, tail);
            && t[0] == 'a' && Plain(t) && LineEnd(t, 0) == |t| && FenceAt(t, 0, |t|).None?
            && (forall j :: |t| - tail <= j < |t| ==> t[j] == 'a')
  {
    RungsArePlain(k);
    var t := Ladder(k, tail);
    assert forall j :: 1 <= j < 1 + |Rungs(k)| ==> t[j] == Rungs(k)[j - 1];
    assert forall j :: 1 + |Rungs(k)| <= j < |t| ==> t[j] == Repeat('a', tail)[j - 1 - |Rungs(k)|];
    FirstIs(t, 0, |t|, BREAKS, |t|);
  }

  /** Every run pays twice for the tail. */
  lemma LadderCost(k: nat, tail: nat)
    ensures RecognitionCost(Ladder(k, tail)) >= 2 * tail * k
  {
    var t := Ladder(k, tail);
    LadderIsOneLine(k, tail);
    assert t[1..] == Rungs(k) + Repeat('a', tail);
    LadderStands(t, 1, k, tail);
    RungsReach(t, 1, k, tail);
    hide Ladder, Rungs, Standing, Reaches, FenceAt, FenceCost, LineEnd;
    LadderPays(t, 1, k, 1, tail);
    assert LineCost(t, 0, |t|, 0, false, 0) >= LineCost(t, 1, |t|, 0, false, 1);
    assert RecognitionCost(t) >= LineCost(t, 0, |t|, 0, false, 0);
  }

  lemma {:induction false} PlainHasNoLinks(t: string, i: nat, m: nat)
    requires Plain(t) && i <= |t| && m <= |t|
    ensures LineScan(t, i, |t|, 0, false, m) == []
    decreases |t| - i
  {
    hide CodeNext;
    if i < |t| {
      PlainHasNoLinks(t, i + 1, SkippingStep(t, i, |t|, m).next);
    }
  }

  lemma {:induction false} PlainSize(t: string, e: nat)
    requires Plain(t) && e <= |t|
    ensures Utf8Size(t, 0, e) == e
    decreases e
  {
    if e > 0 {
      PlainSize(t, e - 1);
    }
  }

  /** Nine such runs before a tail of more than 440 letters: there is not a single link, and recognising that costs
      more than sixteen probes per byte. */
  lemma SixteenPerByteRunOut(tail: nat)
    requires tail > 440
    ensures var t := Ladder(9, tail);
            Recognition(t) == [] && RecognitionCost(t) > 16 * Utf8Size(t, 0, |t|)
  {
    var t := Ladder(9, tail);
    RungsSize(9);
    LadderIsOneLine(9, tail);
    LadderCost(9, tail);
    PlainSize(t, |t|);
    assert |t| == 1 + 54 + tail;
    PlainHasNoLinks(t, 0, 0);
    OneLineScan(t);
  }

  lemma OneLineScan(t: string)
    requires t != "" && LineEnd(t, 0) == |t| && FenceAt(t, 0, |t|).None?
    ensures Recognition(t) == LineScan(t, 0, |t|, 0, false, 0)
  {
    hide FenceAt, LineScan;
    assert NextLine(t, 0, None) == [];
    assert TextScan(t, 0, None) == LineScan(t, 0, |t|, 0, false, 0) + NextLine(t, 0, None);
  }
}

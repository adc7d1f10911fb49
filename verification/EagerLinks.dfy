/** The eager, line-splitting parsers of both dialects, proved against the grammar. */
module EagerLinks {
  import opened PythonText
  import opened LinkGrammar

  predicate AllTicks(marker: string) {
    |marker| > 0 && forall k :: 0 <= k < |marker| ==> marker[k] == '`'
  }

  lemma ClosesOccurs(line: string, c: nat, e: nat, marker: string)
    requires e <= |line| && AllTicks(marker) && ClosesAt(line, c, e, |marker|)
    ensures Occurs(line, c, e, marker)
  {
    assert line[c..c + |marker|] == marker;
  }

  lemma OccursTicks(line: string, c: nat, e: nat, marker: string)
    requires e <= |line| && AllTicks(marker) && Occurs(line, c, e, marker)
    ensures forall k :: c <= k < c + |marker| ==> line[k] == '`'
  {
    forall k | c <= k < c + |marker| ensures line[k] == '`' {
      assert line[k] == line[c..c + |marker|][k - c];
    }
  }

  /** Searching for the marker text and rejecting longer runs finds the first exact run. */
  method FindCodeSpanClose(line: string, marker: string, start: nat) returns (r: Option<nat>)
    requires AllTicks(marker) && start <= |line|
    ensures r == FirstClose(line, start, |line|, |marker|)
  {
    var cursor, e, n := start, |line|, |marker|;
    while true
      invariant start <= cursor <= e
      invariant FirstClose(line, start, e, n) == FirstClose(line, cursor, e, n)
      decreases e - cursor
    {
      var closing := Find(line, cursor, e, marker);
      forall c | cursor <= c && (closing.Some? ==> c < closing.value) && ClosesAt(line, c, e, n) ensures false {
        ClosesOccurs(line, c, e, marker);
      }
      if closing.None? {
        return None;
      }
      var at := closing.value;
      FirstCloseSkips(line, cursor, at, e, n);
      OccursTicks(line, at, e, marker);
      var beforeIsTick := at > 0 && line[at - 1] == '`';
      var after := at + n;
      var afterIsTick := after < e && line[after] == '`';
      if !beforeIsTick && !afterIsTick {
        return closing;
      }
      cursor := at + 1;
    }
  }

  method ParseAt(line: string, start: nat) returns (r: Step)
    requires start < |line|
    ensures r == MarkdownAt(line, start, |line|)
  {
    var labelEnd := start + 1;
    while labelEnd < |line| && line[labelEnd] !in LABEL_STOP
      invariant start < labelEnd <= |line|
      invariant First(line, start + 1, |line|, LABEL_STOP) == First(line, labelEnd, |line|, LABEL_STOP)
    {
      labelEnd := labelEnd + 1;
    }
    if labelEnd >= |line| {
      return Step(None, |line|);
    }
    if line[labelEnd] == '[' {
      return Step(None, labelEnd);
    }
    if line[labelEnd] == '\0' {
      return Step(None, labelEnd + 1);
    }
    if labelEnd + 1 >= |line| || line[labelEnd + 1] != '(' {
      return Step(None, labelEnd + 1);
    }
    var caption := line[start + 1..labelEnd];
    var destinationStart := labelEnd + 2;
    if destinationStart >= |line| {
      return Step(None, |line|);
    }
    r := ParseDestination(line, caption, destinationStart);
  }

  method ParseDestination(line: string, caption: string, start: nat) returns (r: Step)
    requires start < |line|
    ensures r == DestinationAt(line, caption, start, |line|)
  {
    hide NoteDestination;
    var raw, end;
    if line[start] == '<' {
      var angleEnd := Find(line, start + 1, |line|, ">");
      if angleEnd.None? {
        return Step(None, |line|);
      }
      if angleEnd.value + 1 >= |line| || line[angleEnd.value + 1] != ')' {
        return Step(None, angleEnd.value + 1);
      }
      raw := line[start + 1..angleEnd.value];
      end := angleEnd.value + 2;
    } else {
      var destinationEnd := Find(line, start, |line|, ")");
      if destinationEnd.None? {
        return Step(None, |line|);
      }
      raw := line[start..destinationEnd.value];
      if HasSpace(raw) {
        return Step(None, destinationEnd.value + 1);
      }
      end := destinationEnd.value + 1;
    }
    var parsed := NoteDestination(raw);
    if parsed.None? {
      return Step(None, end);
    }
    return Step(Some(Spec(parsed.value.0, parsed.value.1, Some(caption))), end);
  }

  method SkipCodeSpan(line: string, cursor: nat) returns (next: nat)
    requires cursor < |line| && line[cursor] == '`'
    ensures next == CodeNext(line, cursor, |line|)
  {
    hide FirstClose;
    var runEnd := cursor + 1;
    while runEnd < |line| && line[runEnd] == '`'
      invariant cursor < runEnd <= |line|
      invariant RunEnd(line, cursor, |line|, '`') == RunEnd(line, runEnd, |line|, '`')
      invariant forall k :: cursor <= k < runEnd ==> line[k] == '`'
    {
      runEnd := runEnd + 1;
    }
    var marker := line[cursor..runEnd];
    var closing := FindCodeSpanClose(line, marker, runEnd);
    next := if closing.Some? then closing.value + |marker| else runEnd;
  }

  /** The line's links are those found so far and those still ahead of the cursor. */
  predicate Covers(whole: seq<Item>, found: seq<Item>, ahead: seq<Item>) {
    whole == found + ahead
  }

  lemma CoversMore(whole: seq<Item>, found: seq<Item>, now: seq<Item>, ahead: seq<Item>)
    requires Covers(whole, found, now + ahead)
    ensures Covers(whole, found + now, ahead)
  {
    assert found + (now + ahead) == found + now + ahead;
  }

  lemma MarkdownLineUnfold(line: string, cursor: nat, offset: nat)
    requires cursor < |line|
    ensures var s := MarkdownStep(line, cursor, |line|);
            Shift(MarkdownLine(line, cursor, |line|), offset)
            == Emit(offset + cursor, MarkdownLink, s.spec) + Shift(MarkdownLine(line, s.next, |line|), offset)
  {
    hide MarkdownStep;
    var s := MarkdownStep(line, cursor, |line|);
    ShiftEmit(cursor, MarkdownLink, s.spec, MarkdownLine(line, s.next, |line|), offset);
  }

  method ParseMarkdownLine(line: string, sourceOffset: nat) returns (links: seq<Item>)
    ensures links == Shift(MarkdownLine(line, 0, |line|), sourceOffset)
  {
    hide MarkdownAt, CodeNext, MarkdownLine, Covers;
    links := [];
    var cursor: nat := 0;
    ghost var whole := Shift(MarkdownLine(line, 0, |line|), sourceOffset);
    CoversStart(whole);
    while cursor < |line|
      invariant cursor <= |line|
      invariant Covers(whole, links, Shift(MarkdownLine(line, cursor, |line|), sourceOffset))
    {
      ghost var step, before := MarkdownStep(line, cursor, |line|), links;
      ghost var now := Emit(sourceOffset + cursor, MarkdownLink, step.spec);
      MarkdownLineUnfold(line, cursor, sourceOffset);
      CoversMore(whole, links, now, Shift(MarkdownLine(line, step.next, |line|), sourceOffset));
      if line[cursor] == '`' {
        cursor := SkipCodeSpan(line, cursor);
      } else if line[cursor] != '[' || (cursor > 0 && line[cursor - 1] == '!') {
        cursor := cursor + 1;
      } else {
        var r := ParseAt(line, cursor);
        if r.spec.Some? {
          links := links + [Item(sourceOffset + cursor, MarkdownLink, r.spec.value)];
        }
        cursor := r.next;
      }
      assert links == before + now;
    }
    MarkdownLineEnds(line);
    CoversEnd(whole, links);
  }

  lemma CoversStart(whole: seq<Item>)
    ensures Covers(whole, [], whole)
  {
    assert [] + whole == whole;
  }

  lemma CoversEnd(whole: seq<Item>, found: seq<Item>)
    requires Covers(whole, found, [])
    ensures whole == found
  {
  }

  lemma MarkdownLineEnds(line: string)
    ensures MarkdownLine(line, |line|, |line|) == []
  {
  }

  lemma WikiLineUnfold(line: string, cursor: nat, offset: nat)
    requires cursor <= |line|
    ensures var start := Find(line, cursor, |line|, "[[");
            if start.None? then WikiLine(line, cursor, |line|) == []
            else
              var end := Find(line, start.value + 2, |line|, "]]");
              if end.None? then WikiLine(line, cursor, |line|) == []
              else
                Shift(WikiLine(line, cursor, |line|), offset)
                == Emit(offset + start.value, ObsidianWikilink, WikiBody(line[start.value + 2..end.value]))
                   + Shift(WikiLine(line, end.value + 2, |line|), offset)
  {
    hide WikiBody, Find, WikiLine, Emit;
    var start := Find(line, cursor, |line|, "[[");
    if start.None? {
      WikiLineAbsent(line, cursor, |line|);
    } else {
      WikiLineFound(line, cursor, |line|, start.value);
      var end := Find(line, start.value + 2, |line|, "]]");
      if end.Some? {
        ShiftEmit(start.value, ObsidianWikilink, WikiBody(line[start.value + 2..end.value]),
                  WikiLine(line, end.value + 2, |line|), offset);
      }
    }
  }

  method ParseWikiLine(line: string, sourceOffset: nat) returns (links: seq<Item>)
    ensures links == Shift(WikiLine(line, 0, |line|), sourceOffset)
  {
    hide WikiBody, WikiLine, Covers, Find, Occurs;
    links := [];
    var cursor: nat := 0;
    ghost var whole := Shift(WikiLine(line, 0, |line|), sourceOffset);
    CoversStart(whole);
    while true
      invariant cursor <= |line|
      invariant Covers(whole, links, Shift(WikiLine(line, cursor, |line|), sourceOffset))
      decreases |line| - cursor
    {
      WikiLineUnfold(line, cursor, sourceOffset);
      var start := Find(line, cursor, |line|, "[[");
      if start.None? {
        CoversEnd(whole, links);
        return;
      }
      FindBound(line, cursor, |line|, "[[");
      var end := Find(line, start.value + 2, |line|, "]]");
      FindBound(line, start.value + 2, |line|, "]]");
      if end.None? {
        CoversEnd(whole, links);
        return;
      }
      var body := line[start.value + 2..end.value];
      ghost var before, now := links, Emit(sourceOffset + start.value, ObsidianWikilink, WikiBody(body));
      CoversMore(whole, links, now, Shift(WikiLine(line, end.value + 2, |line|), sourceOffset));
      if Find(body, 0, |body|, "[[").None? {
        var parsed := WikiBody(body);
        if parsed.Some? {
          links := links + [Item(sourceOffset + start.value, ObsidianWikilink, parsed.value)];
        }
      } else {
        NestedWiki(body);
      }
      assert links == before + now;
      cursor := end.value + 2;
    }
  }

  lemma NestedWiki(body: string)
    requires Find(body, 0, |body|, "[[").Some?
    ensures WikiBody(body).None?
  {
    var k := Find(body, 0, |body|, "[[").value;
    assert body[k] == body[k..k + 2][0] == '[';
  }

  /** `parse` of either dialect: the dialect's own line parser under one fence automaton. */
  method Parse(origin: Origin, markdown: string) returns (links: seq<Item>)
    ensures links == EagerParse(origin, markdown)
  {
    hide FenceAt, WikiLine, MarkdownLine, Shift;
    links := [];
    var fence: Option<Fence> := None;
    var sourceOffset: nat, k: nat, lines := 0, 0, SplitLines(markdown, 0);
    while k < |lines|
      invariant k <= |lines|
      invariant links + EagerItems(origin, lines[k..], sourceOffset, fence) == EagerParse(origin, markdown)
    {
      var line, raw := lines[k].content, |lines[k].content| + |lines[k].ending|;
      assert lines[k..][0] == lines[k] && lines[k..][1..] == lines[k + 1..];
      var fenceMatch := FenceAt(line, 0, |line|);
      if fenceMatch.Some? {
        if fence.None? {
          fence := Some(fenceMatch.value.0);
        } else if && fenceMatch.value.0.marker == fence.value.marker
                  && fenceMatch.value.0.length >= fence.value.length
                  && fenceMatch.value.1 {
          fence := None;
        }
      } else if fence.None? {
        var found;
        if origin == ObsidianWikilink {
          found := ParseWikiLine(line, sourceOffset);
        } else {
          found := ParseMarkdownLine(line, sourceOffset);
        }
        links := links + found;
      }
      sourceOffset := sourceOffset + raw;
      k := k + 1;
    }
  }
}

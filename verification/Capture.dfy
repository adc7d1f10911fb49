/** A capture as it is printed, and the body promotion cuts out of it again. */
module Capture {
  import opened Frontmatter
  import opened PythonText

  /** `_compose`: the serialised metadata, an empty line's feed, and the content. */
  function Compose(metadata: seq<Member>, accepted: bool, content: string): Option<string> {
    var e := Serialize(metadata, accepted);
    if e.Emitted? then Some(e.text + "\n" + content) else None
  }

  // ----- `_body`

  predicate Opener(line: string) { line in {"---\n", "---\r\n"} }

  predicate Closes(line: string) { line in {"---\n", "---\r\n", "---"} }

  /** The position after the first closing line at or after i, lines cut as `splitlines` does. */
  function AfterCloser(t: string, i: nat): (r: Option<nat>)
    requires i <= |t|
    ensures r.Some? ==> i <= r.value <= |t|
    decreases |t| - i
  {
    if i == |t| then None
    else
      var next := AfterBreak(t, LineEnd(t, i));
      if Closes(t[i..next]) then Some(next) else AfterCloser(t, next)
  }

  /** What follows the closer, less one line break; None is the refusal of an unsafe source. */
  function AfterFence(t: string, closer: Option<nat>): Option<string>
    requires closer.Some? ==> closer.value <= |t|
  {
    if closer.Some? then Some(Unled(t[closer.value..])) else None
  }

  function BodySpec(t: string): Option<string> {
    if t == "" then None
    else
      var first := AfterBreak(t, LineEnd(t, 0));
      if Opener(t[..first]) then AfterFence(t, AfterCloser(t, first)) else None
  }

  function Unled(body: string): string {
    if |body| >= 2 && body[..2] == "\r\n" then body[2..]
    else if |body| >= 1 && body[0] == '\n' then body[1..]
    else body
  }

  lemma CloserStep(t: string, i: nat, next: nat)
    requires i < |t| && next == AfterBreak(t, LineEnd(t, i))
    ensures i < next && AfterCloser(t, i) == if Closes(t[i..next]) then Some(next) else AfterCloser(t, next)
  {
  }

  function Whole(line: RawLine): string { line.content + line.ending }

  lemma SplitStep(t: string, i: nat, next: nat)
    requires i < |t| && next == AfterBreak(t, LineEnd(t, i))
    ensures var lines := SplitLines(t, i);
            lines != [] && Whole(lines[0]) == t[i..next] && lines[1..] == SplitLines(t, next)
  {
    var e := LineEnd(t, i);
    assert t[i..e] + t[e..next] == t[i..next];
  }

  method Body(markdown: string) returns (r: Option<string>)
    ensures r == BodySpec(markdown)
  {
    var lines := SplitLines(markdown, 0);
    if lines == [] {
      return None;
    }
    hide LineEnd, AfterBreak, Opener, Whole, SplitLines, AfterFence, AfterCloser;
    ghost var first := AfterBreak(markdown, LineEnd(markdown, 0));
    SplitStep(markdown, 0, first);
    assert markdown[0..first] == markdown[..first];
    if !Opener(Whole(lines[0])) {
      return None;
    }
    r := BodyFrom(markdown, |Whole(lines[0])|, lines[1..]);
  }

  /** The loop over the lines that follow the opener. */
  method BodyFrom(markdown: string, start: nat, lines: seq<RawLine>) returns (r: Option<string>)
    requires start <= |markdown| && lines == SplitLines(markdown, start)
    ensures r == AfterFence(markdown, AfterCloser(markdown, start))
  {
    hide AfterBreak, Closes, Whole, SplitLines, AfterCloser, Unled;
    var offset := start;
    for i := 0 to |lines|
      invariant start <= offset <= |markdown| && SplitLines(markdown, offset) == lines[i..]
      invariant AfterCloser(markdown, start) == AfterCloser(markdown, offset)
    {
      LinesLeft(markdown, offset);
      ghost var next := AfterBreak(markdown, LineEnd(markdown, offset));
      SplitStep(markdown, offset, next);
      CloserStep(markdown, offset, next);
      assert lines[i..][1..] == lines[i + 1..];
      offset := offset + |Whole(lines[i])|;
      if Closes(Whole(lines[i])) {
        return Some(Unled(markdown[offset..]));
      }
    }
    LinesLeft(markdown, offset);
    return None;
  }

  lemma LinesLeft(t: string, i: nat)
    requires i <= |t|
    ensures SplitLines(t, i) == [] <==> i == |t|
    ensures i == |t| ==> AfterCloser(t, i) == None
  {
  }

  /** The line that starts after `before`. */
  lemma LineThere(t: string, before: string, line: string, rest: string)
    requires t == before + line + "\n" + rest && OneLine(line)
    ensures |before| < |t| && LineEnd(t, |before|) == |before| + |line|
    ensures AfterBreak(t, |before| + |line|) == |before| + |line| + 1 <= |t|
    ensures t[|before|..|before| + |line| + 1] == line + "\n" && t[|before| + |line| + 1..] == rest
  {
    var i, e := |before|, |before| + |line|;
    assert t[e] == '\n';
    assert forall k :: i <= k < e ==> t[k] == line[k - i];
    FirstIs(t, i, |t|, BREAKS, e);
  }

  /** A composed capture opens with a fence line, one line of metadata and another fence line. */
  lemma ComposedLines(line: string, content: string)
    requires OneLine(line)
    ensures var t, n := EnvelopeOf(line) + "\n" + content, |line|;
            && |t| >= 9 + n
            && AfterBreak(t, LineEnd(t, 0)) == 4 && t[..4] == "---\n"
            && AfterBreak(t, LineEnd(t, 4)) == 5 + n && t[4..5 + n] == line + "\n"
            && AfterBreak(t, LineEnd(t, 5 + n)) == 9 + n && t[5 + n..9 + n] == "---\n"
            && t[9 + n..] == "\n" + content
  {
    var t := EnvelopeOf(line) + "\n" + content;
    assert OneLine("---");
    hide OneLine, LineEnd, AfterBreak;
    var second, third := line + "\n---\n\n" + content, "\n" + content;
    assert t == "" + "---" + "\n" + second;
    LineThere(t, "", "---", second);
    assert t == "---\n" + line + "\n" + ("---\n\n" + content);
    LineThere(t, "---\n", line, "---\n\n" + content);
    assert t == ("---\n" + line + "\n") + "---" + "\n" + third;
    LineThere(t, "---\n" + line + "\n", "---", third);
  }

  lemma ComposedBody(line: string, content: string)
    requires OneLine(line) && line != "" && line[0] == '{'
    ensures BodySpec(EnvelopeOf(line) + "\n" + content) == Some(content)
  {
    var t, n := EnvelopeOf(line) + "\n" + content, |line|;
    ComposedLines(line, content);
    NotACloser(line);
    UnledFeed(content);
    hide OneLine, LineEnd, AfterBreak, EnvelopeOf, AfterCloser, Closes, Opener, Unled;
    CloserStep(t, 4, 5 + n);
    CloserStep(t, 5 + n, 9 + n);
  }

  lemma NotACloser(line: string)
    requires line != "" && line[0] == '{'
    ensures !Closes(line + "\n") && Opener("---\n") && Closes("---\n")
  {
    assert (line + "\n")[0] == '{';
  }

  lemma UnledFeed(content: string)
    ensures Unled("\n" + content) == content
  {
    var body := "\n" + content;
    assert body[0] == '\n' && body[1..] == content;
    assert |body| >= 2 ==> body[..2][0] == '\n';
  }

  /** Whatever the metadata and the content, the body of the composed capture is the content. */
  lemma BodyOfComposed(metadata: seq<Member>, accepted: bool, content: string)
    ensures var t := Compose(metadata, accepted, content); t.Some? ==> BodySpec(t.value) == Some(content)
  {
    SerializedShape(metadata, accepted);
    hide Serialize, OneLine, EnvelopeOf, BodySpec;
    if Serialize(metadata, accepted).Emitted? {
      var line :| Serialize(metadata, accepted).text == EnvelopeOf(line) && OneLine(line) && line != "" && line[0] == '{';
      ComposedBody(line, content);
    }
  }

  // ----- the envelope scanner cuts at the same closer

  lemma BoundsThere(t: string, before: string, line: string, rest: string)
    requires t == before + line + "\n" + rest && OneLine(line)
    ensures |before| + |line| < |t|
    ensures LineBounds(t, |before|) == Bounds(|before| + |line|, Some(|before| + |line| + 1))
    ensures t[|before|..|before| + |line|] == line
  {
    var i, e := |before|, |before| + |line|;
    assert t[e] == '\n';
    assert forall k :: i <= k < e ==> t[k] == line[k - i] && line[k - i] in line;
    FirstIs(t, i, |t|, {'\n'}, e);
    assert e > i ==> t[e - 1] != '\r';
  }

  lemma {:induction false} SizeOfPrefix(t: string, p: string, n: nat)
    requires n <= |p| <= |t| && t[..|p|] == p
    ensures Utf8Size(t, 0, n) == Utf8Size(p, 0, n)
    decreases n
  {
    if n > 0 {
      SizeOfPrefix(t, p, n - 1);
      assert t[n - 1] == t[..|p|][n - 1];
    }
  }

  lemma ComposedBounds(line: string, content: string)
    requires OneLine(line)
    ensures var t, n := EnvelopeOf(line) + "\n" + content, |line|;
            && 9 + n <= |t|
            && LineBounds(t, 0) == Bounds(3, Some(4)) && t[0..3] == "---"
            && LineBounds(t, 4) == Bounds(4 + n, Some(5 + n)) && t[4..4 + n] == line
            && LineBounds(t, 5 + n) == Bounds(8 + n, Some(9 + n)) && t[5 + n..8 + n] == "---"
  {
    var t := EnvelopeOf(line) + "\n" + content;
    assert OneLine("---");
    hide OneLine, LineBounds;
    assert t == "" + "---" + "\n" + (line + "\n---\n\n" + content);
    BoundsThere(t, "", "---", line + "\n---\n\n" + content);
    assert t == "---\n" + line + "\n" + ("---\n\n" + content);
    BoundsThere(t, "---\n", line, "---\n\n" + content);
    assert t == ("---\n" + line + "\n") + "---" + "\n" + ("\n" + content);
    BoundsThere(t, "---\n" + line + "\n", "---", "\n" + content);
  }

  lemma ComposedEnvelope(line: string, content: string)
    requires OneLine(line) && line != "" && line[0] == '{' && Bytes(EnvelopeOf(line)) <= MAX_FRONTMATTER_BYTES
    ensures ExtractSpec(EnvelopeOf(line) + "\n" + content) == Envelope(line + "\n", |EnvelopeOf(line)|)
  {
    var t, n, e := EnvelopeOf(line) + "\n" + content, |line|, EnvelopeOf(line);
    ComposedBounds(line, content);
    assert |e| == 9 + n && t[..|e|] == e;
    SizeOfPrefix(t, e, |e|);
    assert e == "---\n" + (line + "\n") + "---\n";
    assert t[4..5 + n] == line + "\n";
    assert t[0] == t[0..3][0];
    hide OneLine, LineBounds, Utf8Size, ExtractSpec;
    CutComposed(t, line);
  }

  lemma CutComposed(t: string, line: string)
    requires var n := |line|;
             && 9 + n <= |t| && t[0] == '-' && t[0..3] == "---" && t[5 + n..8 + n] == "---"
             && t[4..4 + n] == line && t[4..5 + n] == line + "\n"
             && LineBounds(t, 0) == Bounds(3, Some(4)) && LineBounds(t, 4) == Bounds(4 + n, Some(5 + n))
             && LineBounds(t, 5 + n) == Bounds(8 + n, Some(9 + n)) && Utf8Size(t, 0, 9 + n) <= MAX_FRONTMATTER_BYTES
    requires line != "" && line[0] == '{'
    ensures ExtractSpec(t) == Envelope(line + "\n", 9 + |line|)
  {
    hide LineBounds, Utf8Size;
    var n := |line|;
    assert !ClosesAt(t, 4, 4 + n) by { assert t[4..4 + n][0] == '{'; }
    assert FindCloser(t, 5 + n) == Some(Closer(5 + n, 9 + n));
    assert FindCloser(t, 4) == FindCloser(t, 5 + n);
  }

  /** The scanner cuts a composed capture at the same place as `_body` does, and never finds it too large. */
  lemma EnvelopeOfComposed(metadata: seq<Member>, accepted: bool, content: string)
    ensures var e := Serialize(metadata, accepted);
            e.Emitted? ==>
              exists line :: e.text == EnvelopeOf(line) &&
                ExtractSpec(Compose(metadata, accepted, content).value) == Envelope(line + "\n", |e.text|)
  {
    SerializedShape(metadata, accepted);
    var e := Serialize(metadata, accepted);
    hide Serialize, OneLine, EnvelopeOf, ExtractSpec, Bytes;
    if e.Emitted? {
      var line :| e.text == EnvelopeOf(line) && OneLine(line) && line != "" && line[0] == '{' && Bytes(e.text) <= MAX_FRONTMATTER_BYTES;
      ComposedEnvelope(line, content);
    }
  }
}

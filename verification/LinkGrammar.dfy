/** What a note link is, stated on one line t[..e] of a text: the reference that the eager
    parsers and the incremental recogniser are both proved against. */
module LinkGrammar {
  import opened PythonText

  datatype Origin = ObsidianWikilink | MarkdownLink

  /** Target, fragment and label as written; a Markdown link always has a label. */
  datatype Spec = Spec(target: string, fragment: Option<string>, caption: Option<string>)

  datatype Item = Item(position: nat, origin: Origin, spec: Spec)

  /** What one recognition attempt found and where that dialect resumes. */
  datatype Step = Step(spec: Option<Spec>, next: nat)

  // ----- destinations

  predicate IsLetter(c: char) { 'A' <= c <= 'Z' || 'a' <= c <= 'z' }

  predicate IsSchemeChar(c: char) {
    IsLetter(c) || '0' <= c <= '9' || c == '+' || c == '.' || c == '-'
  }

  /** A URI scheme (section 3.1 of RFC 3986) and its colon open the destination. */
  predicate HasScheme(d: string) {
    && |d| > 0 && IsLetter(d[0])
    && exists k :: 1 <= k < |d| && d[k] == ':' && forall j :: 1 <= j < k ==> IsSchemeChar(d[j])
  }

  predicate IsSlash(c: char) { c == '/' || c == '\\' }

  /** `PureWindowsPath(d).drive` is not empty: two slashes, or a colon after the first character.
      A Windows path is absolute only if it also has such a drive. */
  predicate HasWindowsDrive(d: string) {
    |d| >= 2 && if IsSlash(d[0]) then IsSlash(d[1]) else d[1] == ':'
  }

  predicate EndsWithMd(d: string) { |d| >= 3 && d[|d| - 3..] == ".md" }

  predicate HasSpace(s: string) { exists k :: 0 <= k < |s| && IsSpace(s[k]) }

  /** The eager validation: a relative note path with an optional fragment. */
  function NoteDestination(raw: string): Option<(string, Option<string>)> {
    if raw == "" || '\0' in raw then None
    else
      var h := First(raw, 0, |raw|, {'#'});
      var d := raw[..h];
      if d == "" || !EndsWithMd(d) || HasScheme(d) || d[0] == '/' || HasWindowsDrive(d) then None
      else Some((d, if h < |raw| then Some(raw[h + 1..]) else None))
  }

  // ----- Markdown links

  const LABEL_STOP: set<char> := {'[', ']', '\0'}

  /** The link that opens at `start`, and where the line's scan goes on. */
  function MarkdownAt(t: string, start: nat, e: nat): (r: Step)
    requires start < e <= |t|
    ensures start < r.next <= e
  {
    var l := First(t, start + 1, e, LABEL_STOP);
    if l == e then Step(None, e)
    else if t[l] == '[' then Step(None, l)
    else if t[l] == '\0' || l + 1 == e || t[l + 1] != '(' then Step(None, l + 1)
    else if l + 2 == e then Step(None, e)
    else DestinationAt(t, t[start + 1..l], l + 2, e)
  }

  function DestinationAt(t: string, caption: string, d: nat, e: nat): (r: Step)
    requires d < e <= |t|
    ensures d < r.next <= e
  {
    var angle := t[d] == '<';
    var from := if angle then d + 1 else d;
    match Find(t, from, e, if angle then ">" else ")")
    case None => Step(None, e)
    case Some(close) =>
      if angle && (close + 1 == e || t[close + 1] != ')') then Step(None, close + 1)
      else
        var next := if angle then close + 2 else close + 1;
        var raw := t[from..close];
        if !angle && HasSpace(raw) then Step(None, next)
        else match NoteDestination(raw)
          case None => Step(None, next)
          case Some(p) => Step(Some(Spec(p.0, p.1, Some(caption))), next)
  }

  /** A run of exactly n backticks, touching no further backtick, opens at c. */
  predicate ClosesAt(t: string, c: nat, e: nat, n: nat)
    requires e <= |t|
  {
    && c + n <= e
    && (forall k :: c <= k < c + n ==> t[k] == '`')
    && (c > 0 ==> t[c - 1] != '`')
    && (c + n < e ==> t[c + n] != '`')
  }

  function FirstClose(t: string, i: nat, e: nat, n: nat): (r: Option<nat>)
    requires i <= e <= |t|
    ensures r.Some? ==> i <= r.value && ClosesAt(t, r.value, e, n)
    ensures r.Some? ==> forall c {:trigger ClosesAt(t, c, e, n)} :: i <= c < r.value ==> !ClosesAt(t, c, e, n)
    ensures r.None? ==> forall c {:trigger ClosesAt(t, c, e, n)} :: i <= c ==> !ClosesAt(t, c, e, n)
    decreases e - i
  {
    if ClosesAt(t, i, e, n) then Some(i)
    else if i == e then None
    else FirstClose(t, i + 1, e, n)
  }

  /** Past the code span that a backtick run at i opens, or past the run if it never closes. */
  function CodeNext(t: string, i: nat, e: nat): (r: nat)
    requires i < e <= |t| && t[i] == '`'
    ensures i < r <= e
  {
    var run := RunEnd(t, i, e, '`');
    match FirstClose(t, run, e, run - i)
    case Some(c) => c + (run - i)
    case None => run
  }

  /** What the Markdown dialect does at position i of a line. */
  function MarkdownStep(t: string, i: nat, e: nat): (r: Step)
    requires i < e <= |t|
    ensures i < r.next <= e
  {
    if t[i] == '`' then Step(None, CodeNext(t, i, e))
    else if t[i] == '[' && (i == 0 || t[i - 1] != '!') then MarkdownAt(t, i, e)
    else Step(None, i + 1)
  }

  function Emit(position: nat, origin: Origin, spec: Option<Spec>): seq<Item> {
    if spec.Some? then [Item(position, origin, spec.value)] else []
  }

  /** The Markdown links of t[i..e], a suffix of one line. */
  function MarkdownLine(t: string, i: nat, e: nat): seq<Item>
    requires i <= e <= |t|
    decreases e - i
  {
    if i == e then []
    else
      var s := MarkdownStep(t, i, e);
      Emit(i, MarkdownLink, s.spec) + MarkdownLine(t, s.next, e)
  }

  // ----- wikilinks

  predicate TwoPipes(body: string) {
    exists i, j :: 0 <= i < j < |body| && body[i] == '|' && body[j] == '|'
  }

  function WikiBody(body: string): Option<Spec> {
    if '[' in body || ']' in body || '\0' in body || TwoPipes(body) then None
    else
      var p := First(body, 0, |body|, {'|'});
      var h := First(body, 0, p, {'#'});
      var target := Strip(body, 0, h);
      var heading := if h < p then Some(Strip(body, h + 1, p)) else None;
      var alias := if p < |body| then Some(Strip(body, p + 1, |body|)) else None;
      if target == "" || heading == Some("") || alias == Some("") then None
      else Some(Spec(target, heading, alias))
  }

  /** The wikilinks of t[i..e], a suffix of one line. */
  function WikiLine(t: string, i: nat, e: nat): seq<Item>
    requires i <= e <= |t|
    decreases e - i
  {
    match Find(t, i, e, "[[")
    case None => []
    case Some(start) =>
      match Find(t, start + 2, e, "]]")
      case None => []
      case Some(end) =>
        Emit(start, ObsidianWikilink, WikiBody(t[start + 2..end])) + WikiLine(t, end + 2, e)
  }

  function LineItems(origin: Origin, t: string, i: nat, e: nat): seq<Item>
    requires i <= e <= |t|
  {
    if origin == ObsidianWikilink then WikiLine(t, i, e) else MarkdownLine(t, i, e)
  }

  // ----- fences

  datatype Fence = Fence(marker: char, length: nat)

  /** Past at most k leading spaces and tabs. */
  function Indent(t: string, s: nat, e: nat, k: nat): (r: nat)
    requires s <= e <= |t|
    ensures s <= r <= e
    decreases k
  {
    if k > 0 && s < e && (t[s] == ' ' || t[s] == '\t') then Indent(t, s + 1, e, k - 1) else s
  }

  /** A line `^[ \t]{0,3}(`{3,}|~{3,})(.*)$`: its marker run, and whether only white space follows it. */
  function FenceAt(t: string, s: nat, e: nat): Option<(Fence, bool)>
    requires s <= e <= |t|
  {
    var p := Indent(t, s, e, 3);
    if p == e || (t[p] != '`' && t[p] != '~') then None
    else
      var end := RunEnd(t, p, e, t[p]);
      if end - p < 3 then None
      else Some((Fence(t[p], end - p), Strip(t, end, e) == ""))
  }

  /** A fence line opens a block, closes the block it matches, or is inside another block. */
  function AfterFence(open: Option<Fence>, line: (Fence, bool)): Option<Fence> {
    match open
    case None => Some(line.0)
    case Some(f) =>
      if line.0.marker == f.marker && line.0.length >= f.length && line.1 then None else open
  }

  // ----- whole texts

  function Shift(items: seq<Item>, offset: nat): seq<Item> {
    if items == [] then []
    else [items[0].(position := items[0].position + offset)] + Shift(items[1..], offset)
  }

  /** One dialect's eager parse: split into lines, then parse each line outside fenced code. */
  function EagerItems(origin: Origin, lines: seq<RawLine>, offset: nat, fence: Option<Fence>): seq<Item> {
    if lines == [] then []
    else
      var line, raw := lines[0].content, |lines[0].content| + |lines[0].ending|;
      match FenceAt(line, 0, |line|)
      case Some(f) => EagerItems(origin, lines[1..], offset + raw, AfterFence(fence, f))
      case None =>
        (if fence.None? then Shift(LineItems(origin, line, 0, |line|), offset) else [])
        + EagerItems(origin, lines[1..], offset + raw, fence)
  }

  function EagerParse(origin: Origin, t: string): seq<Item> {
    EagerItems(origin, SplitLines(t, 0), 0, None)
  }

  // ----- unfoldings

  lemma FindBound(t: string, i: nat, e: nat, sub: string)
    requires i <= e <= |t| && |sub| > 0
    ensures Find(t, i, e, sub).Some? ==> i <= Find(t, i, e, sub).value <= e - |sub|
  {
  }

  lemma ShiftEmit(i: nat, origin: Origin, spec: Option<Spec>, rest: seq<Item>, s: nat)
    ensures Shift(Emit(i, origin, spec) + rest, s) == Emit(s + i, origin, spec) + Shift(rest, s)
  {
    if spec.Some? {
      assert ([Item(i, origin, spec.value)] + rest)[1..] == rest;
    } else {
      assert [] + rest == rest;
    }
  }

  lemma WikiLineFound(t: string, i: nat, e: nat, start: nat)
    requires i <= e <= |t| && Find(t, i, e, "[[") == Some(start)
    ensures i <= start && start + 2 <= e
    ensures var close := Find(t, start + 2, e, "]]");
            && (close.Some? ==> start + 2 <= close.value <= e - 2)
            && WikiLine(t, i, e)
               == if close.None? then []
                  else Emit(start, ObsidianWikilink, WikiBody(t[start + 2..close.value])) + WikiLine(t, close.value + 2, e)
  {
    hide WikiBody, Find, Emit;
    FindBound(t, start + 2, e, "]]");
  }

  lemma WikiLineAbsent(t: string, i: nat, e: nat)
    requires i <= e <= |t| && Find(t, i, e, "[[").None?
    ensures WikiLine(t, i, e) == []
  {
  }

  lemma FirstCloseSkips(line: string, i: nat, j: nat, e: nat, n: nat)
    requires i <= j <= e <= |line|
    requires forall c {:trigger ClosesAt(line, c, e, n)} :: i <= c < j ==> !ClosesAt(line, c, e, n)
    ensures FirstClose(line, i, e, n) == FirstClose(line, j, e, n)
  {
  }

  /** A maximal backtick run of another length closes nothing, at any of its positions. */
  lemma OtherRun(t: string, i: nat, j: nat, e: nat, n: nat)
    requires i < j <= e <= |t| && n > 0 && j - i != n
    requires forall k :: i <= k < j ==> t[k] == '`'
    requires j < e ==> t[j] != '`'
    ensures FirstClose(t, i, e, n) == FirstClose(t, j, e, n)
  {
    forall c | i <= c < j ensures !ClosesAt(t, c, e, n) {
      if c > i {
        assert t[c - 1] == '`';
      } else if i + n < j {
        assert t[i + n] == '`';
      } else if j < e {
        assert t[j] != '`';
      }
    }
    FirstCloseSkips(t, i, j, e, n);
  }

  lemma NotAtTick(t: string, i: nat, e: nat, n: nat)
    requires i < e <= |t| && t[i] != '`' && n > 0
    ensures FirstClose(t, i, e, n) == FirstClose(t, i + 1, e, n)
  {
  }

  lemma ClosesHere(t: string, i: nat, e: nat, n: nat)
    requires i + n <= e <= |t| && n > 0 && (i > 0 ==> t[i - 1] != '`') && (i + n < e ==> t[i + n] != '`')
    requires forall k :: i <= k < i + n ==> t[k] == '`'
    ensures FirstClose(t, i, e, n) == Some(i)
  {
  }

  lemma NeverCloses(t: string, e: nat, n: nat)
    requires e <= |t| && n > 0
    ensures FirstClose(t, e, e, n).None?
  {
  }

  // ----- a Markdown link by its text alone

  /** t[start..] reads `[label](destination)` or `[label](<destination>)`: the label ends at l, the destination at
      `close`, and neither contains what would end it. */
  predicate Bracketed(t: string, start: nat, e: nat, l: nat, from: nat, close: nat)
    requires e <= |t|
  {
    && start < l && l + 2 < e && t[start] == '[' && t[l] == ']' && t[l + 1] == '('
    && (forall k :: start < k < l ==> t[k] !in LABEL_STOP)
    && if t[l + 2] == '<' then
         from == l + 3 && from <= close && close + 1 < e && t[close] == '>' && t[close + 1] == ')'
         && forall k :: from <= k < close ==> t[k] != '>'
       else
         from == l + 2 && from <= close < e && t[close] == ')' && forall k :: from <= k < close ==> t[k] != ')'
  }

  /** The destination is a relative note path, without white space unless it stands in angle brackets. */
  ghost predicate NamesNote(t: string, l: nat, from: nat, close: nat, spec: Spec)
    requires l < from <= close <= |t|
  {
    && (from == l + 2 ==> !HasSpace(t[from..close]))
    && NoteDestination(t[from..close]) == Some((spec.target, spec.fragment))
  }

  lemma FindOne(t: string, i: nat, e: nat, c: char, k: nat)
    requires i <= k < e <= |t| && t[k] == c && forall j :: i <= j < k ==> t[j] != c
    ensures Find(t, i, e, [c]) == Some(k)
    decreases k - i
  {
    if i < k {
      assert t[i..i + 1][0] != c;
      FindOne(t, i + 1, e, c, k);
    } else {
      assert t[k..k + 1] == [c];
    }
  }

  lemma FoundOne(t: string, i: nat, e: nat, c: char)
    requires i <= e <= |t| && Find(t, i, e, [c]).Some?
    ensures var k := Find(t, i, e, [c]).value; i <= k < e && t[k] == c && forall j :: i <= j < k ==> t[j] != c
  {
    var k := Find(t, i, e, [c]).value;
    assert t[k..k + 1][0] == c;
    forall j | i <= j < k ensures t[j] != c {
      if t[j] == c {
        assert t[j..j + 1] == [c];
        assert Occurs(t, j, e, [c]);
      }
    }
  }

  ghost predicate ReadsWith(t: string, start: nat, e: nat, spec: Spec, l: nat, from: nat, close: nat)
    requires e <= |t|
  {
    Bracketed(t, start, e, l, from, close) && NamesNote(t, l, from, close, spec) && spec.caption == Some(t[start + 1..l])
  }

  /** A link with this specification stands at `start`. */
  ghost predicate Reads(t: string, start: nat, e: nat, spec: Spec)
    requires e <= |t|
  {
    exists l: nat, from: nat, close: nat :: ReadsWith(t, start, e, spec, l, from, close)
  }

  lemma FoundReads(t: string, start: nat, e: nat, spec: Spec)
    requires start < e <= |t| && t[start] == '[' && MarkdownAt(t, start, e).spec == Some(spec)
    ensures Reads(t, start, e, spec)
  {
    hide NoteDestination, HasSpace, Find, First;
    var l := First(t, start + 1, e, LABEL_STOP);
    var angle := t[l + 2] == '<';
    var from := if angle then l + 3 else l + 2;
    var c := if angle then '>' else ')';
    assert [c] == if angle then ">" else ")";
    FoundOne(t, from, e, c);
    var close := Find(t, from, e, [c]).value;
    assert ReadsWith(t, start, e, spec, l, from, close);
  }

  lemma DestinationReads(t: string, caption: string, d: nat, e: nat, close: nat, spec: Spec)
    requires d < e <= |t| && spec.caption == Some(caption)
    requires if t[d] == '<' then d < close && close + 1 < e && t[close + 1] == ')' && Find(t, d + 1, e, ">") == Some(close)
             else d <= close < e && Find(t, d, e, ")") == Some(close) && !HasSpace(t[d..close])
    requires NoteDestination(t[if t[d] == '<' then d + 1 else d..close]) == Some((spec.target, spec.fragment))
    ensures DestinationAt(t, caption, d, e).spec == Some(spec)
  {
    hide NoteDestination, HasSpace, Find;
  }

  lemma ReadsFound(t: string, start: nat, e: nat, spec: Spec, l: nat, from: nat, close: nat)
    requires start < e <= |t| && ReadsWith(t, start, e, spec, l, from, close)
    ensures MarkdownAt(t, start, e).spec == Some(spec)
  {
    hide NoteDestination, HasSpace, Find, First, DestinationAt;
    FirstIs(t, start + 1, e, LABEL_STOP, l);
    var c := if t[l + 2] == '<' then '>' else ')';
    assert [c] == if t[l + 2] == '<' then ">" else ")";
    FindOne(t, from, e, c, close);
    DestinationReads(t, t[start + 1..l], l + 2, e, close, spec);
  }

  /** What the parser recognises at a bracket is what the text there reads as. */
  lemma LinkByText(t: string, start: nat, e: nat, spec: Spec)
    requires start < e <= |t| && t[start] == '['
    ensures MarkdownAt(t, start, e).spec == Some(spec) <==> Reads(t, start, e, spec)
  {
    hide MarkdownAt, ReadsWith;
    if MarkdownAt(t, start, e).spec == Some(spec) {
      FoundReads(t, start, e, spec);
    }
    if l: nat, from: nat, close: nat :| ReadsWith(t, start, e, spec, l, from, close) {
      ReadsFound(t, start, e, spec, l, from, close);
    }
  }
}

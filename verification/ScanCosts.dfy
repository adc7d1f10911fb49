/** What the incremental recogniser pays for each of its scans: one probe for every character it inspects,
    none past the end of the text. */
module ScanCosts {
  import opened PythonText
  import opened LinkGrammar
  import opened LinkRefinement

  function CharCost(t: string, i: nat): nat { if i < |t| then 1 else 0 }

  // ----- scans of one line t[..e]

  /** `all(self.at(i + k) == c ...)` from the k-th character of the token on. */
  function MatchCost(t: string, i: nat, token: string, k: nat): nat
    requires k <= |token|
    decreases |token| - k
  {
    if k == |token| then 0
    else CharCost(t, i + k) + if i + k < |t| && t[i + k] == token[k] then MatchCost(t, i, token, k + 1) else 0
  }

  function SeekCost(t: string, i: nat, e: nat, token: string): nat
    requires i <= e <= |t| && |token| > 0
    decreases e - i
  {
    if i == e then CharCost(t, e)
    else
      1 + (if t[i] == token[0] then MatchCost(t, i, token, 0) else 0)
      + if Occurs(t, i, e, token) then 0 else SeekCost(t, i + 1, e, token)
  }

  function TrimCost(t: string, a: nat, b: nat): nat
    requires a <= b <= |t|
  {
    var s := StripStart(t, a, b);
    if s == b then b - a else (s - a) + 1 + (b - StripEnd(t, s, b)) + 1
  }

  function RunCost(t: string, i: nat, e: nat, c: char): nat
    requires i <= e <= |t|
  {
    RunEnd(t, i, e, c) - i + CharCost(t, RunEnd(t, i, e, c))
  }

  function ToLineEnd(t: string, i: nat, e: nat): nat
    requires i <= e <= |t|
  {
    e - i + CharCost(t, e)
  }

  // ----- wikilinks

  /** The first character of a wikilink body that forbids the link, or its end. */
  function WikiStop(t: string, i: nat, end: nat, piped: bool): (r: nat)
    requires i <= end <= |t|
    ensures i <= r <= end
    decreases end - i
  {
    if i == end || t[i] == '[' || t[i] == ']' || t[i] == '\0' || (t[i] == '|' && piped) then i
    else WikiStop(t, i + 1, end, piped || t[i] == '|')
  }

  function WikiTrims(t: string, a: nat, end: nat): nat
    requires a <= end <= |t|
  {
    var p := First(t, a, end, {'|'});
    var h := First(t, a, p, {'#'});
    TrimCost(t, a, h) + (if h < p then TrimCost(t, h + 1, p) else 0) + if p < end then TrimCost(t, p + 1, end) else 0
  }

  function WikiBodyCost(t: string, a: nat, end: nat): nat
    requires a <= end <= |t|
  {
    var stop := WikiStop(t, a, end, false);
    if stop < end then stop - a + 1 else end - a + WikiTrims(t, a, end)
  }

  function WikiCost(t: string, start: nat, e: nat): nat
    requires start + 2 <= e <= |t|
  {
    SeekCost(t, start + 2, e, "]]") +
    match Find(t, start + 2, e, "]]")
    case None => 0
    case Some(end) => WikiBodyCost(t, start + 2, end)
  }

  // ----- Markdown links

  /** The first character that rejects a destination, or its end. */
  function DestinationStop(t: string, a: nat, i: nat, end: nat, angle: bool, fragment: bool, scheme: bool): (r: nat)
    requires a <= i <= end <= |t|
    ensures i <= r <= end
    decreases end - i
  {
    if i == end || t[i] == '\0' || (!angle && IsSpace(t[i])) then i
    else if fragment || t[i] == '#' then DestinationStop(t, a, i + 1, end, angle, true, scheme)
    else if i == a then DestinationStop(t, a, i + 1, end, angle, false, IsLetter(t[i]))
    else if !scheme then DestinationStop(t, a, i + 1, end, angle, false, false)
    else if t[i] == ':' then i
    else DestinationStop(t, a, i + 1, end, angle, false, IsSchemeChar(t[i]))
  }

  function SuffixCost(t: string, i: nat): nat
    requires i + 3 <= |t|
  {
    if t[i] != '.' then 1 else if t[i + 1] != 'm' then 2 else 3
  }

  predicate Anchored(first: char, second: char) {
    first == '/' || (first != '\\' && second == ':') || (first == '\\' && IsSlash(second))
  }

  function EndsCost(t: string, a: nat, d: nat): nat
    requires a <= d <= |t|
  {
    if d - a < 3 then 0 else 2 + if Anchored(t[a], t[a + 1]) then 0 else SuffixCost(t, d - 3)
  }

  function CheckCost(t: string, a: nat, end: nat, angle: bool): nat
    requires a <= end <= |t|
  {
    var stop := DestinationStop(t, a, a, end, angle, false, false);
    if stop < end then stop - a + 1 else end - a + EndsCost(t, a, First(t, a, end, {'#'}))
  }

  function DestinationCost(t: string, d: nat, e: nat): nat
    requires d <= e <= |t|
  {
    var angle := d < e && t[d] == '<';
    var from, token := if angle then d + 1 else d, if angle then ">" else ")";
    CharCost(t, d) + SeekCost(t, from, e, token) +
    match Find(t, from, e, token)
    case None => ToLineEnd(t, d, e)
    case Some(close) =>
      if !angle then CheckCost(t, from, close, false)
      else CharCost(t, close + 1) + if close + 1 < e && t[close + 1] == ')' then CheckCost(t, from, close, true) else 0
  }

  function MarkdownCost(t: string, start: nat, e: nat): nat
    requires start < e <= |t|
  {
    var l := First(t, start + 1, e, LABEL_STOP);
    (l - start - 1) + 2 * CharCost(t, l)
    + if l == e || t[l] != ']' then 0
      else CharCost(t, l + 1) + if l + 1 < e && t[l + 1] == '(' then DestinationCost(t, l + 2, e) else 0
  }

  /** The search for a closing run of n backticks. */
  function SpanCost(t: string, i: nat, e: nat, n: nat): nat
    requires i <= e <= |t|
    decreases e - i
  {
    if i == e then CharCost(t, e)
    else if t[i] != '`' then 2 + SpanCost(t, i + 1, e, n)
    else
      var end := RunEnd(t, i + 1, e, '`');
      2 + RunCost(t, i + 1, e, '`') + if end - i == n then 0 else SpanCost(t, end, e, n)
  }

  function CodeCost(t: string, i: nat, e: nat): nat
    requires i < e <= |t|
  {
    var run := RunEnd(t, i + 1, e, '`');
    RunCost(t, i + 1, e, '`') + SpanCost(t, run, e, run - i)
  }

  function MarkdownStepCost(t: string, i: nat, e: nat): nat
    requires i < e <= |t|
  {
    if t[i] == '`' then CodeCost(t, i, e)
    else if t[i] == '[' then
      (if i > 0 then 1 else 0) + if i == 0 || t[i - 1] != '!' then MarkdownCost(t, i, e) else 0
    else 0
  }

  function WikiStepCost(t: string, i: nat, e: nat, next: nat, missing: bool): nat
    requires i < e <= |t|
  {
    if i >= next && !missing && t[i] == '[' then
      CharCost(t, i + 1) + if OpensWiki(t, i, e) then WikiCost(t, i, e) else 0
    else 0
  }

  // ----- fences, lines and texts

  function IndentCost(t: string, s: nat, e: nat): nat
    requires s <= e <= |t|
  {
    var p := Indent(t, s, e, 3);
    if p - s >= 3 then 3 else p - s + CharCost(t, p)
  }

  /** A line that may close the open fence, for which its tail must be blank. */
  predicate MayClose(open: Option<Fence>, marker: char, length: nat) {
    open.Some? && open.value.marker == marker && length >= open.value.length
  }

  /** The test for a fence line; a tail is trimmed only where the line may close the open fence. */
  function FenceCost(t: string, s: nat, e: nat, open: Option<Fence>): nat
    requires s <= e <= |t|
  {
    var p := Indent(t, s, e, 3);
    IndentCost(t, s, e) + CharCost(t, p) +
    if p == e || (t[p] != '`' && t[p] != '~') then 0
    else
      var end := RunEnd(t, p, e, t[p]);
      RunCost(t, p, e, t[p]) +
      if end - p < 3 then 0
      else ToLineEnd(t, end, e) + if MayClose(open, t[p], end - p) then TrimCost(t, end, e) else 0
  }

  /** The rest of a line outside fences, each dialect held back until its own skip cursor. */
  function LineCost(t: string, i: nat, e: nat, wiki: nat, missing: bool, markdown: nat): nat
    requires i <= e <= |t| && wiki <= e && markdown <= e
    decreases e - i
  {
    if i == e then 0
    else
      var w := WikiStep(t, i, e, wiki, missing);
      var m := SkippingStep(t, i, e, markdown);
      1 + WikiStepCost(t, i, e, wiki, missing) + (if i >= markdown then MarkdownStepCost(t, i, e) else 0)
      + LineCost(t, i + 1, e, w.next, w.missing, m.next)
  }

  /** The text from the line start s on. */
  function TextCost(t: string, s: nat, fence: Option<Fence>): nat
    requires s <= |t|
    decreases |t| - s, 1
  {
    if s == |t| then 0
    else
      var e := LineEnd(t, s);
      FenceCost(t, s, e, fence) +
      match FenceAt(t, s, e)
      case Some(f) => 1 + NextCost(t, s, AfterFence(fence, f))
      case None => (if fence.None? then LineCost(t, s, e, 0, false, 0) else e - s) + NextCost(t, s, fence)
  }

  /** The break that ends the line and the lines after it. */
  function NextCost(t: string, s: nat, fence: Option<Fence>): nat
    requires s <= |t|
    decreases |t| - s, 0
  {
    var e := LineEnd(t, s);
    if e == |t| then 0 else 1 + TextCost(t, e + 1, fence)
  }

  /** Recognising a whole text. */
  function RecognitionCost(t: string): nat { TextCost(t, 0, None) }
}

/** The links of one line by its text alone. The laws below say, for every way the rest of a line can begin, what its
    links are in terms of what lies further on; together they leave the parsers no choice. */
module LinkText {
  import opened PythonText
  import opened LinkGrammar
  import opened LinkRefinement

  // ----- note destinations

  /** A relative path of a note: it ends in ".md" and has no scheme, no root and no drive. */
  ghost predicate NamesNoteFile(d: string) {
    && |d| >= 3 && d[|d| - 3..] == ".md"
    && d[0] != '/' && !(d[0] == '\\' && (d[1] == '\\' || d[1] == '/'))
    && !(d[0] != '\\' && d[1] == ':')
    && !exists k :: 1 <= k < |d| && OpensScheme(d, k)
  }

  /** d[..k] is a scheme, and a colon follows it (section 3.1 of RFC 3986). */
  ghost predicate OpensScheme(d: string, k: nat)
    requires k < |d|
  {
    && d[k] == ':' && ('A' <= d[0] <= 'Z' || 'a' <= d[0] <= 'z')
    && forall j :: 1 <= j < k ==> 'A' <= d[j] <= 'Z' || 'a' <= d[j] <= 'z' || '0' <= d[j] <= '9' || d[j] in "+.-"
  }

  lemma FileByText(d: string)
    ensures NamesNoteFile(d) <==> d != "" && EndsWithMd(d) && !HasScheme(d) && d[0] != '/' && !HasWindowsDrive(d)
  {
    if d != "" {
      forall k | 1 <= k < |d| ensures OpensScheme(d, k) <==> d[k] == ':' && IsLetter(d[0]) && forall j :: 1 <= j < k ==> IsSchemeChar(d[j]) {
      }
    }
  }

  lemma SplitAtHash(raw: string, d: string, fragment: Option<string>)
    requires '#' !in d && raw == d + if fragment.Some? then "#" + fragment.value else ""
    ensures var h := First(raw, 0, |raw|, {'#'});
            h == |d| && raw[..h] == d && (h < |raw| <==> fragment.Some?) && (h < |raw| ==> raw[h + 1..] == fragment.value)
  {
    FirstIs(raw, 0, |raw|, {'#'}, |d|);
  }

  /** The destination is split at its first hash into a note's path and a fragment. */
  lemma DestinationByText(raw: string, d: string, fragment: Option<string>)
    ensures NoteDestination(raw) == Some((d, fragment))
        <==> && '\0' !in raw && '#' !in d && NamesNoteFile(d)
             && raw == d + if fragment.Some? then "#" + fragment.value else ""
  {
    FileByText(d);
    hide NamesNoteFile, EndsWithMd, HasScheme, HasWindowsDrive;
    var h := First(raw, 0, |raw|, {'#'});
    if NoteDestination(raw) == Some((d, fragment)) {
      assert h < |raw| ==> raw == raw[..h] + "#" + raw[h + 1..];
      assert h == |raw| ==> raw[..h] == raw;
    }
    if '#' !in d && raw == d + if fragment.Some? then "#" + fragment.value else "" {
      SplitAtHash(raw, d, fragment);
    }
  }

  // ----- wikilinks

  /** A wikilink's body reads target, then perhaps "#heading", then perhaps "|alias", each with white space around it
      and none of them empty. */
  ghost predicate WikiReads(body: string, spec: Spec) {
    && '[' !in body && ']' !in body && '\0' !in body && spec.target != ""
    && spec.fragment != Some("") && spec.caption != Some("")
    && exists target: string, heading: string, alias: string :: WikiParts(body, spec, target, heading, alias)
  }

  /** The written parts: the target is free of both marks, the heading of the second. */
  ghost predicate WikiParts(body: string, spec: Spec, target: string, heading: string, alias: string) {
    && '#' !in target && '|' !in target && '|' !in heading && '|' !in alias
    && body == target + (if spec.fragment.Some? then "#" + heading else "") + (if spec.caption.Some? then "|" + alias else "")
    && Stripped(target, spec.target)
    && (spec.fragment.Some? ==> Stripped(heading, spec.fragment.value))
    && (spec.caption.Some? ==> Stripped(alias, spec.caption.value))
  }

  /** `bare` is `written` without the white space at its ends. */
  ghost predicate Stripped(written: string, bare: string) {
    && (bare != "" ==> !IsSpace(bare[0]) && !IsSpace(bare[|bare| - 1]))
    && exists a: nat, b: nat :: CutFrom(written, bare, a, b)
  }

  ghost predicate CutFrom(written: string, bare: string, a: nat, b: nat) {
    && a <= b <= |written| && bare == written[a..b]
    && (forall k :: 0 <= k < a ==> IsSpace(written[k])) && forall k :: b <= k < |written| ==> IsSpace(written[k])
  }

  lemma StripByText(t: string, i: nat, e: nat)
    requires i <= e <= |t|
    ensures Stripped(t[i..e], Strip(t, i, e))
  {
    var w, a := t[i..e], StripStart(t, i, e);
    var b := StripEnd(t, a, e);
    assert forall k :: 0 <= k < |w| ==> w[k] == t[i + k];
    assert w[a - i..b - i] == t[a..b];
    assert a < b ==> t[a..b][0] == t[a] && t[a..b][b - a - 1] == t[b - 1];
    assert CutFrom(w, t[a..b], a - i, b - i);
  }

  lemma StrippedIs(t: string, i: nat, e: nat, bare: string)
    requires i <= e <= |t| && Stripped(t[i..e], bare)
    ensures Strip(t, i, e) == bare
  {
    hide Strip, IsSpace;
    var w := t[i..e];
    var a: nat, b: nat :| CutFrom(w, bare, a, b);
    SliceSlice(t, i, e, a, b);
    forall k | i <= k < i + a || i + b <= k < e ensures IsSpace(t[k]) {
      assert t[k] == w[k - i];
    }
    StripBounds(t, i, e, i + a, i + b, bare);
  }

  lemma StripBounds(t: string, i: nat, e: nat, a: nat, b: nat, bare: string)
    requires i <= a <= b <= e <= |t| && t[a..b] == bare && (bare != "" ==> !IsSpace(bare[0]) && !IsSpace(bare[|bare| - 1]))
    requires (forall k :: i <= k < a ==> IsSpace(t[k])) && forall k :: b <= k < e ==> IsSpace(t[k])
    ensures Strip(t, i, e) == bare
  {
    hide IsSpace;
    if a < b {
      assert t[a] == bare[0] && t[b - 1] == bare[|bare| - 1];
      StripStartIs(t, i, e, a);
      StripEndIs(t, a, e, b);
    } else {
      StripStartIs(t, i, e, e);
    }
    hide StripStart, StripEnd;
  }

  lemma StripStartIs(t: string, i: nat, e: nat, a: nat)
    requires i <= a <= e <= |t| && (forall k :: i <= k < a ==> IsSpace(t[k])) && (a < e ==> !IsSpace(t[a]))
    ensures StripStart(t, i, e) == a
  {
    hide StripStart, IsSpace;
  }

  lemma StripEndIs(t: string, i: nat, e: nat, b: nat)
    requires i < b <= e <= |t| && (forall k :: b <= k < e ==> IsSpace(t[k])) && !IsSpace(t[b - 1])
    ensures StripEnd(t, i, e) == b
  {
    hide StripEnd, IsSpace;
  }

  lemma BodyFields(body: string, spec: Spec)
    requires WikiBody(body) == Some(spec)
    ensures '[' !in body && ']' !in body && '\0' !in body && !TwoPipes(body)
    ensures spec.target != "" && spec.fragment != Some("") && spec.caption != Some("")
    ensures var p := First(body, 0, |body|, {'|'});
            var h := First(body, 0, p, {'#'});
            && spec.target == Strip(body, 0, h)
            && spec.fragment == (if h < p then Some(Strip(body, h + 1, p)) else None)
            && spec.caption == if p < |body| then Some(Strip(body, p + 1, |body|)) else None
  {
    hide Strip, TwoPipes, First;
  }

  lemma MarksFree(body: string, p: nat, h: nat)
    requires p <= |body| && p == First(body, 0, |body|, {'|'}) && h == First(body, 0, p, {'#'})
    ensures '#' !in body[..h] && '|' !in body[..h] && (h < p ==> '|' !in body[h + 1..p] && body[h] == '#') && (p < |body| ==> body[p] == '|')
  {
    hide First;
  }

  lemma Assembled(body: string, spec: Spec, h: nat, p: nat)
    requires h <= p <= |body| && (h < p ==> body[h] == '#') && (p < |body| ==> body[p] == '|')
    requires '#' !in body[..h] && '|' !in body[..h] && (spec.fragment.Some? <==> h < p) && (spec.caption.Some? <==> p < |body|)
    requires Stripped(body[..h], spec.target)
    requires h < p ==> '|' !in body[h + 1..p] && Stripped(body[h + 1..p], spec.fragment.value)
    requires p < |body| ==> '|' !in body[p + 1..] && Stripped(body[p + 1..], spec.caption.value)
    ensures exists target: string, heading: string, alias: string :: WikiParts(body, spec, target, heading, alias)
  {
    hide Stripped;
    CutInParts(body, h, p);
    var heading, alias := if h < p then body[h + 1..p] else "", if p < |body| then body[p + 1..] else "";
    assert WikiParts(body, spec, body[..h], heading, alias);
  }

  lemma BodyReads(body: string, spec: Spec)
    requires WikiBody(body) == Some(spec)
    ensures WikiReads(body, spec)
  {
    BodyFields(body, spec);
    hide WikiBody, WikiParts;
    BodyParts(body, spec);
  }

  lemma BodyParts(body: string, spec: Spec)
    requires WikiBody(body) == Some(spec)
    ensures exists target: string, heading: string, alias: string :: WikiParts(body, spec, target, heading, alias)
  {
    hide *;
    BodyFields(body, spec);
    var p := First(body, 0, |body|, {'|'});
    var h := First(body, 0, p, {'#'});
    MarksFree(body, p, h);
    StripByText(body, 0, h);
    assert body[0..h] == body[..h];
    if h < p {
      StripByText(body, h + 1, p);
    }
    if p < |body| {
      StripByText(body, p + 1, |body|);
      assert body[p + 1..|body|] == body[p + 1..];
      OnePipe(body, p);
    }
    Assembled(body, spec, h, p);
  }

  lemma CutInParts(body: string, h: nat, p: nat)
    requires h <= p <= |body| && (h < p ==> body[h] == '#') && (p < |body| ==> body[p] == '|')
    ensures body == body[..h] + (if h < p then "#" + body[h + 1..p] else "") + if p < |body| then "|" + body[p + 1..] else ""
  {
    assert h < p ==> body[h..p] == "#" + body[h + 1..p];
    assert p < |body| ==> body[p..] == "|" + body[p + 1..];
    assert body == body[..h] + body[h..p] + body[p..];
  }

  lemma OnePipe(body: string, p: nat)
    requires p < |body| && body[p] == '|' && !TwoPipes(body)
    ensures '|' !in body[p + 1..]
  {
    var rest := body[p + 1..];
    forall k | 0 <= k < |rest| ensures rest[k] != '|' {
      assert rest[k] == body[p + 1 + k];
    }
  }

  /** Where the marks stand in a body written in parts. */
  lemma MarksOfParts(target: string, heading: string, alias: string, headed: bool, aliased: bool)
    requires '#' !in target && '|' !in target && '|' !in heading && '|' !in alias
    ensures var mark := target + if headed then "#" + heading else "";
            var body := mark + if aliased then "|" + alias else "";
            && First(body, 0, |body|, {'|'}) == |mark| && First(body, 0, |mark|, {'#'}) == |target| && !TwoPipes(body)
            && body[0..|target|] == target && (headed ==> body[|target| + 1..|mark|] == heading)
            && (aliased ==> body[|mark| + 1..|body|] == alias)
  {
    var mark := target + if headed then "#" + heading else "";
    var body := mark + if aliased then "|" + alias else "";
    assert '|' !in mark;
    assert forall k :: 0 <= k < |mark| ==> body[k] == mark[k] && mark[k] in mark;
    assert forall k :: 0 <= k < |target| ==> body[k] == target[k] && target[k] in target;
    FirstIs(body, 0, |body|, {'|'}, |mark|);
    FirstIs(body, 0, |mark|, {'#'}, |target|);
    LonePipe(mark, alias, aliased);
    hide First, TwoPipes;
  }

  lemma LonePipe(mark: string, alias: string, aliased: bool)
    requires '|' !in mark && '|' !in alias
    ensures !TwoPipes(mark + if aliased then "|" + alias else "")
  {
    var body := mark + if aliased then "|" + alias else "";
    forall j | 0 <= j < |body| && j != |mark| ensures body[j] != '|' {
      if j > |mark| {
        assert body[j] == alias[j - |mark| - 1] && alias[j - |mark| - 1] in alias;
      } else {
        assert body[j] == mark[j] && mark[j] in mark;
      }
    }
  }

  lemma PartsParse(body: string, spec: Spec, target: string, heading: string, alias: string)
    requires '[' !in body && ']' !in body && '\0' !in body && spec.target != ""
    requires spec.fragment != Some("") && spec.caption != Some("") && WikiParts(body, spec, target, heading, alias)
    ensures WikiBody(body) == Some(spec)
  {
    hide Stripped, Strip, TwoPipes;
    MarksOfParts(target, heading, alias, spec.fragment.Some?, spec.caption.Some?);
    var p, h := First(body, 0, |body|, {'|'}), |target|;
    StrippedIs(body, 0, h, spec.target);
    if spec.fragment.Some? {
      StrippedIs(body, h + 1, p, spec.fragment.value);
    }
    if spec.caption.Some? {
      StrippedIs(body, p + 1, |body|, spec.caption.value);
    }
  }

  /** A body is taken for a wikilink exactly when it reads as one. */
  lemma WikiByText(body: string, spec: Spec)
    ensures WikiBody(body) == Some(spec) <==> WikiReads(body, spec)
  {
    hide WikiBody, WikiParts;
    if WikiBody(body) == Some(spec) {
      BodyReads(body, spec);
    }
    if WikiReads(body, spec) {
      var target: string, heading: string, alias: string :| WikiParts(body, spec, target, heading, alias);
      PartsParse(body, spec, target, heading, alias);
    }
  }

  // ----- the wikilinks of a line

  predicate PairAt(t: string, k: nat, e: nat, c: char)
    requires e <= |t|
  {
    k + 2 <= e && t[k] == c && t[k + 1] == c
  }

  ghost predicate NoPair(t: string, i: nat, e: nat, c: char)
    requires e <= |t|
  {
    forall k: nat :: i <= k ==> !PairAt(t, k, e, c)
  }

  ghost predicate FirstPair(t: string, i: nat, e: nat, c: char, k: nat)
    requires e <= |t|
  {
    i <= k && PairAt(t, k, e, c) && forall j: nat :: i <= j < k ==> !PairAt(t, j, e, c)
  }

  lemma PairOccurs(t: string, k: nat, e: nat, c: char)
    requires e <= |t|
    ensures PairAt(t, k, e, c) <==> Occurs(t, k, e, [c, c])
  {
    if k + 2 <= e {
      assert t[k..k + 2] == [t[k], t[k + 1]];
    }
  }

  lemma FindPair(t: string, i: nat, e: nat, c: char)
    requires i <= e <= |t|
    ensures NoPair(t, i, e, c) <==> Find(t, i, e, [c, c]).None?
    ensures forall k: nat :: FirstPair(t, i, e, c, k) ==> Find(t, i, e, [c, c]) == Some(k)
  {
    hide Occurs, PairAt;
    var f := Find(t, i, e, [c, c]);
    forall k: nat ensures PairAt(t, k, e, c) <==> Occurs(t, k, e, [c, c]) {
      PairOccurs(t, k, e, c);
    }
    hide Find;
  }

  ghost predicate NoWikilink(body: string) { forall spec: Spec :: !WikiReads(body, spec) }

  /** Without a further "[[", or without a "]]" behind it, the rest of a line holds no wikilink. */
  lemma NoWikilinkLeft(t: string, i: nat, e: nat, k: nat)
    requires i <= e <= |t|
    ensures NoPair(t, i, e, '[') ==> WikiLine(t, i, e) == []
    ensures FirstPair(t, i, e, '[', k) && NoPair(t, k + 2, e, ']') ==> WikiLine(t, i, e) == []
  {
    FindPair(t, i, e, '[');
    assert "[[" == ['[', '['] && "]]" == [']', ']'];
    if FirstPair(t, i, e, '[', k) {
      FindPair(t, k + 2, e, ']');
    }
    hide WikiBody, Find, NoPair, FirstPair;
  }

  lemma PairBounds(t: string, i: nat, e: nat, c: char, k: nat)
    requires e <= |t| && FirstPair(t, i, e, c, k)
    ensures i <= k && k + 2 <= e
  {
  }

  lemma BetweenPairs(t: string, i: nat, e: nat, k: nat, m: nat)
    requires i <= e <= |t| && FirstPair(t, i, e, '[', k) && FirstPair(t, k + 2, e, ']', m)
    ensures i <= k && k + 2 <= m && m + 2 <= e
    ensures WikiLine(t, i, e) == Emit(k, ObsidianWikilink, WikiBody(t[k + 2..m])) + WikiLine(t, m + 2, e)
  {
    hide *;
    PairBounds(t, i, e, '[', k);
    PairBounds(t, k + 2, e, ']', m);
    FindPair(t, i, e, '[');
    FindPair(t, k + 2, e, ']');
    assert "[[" == ['[', '['] && "]]" == [']', ']'];
    WikiLineFound(t, i, e, k);
  }

  lemma EmittedOrNot(k: nat, origin: Origin, w: Option<Spec>, rest: seq<Item>)
    ensures Emit(k, origin, w) + rest == if w.Some? then [Item(k, origin, w.value)] + rest else rest
  {
  }

  lemma NoneReads(body: string)
    requires NoWikilink(body)
    ensures WikiBody(body) == None
  {
    hide WikiBody, WikiReads;
    if WikiBody(body).Some? {
      WikiByText(body, WikiBody(body).value);
    }
  }

  /** What stands between the first "[[" and the first "]]" behind it is a wikilink exactly if it reads as one, and the
      search goes on behind both. */
  lemma NextWikilink(t: string, i: nat, e: nat, k: nat, m: nat, spec: Spec)
    requires i <= e <= |t| && FirstPair(t, i, e, '[', k) && FirstPair(t, k + 2, e, ']', m)
    ensures WikiReads(t[k + 2..m], spec) ==>
              WikiLine(t, i, e) == [Item(k, ObsidianWikilink, spec)] + WikiLine(t, m + 2, e)
    ensures NoWikilink(t[k + 2..m]) ==> WikiLine(t, i, e) == WikiLine(t, m + 2, e)
  {
    hide *;
    BetweenPairs(t, i, e, k, m);
    var body := t[k + 2..m];
    WikiByText(body, spec);
    EmittedOrNot(k, ObsidianWikilink, WikiBody(body), WikiLine(t, m + 2, e));
    if NoWikilink(body) {
      NoneReads(body);
    }
  }

  // ----- the Markdown links of a line

  /** t[c..c + n] is a whole run of backticks: none stands before or behind it. */
  ghost predicate WholeRun(t: string, c: nat, e: nat, n: nat)
    requires e <= |t|
  {
    && n > 0 && c + n <= e && (forall k :: c <= k < c + n ==> t[k] == '`')
    && (c > 0 ==> t[c - 1] != '`') && (c + n < e ==> t[c + n] != '`')
  }

  /** A run of n backticks at i ends there. */
  ghost predicate RunAt(t: string, i: nat, e: nat, n: nat)
    requires e <= |t|
  {
    n > 0 && i + n <= e && (forall k :: i <= k < i + n ==> t[k] == '`') && (i + n < e ==> t[i + n] != '`')
  }

  lemma RunsClose(t: string, c: nat, e: nat, n: nat)
    requires e <= |t| && n > 0
    ensures ClosesAt(t, c, e, n) <==> WholeRun(t, c, e, n)
  {
  }

  lemma SpanSkipped(t: string, i: nat, e: nat, n: nat)
    requires e <= |t| && RunAt(t, i, e, n)
    ensures RunEnd(t, i, e, '`') == i + n
    ensures MarkdownLine(t, i, e) == MarkdownLine(t, CodeNext(t, i, e), e)
  {
    assert RunEnd(t, i, e, '`') == i + n;
    hide CodeNext, MarkdownAt;
    assert [] + MarkdownLine(t, CodeNext(t, i, e), e) == MarkdownLine(t, CodeNext(t, i, e), e);
  }

  lemma FirstWholeRun(t: string, i: nat, e: nat, n: nat, c: nat)
    requires i <= e <= |t| && n > 0
    ensures WholeRun(t, c, e, n) && i <= c && (forall d: nat :: i <= d < c ==> !WholeRun(t, d, e, n)) ==>
              FirstClose(t, i, e, n) == Some(c)
    ensures (forall d: nat :: i <= d ==> !WholeRun(t, d, e, n)) ==> FirstClose(t, i, e, n) == None
  {
    var f := FirstClose(t, i, e, n);
    forall d: nat ensures ClosesAt(t, d, e, n) <==> WholeRun(t, d, e, n) {
      RunsClose(t, d, e, n);
    }
    hide WholeRun, ClosesAt, FirstClose;
    assert f.Some? ==> WholeRun(t, f.value, e, n);
  }

  lemma SpanNext(t: string, i: nat, e: nat, n: nat)
    requires e <= |t| && RunAt(t, i, e, n)
    ensures var f := FirstClose(t, i + n, e, n); CodeNext(t, i, e) == if f.Some? then f.value + n else i + n
  {
    assert RunEnd(t, i, e, '`') == i + n;
    hide FirstClose;
  }

  /** A run of backticks is skipped together with what stands before the next run of the same length, which closes it;
      if there is none, the run alone is. */
  lemma SpanLaws(t: string, i: nat, e: nat, n: nat, c: nat)
    requires e <= |t| && RunAt(t, i, e, n)
    ensures WholeRun(t, c, e, n) && i + n <= c && (forall d: nat :: i + n <= d < c ==> !WholeRun(t, d, e, n)) ==>
              MarkdownLine(t, i, e) == MarkdownLine(t, c + n, e)
    ensures (forall d: nat :: i + n <= d ==> !WholeRun(t, d, e, n)) ==> MarkdownLine(t, i, e) == MarkdownLine(t, i + n, e)
  {
    hide FirstClose, CodeNext, MarkdownLine;
    SpanSkipped(t, i, e, n);
    SpanNext(t, i, e, n);
    FirstWholeRun(t, i + n, e, n, c);
  }

  /** Any other character, and a bracket behind an exclamation mark, is passed over. */
  lemma PassedOver(t: string, i: nat, e: nat)
    requires i < e <= |t| && t[i] != '`' && (t[i] != '[' || (i > 0 && t[i - 1] == '!'))
    ensures MarkdownLine(t, i, e) == MarkdownLine(t, i + 1, e)
  {
    hide CodeNext, MarkdownAt;
    assert [] + MarkdownLine(t, i + 1, e) == MarkdownLine(t, i + 1, e);
  }

  predicate OpensLabel(t: string, i: nat, e: nat)
    requires e <= |t|
  {
    i < e && t[i] == '[' && (i > 0 ==> t[i - 1] != '!')
  }

  /** What reads as a link is one, and the scan goes on behind its closing parenthesis. */
  lemma LinkLaw(t: string, i: nat, e: nat, spec: Spec, l: nat, from: nat, close: nat)
    requires e <= |t| && OpensLabel(t, i, e) && ReadsWith(t, i, e, spec, l, from, close)
    ensures MarkdownLine(t, i, e)
         == [Item(i, MarkdownLink, spec)] + MarkdownLine(t, if from == l + 2 then close + 1 else close + 2, e)
  {
    ReadsFound(t, i, e, spec, l, from, close);
    hide NoteDestination, HasSpace, Find, First, DestinationAt, MarkdownAt;
    LinkEnds(t, i, e, l, from, close);
  }

  lemma LinkEnds(t: string, i: nat, e: nat, l: nat, from: nat, close: nat)
    requires i < e <= |t| && Bracketed(t, i, e, l, from, close)
    ensures MarkdownAt(t, i, e).next == if from == l + 2 then close + 1 else close + 2
  {
    hide NoteDestination, HasSpace, Find, First;
    FirstIs(t, i + 1, e, LABEL_STOP, l);
    var c := if t[l + 2] == '<' then '>' else ')';
    assert [c] == if t[l + 2] == '<' then ">" else ")";
    FindOne(t, from, e, c, close);
  }

  /** The first character behind the bracket that a label cannot hold. */
  ghost predicate LabelEnds(t: string, i: nat, e: nat, l: nat)
    requires e <= |t|
  {
    i < l < e && t[l] in {'[', ']', '\0'} && forall k :: i < k < l ==> t[k] !in {'[', ']', '\0'}
  }

  ghost predicate FirstOf(t: string, i: nat, e: nat, c: char, k: nat)
    requires e <= |t|
  {
    i <= k < e && t[k] == c && forall j :: i <= j < k ==> t[j] != c
  }

  lemma AttemptSkipped(t: string, i: nat, e: nat)
    requires e <= |t| && OpensLabel(t, i, e)
    ensures MarkdownAt(t, i, e).spec.None? ==> MarkdownLine(t, i, e) == MarkdownLine(t, MarkdownAt(t, i, e).next, e)
  {
    hide MarkdownAt;
    var n := MarkdownAt(t, i, e).next;
    assert [] + MarkdownLine(t, n, e) == MarkdownLine(t, n, e);
  }

  lemma EndlessLabel(t: string, i: nat, e: nat)
    requires e <= |t| && OpensLabel(t, i, e) && forall k :: i < k < e ==> t[k] !in {'[', ']', '\0'}
    ensures MarkdownAt(t, i, e) == Step(None, e)
  {
    hide DestinationAt;
    FirstIs(t, i + 1, e, LABEL_STOP, e);
  }

  lemma EndedLabel(t: string, i: nat, e: nat, l: nat)
    requires e <= |t| && OpensLabel(t, i, e) && LabelEnds(t, i, e, l)
    ensures t[l] == '[' ==> MarkdownAt(t, i, e) == Step(None, l)
    ensures t[l] == '\0' || (t[l] == ']' && (l + 1 == e || t[l + 1] != '(')) ==> MarkdownAt(t, i, e) == Step(None, l + 1)
    ensures t[l] == ']' && l + 2 == e && t[l + 1] == '(' ==> MarkdownAt(t, i, e) == Step(None, e)
    ensures t[l] == ']' && l + 2 < e && t[l + 1] == '(' ==> MarkdownAt(t, i, e) == DestinationAt(t, t[i + 1..l], l + 2, e)
  {
    hide DestinationAt;
    FirstIs(t, i + 1, e, LABEL_STOP, l);
  }

  /** Where the scan goes on when the label is not followed by a destination: a further bracket begins another attempt,
      and a label that never ends leaves nothing on the line. */
  lemma BareLabelLaws(t: string, i: nat, e: nat, l: nat)
    requires e <= |t| && OpensLabel(t, i, e)
    ensures (forall k :: i < k < e ==> t[k] !in {'[', ']', '\0'}) ==> MarkdownLine(t, i, e) == []
    ensures LabelEnds(t, i, e, l) && t[l] == '[' ==> MarkdownLine(t, i, e) == MarkdownLine(t, l, e)
    ensures LabelEnds(t, i, e, l) && (t[l] == '\0' || (t[l] == ']' && (l + 1 == e || t[l + 1] != '('))) ==>
              MarkdownLine(t, i, e) == MarkdownLine(t, l + 1, e)
    ensures LabelEnds(t, i, e, l) && t[l] == ']' && l + 2 == e && t[l + 1] == '(' ==> MarkdownLine(t, i, e) == []
  {
    AttemptSkipped(t, i, e);
    hide MarkdownAt, DestinationAt, First;
    if LabelEnds(t, i, e, l) {
      EndedLabel(t, i, e, l);
    } else if forall k :: i < k < e ==> t[k] !in {'[', ']', '\0'} {
      EndlessLabel(t, i, e);
    }
    NothingAtEnd(t, e);
    hide MarkdownLine;
  }

  lemma NothingAtEnd(t: string, e: nat)
    requires e <= |t|
    ensures MarkdownLine(t, e, e) == []
  {
  }

  lemma LabelBounds(t: string, i: nat, e: nat, l: nat)
    requires e <= |t| && LabelEnds(t, i, e, l)
    ensures i < l < e
  {
  }

  lemma PlainDestination(t: string, caption: string, d: nat, e: nat, close: nat)
    requires d < e <= |t| && t[d] != '<'
    ensures (forall k :: d <= k < e ==> t[k] != ')') ==> DestinationAt(t, caption, d, e) == Step(None, e)
    ensures FirstOf(t, d, e, ')', close) && (HasSpace(t[d..close]) || NoteDestination(t[d..close]).None?) ==>
              DestinationAt(t, caption, d, e) == Step(None, close + 1)
  {
    FindsOne(t, d, e, ')');
    assert [')'] == ")";
    hide Find, NoteDestination, HasSpace;
  }

  lemma AngleDestination(t: string, caption: string, d: nat, e: nat, close: nat)
    requires d < e <= |t| && t[d] == '<'
    ensures (forall k :: d + 1 <= k < e ==> t[k] != '>') ==> DestinationAt(t, caption, d, e) == Step(None, e)
    ensures FirstOf(t, d + 1, e, '>', close) && (close + 1 == e || t[close + 1] != ')') ==>
              DestinationAt(t, caption, d, e) == Step(None, close + 1)
    ensures FirstOf(t, d + 1, e, '>', close) && close + 1 < e && t[close + 1] == ')' && NoteDestination(t[d + 1..close]).None? ==>
              DestinationAt(t, caption, d, e) == Step(None, close + 2)
  {
    FindsOne(t, d + 1, e, '>');
    assert ['>'] == ">";
    hide Find, NoteDestination, HasSpace;
  }

  /** Where it goes on when a destination is opened that names no note: behind the parenthesis that ends it, and nowhere
      if none does. */
  lemma PlainDestinationLaws(t: string, i: nat, e: nat, l: nat, close: nat)
    requires e <= |t| && OpensLabel(t, i, e) && LabelEnds(t, i, e, l) && t[l] == ']' && l + 2 < e && t[l + 1] == '('
    requires t[l + 2] != '<'
    ensures (forall k :: l + 2 <= k < e ==> t[k] != ')') ==> MarkdownLine(t, i, e) == []
    ensures FirstOf(t, l + 2, e, ')', close) && (HasSpace(t[l + 2..close]) || NoteDestination(t[l + 2..close]).None?) ==>
              MarkdownLine(t, i, e) == MarkdownLine(t, close + 1, e)
  {
    hide *;
    LabelBounds(t, i, e, l);
    AttemptSkipped(t, i, e);
    NothingAtEnd(t, e);
    EndedLabel(t, i, e, l);
    PlainDestination(t, t[i + 1..l], l + 2, e, close);
  }

  /** In angle brackets: behind the bracket that ends it, unless a parenthesis follows, and then behind that. */
  lemma AngleDestinationLaws(t: string, i: nat, e: nat, l: nat, close: nat)
    requires e <= |t| && OpensLabel(t, i, e) && LabelEnds(t, i, e, l) && t[l] == ']' && l + 2 < e && t[l + 1] == '('
    requires t[l + 2] == '<'
    ensures (forall k :: l + 3 <= k < e ==> t[k] != '>') ==> MarkdownLine(t, i, e) == []
    ensures FirstOf(t, l + 3, e, '>', close) && (close + 1 == e || t[close + 1] != ')') ==>
              MarkdownLine(t, i, e) == MarkdownLine(t, close + 1, e)
    ensures FirstOf(t, l + 3, e, '>', close) && close + 1 < e && t[close + 1] == ')' && NoteDestination(t[l + 3..close]).None? ==>
              MarkdownLine(t, i, e) == MarkdownLine(t, close + 2, e)
  {
    hide *;
    LabelBounds(t, i, e, l);
    AttemptSkipped(t, i, e);
    NothingAtEnd(t, e);
    EndedLabel(t, i, e, l);
    AngleDestination(t, t[i + 1..l], l + 2, e, close);
  }

  lemma FindsOne(t: string, i: nat, e: nat, c: char)
    requires i <= e <= |t|
    ensures (forall k :: i <= k < e ==> t[k] != c) <==> Find(t, i, e, [c]).None?
    ensures forall k: nat :: FirstOf(t, i, e, c, k) ==> Find(t, i, e, [c]) == Some(k)
  {
    if Find(t, i, e, [c]).Some? {
      FoundOne(t, i, e, c);
    } else {
      forall k | i <= k < e ensures t[k] != c {
        assert !Occurs(t, k, e, [c]);
        assert t[k..k + 1] == [t[k]];
      }
    }
    forall k: nat | FirstOf(t, i, e, c, k) ensures Find(t, i, e, [c]) == Some(k) {
      FindOne(t, i, e, c, k);
    }
  }
}

/** The incremental recogniser: every inspected character is paid for before it is read. */
module ScopedLinks {
  import opened PythonText
  import opened LinkGrammar
  import opened LinkRefinement
  import opened ScanCosts
  import opened ScopedBudget

  /** The scan takes place exactly when the credit covers its cost; a shortfall spends what is left. */
  ghost predicate Spends<T>(r: Outcome<T>, before: nat, after: nat, cost: nat) {
    if before >= cost then r.Ok? && after == before - cost else r == Exhausted(Relationships) && after == 0
  }

  lemma Mismatch(t: string, i: nat, e: nat, token: string, j: nat)
    requires e <= |t| && j < |token| && (i + j >= |t| || t[i + j] != token[j])
    ensures !Occurs(t, i, e, token)
  {
  }

  // ----- what the character loops remember

  /** After text[a..i]: where the first pipe and the first '#' before it are, and that nothing forbids a link. */
  ghost predicate WikiSeen(t: string, a: nat, i: nat, pipe: Option<nat>, heading: Option<nat>)
    requires a <= i <= |t|
  {
    && (forall k :: a <= k < i ==> t[k] != '[' && t[k] != ']' && t[k] != '\0')
    && (match pipe
        case None => forall k :: a <= k < i ==> t[k] != '|'
        case Some(p) => a <= p < i && t[p] == '|' && forall k :: a <= k < i && k != p ==> t[k] != '|')
    && (match heading
        case None => forall k :: a <= k < i && (pipe.Some? ==> k < pipe.value) ==> t[k] != '#'
        case Some(h) => && a <= h < i && t[h] == '#' && (pipe.Some? ==> h < pipe.value)
                        && forall k :: a <= k < h ==> t[k] != '#')
  }

  lemma WikiSeenCuts(t: string, a: nat, e: nat, pipe: Option<nat>, heading: Option<nat>)
    requires a <= e <= |t| && WikiSeen(t, a, e, pipe, heading)
    ensures var body := t[a..e];
            var p := if pipe.Some? then pipe.value else e;
            var h := if heading.Some? then heading.value else p;
            && a <= h <= p <= e
            && '[' !in body && ']' !in body && '\0' !in body && !TwoPipes(body)
            && First(body, 0, |body|, {'|'}) == p - a
            && First(body, 0, p - a, {'#'}) == h - a
  {
    var body := t[a..e];
    assert forall k :: 0 <= k < e - a ==> body[k] == t[a + k];
    var p := if pipe.Some? then pipe.value else e;
    var h := if heading.Some? then heading.value else p;
    hide First;
    FirstIs(body, 0, |body|, {'|'}, p - a);
    FirstIs(body, 0, p - a, {'#'}, h - a);
  }

  lemma WikiSeenParts(t: string, a: nat, e: nat, pipe: Option<nat>, heading: Option<nat>)
    requires a <= e <= |t| && WikiSeen(t, a, e, pipe, heading)
    ensures var p := if pipe.Some? then pipe.value else e;
            var h := if heading.Some? then heading.value else p;
            && a <= h <= p <= e
            && (heading.Some? ==> h < p) && (pipe.Some? ==> p < e)
            && WikiBody(t[a..e])
               == WikiSpec(Strip(t, a, h),
                           if heading.Some? then Some(Strip(t, h + 1, p)) else None,
                           if pipe.Some? then Some(Strip(t, p + 1, e)) else None)
  {
    hide Strip, First, TwoPipes;
    WikiSeenCuts(t, a, e, pipe, heading);
    var p := if pipe.Some? then pipe.value else e;
    var h := if heading.Some? then heading.value else p;
    StripWithin(t, a, e, a, h);
    if heading.Some? {
      StripWithin(t, a, e, h + 1, p);
    }
    if pipe.Some? {
      StripWithin(t, a, e, p + 1, e);
    }
  }

  lemma WikiSeenTrims(t: string, a: nat, e: nat, pipe: Option<nat>, heading: Option<nat>)
    requires a <= e <= |t| && WikiSeen(t, a, e, pipe, heading)
    ensures var p := if pipe.Some? then pipe.value else e;
            var h := if heading.Some? then heading.value else p;
            && a <= h <= p <= e && (heading.Some? ==> h < p) && (pipe.Some? ==> p < e)
            && WikiTrims(t, a, e) == TrimCost(t, a, h) + (if heading.Some? then TrimCost(t, h + 1, p) else 0)
                                   + if pipe.Some? then TrimCost(t, p + 1, e) else 0
  {
    hide TrimCost;
    var p := if pipe.Some? then pipe.value else e;
    var h := if heading.Some? then heading.value else p;
    FirstIs(t, a, e, {'|'}, p);
    FirstIs(t, a, p, {'#'}, h);
  }

  function WikiSpec(target: string, fragment: Option<string>, alias: Option<string>): Option<Spec> {
    if target == "" || fragment == Some("") || alias == Some("") then None
    else Some(Spec(target, fragment, alias))
  }

  lemma StripWithin(t: string, a: nat, e: nat, i: nat, j: nat)
    requires a <= i <= j <= e <= |t|
    ensures Strip(t[a..e], i - a, j - a) == Strip(t, i, j)
  {
    hide StripStart, StripEnd;
    var l := t[a..e];
    StripStartWithin(t, a, e, i, j);
    var b := StripStart(t, i, j);
    StripEndWithin(t, a, e, b, j);
    SliceSlice(t, a, e, b - a, StripEnd(t, b, j) - a);
  }

  lemma {:induction false} StripStartWithin(t: string, a: nat, e: nat, i: nat, j: nat)
    requires a <= i <= j <= e <= |t|
    ensures StripStart(t[a..e], i - a, j - a) == StripStart(t, i, j) - a
    decreases j - i
  {
    if i < j {
      assert t[a..e][i - a] == t[i];
      StripStartWithin(t, a, e, i + 1, j);
    }
  }

  lemma {:induction false} StripEndWithin(t: string, a: nat, e: nat, i: nat, j: nat)
    requires a <= i <= j <= e <= |t|
    ensures StripEnd(t[a..e], i - a, j - a) == StripEnd(t, i, j) - a
    decreases j - i
  {
    if i < j {
      assert t[a..e][j - 1 - a] == t[j - 1];
      StripEndWithin(t, a, e, i, j - 1);
    }
  }

  lemma WikiForbidden(t: string, a: nat, e: nat, i: nat)
    requires a <= i < e <= |t| && (t[i] == '[' || t[i] == ']' || t[i] == '\0')
    ensures WikiBody(t[a..e]).None?
  {
    assert t[a..e][i - a] == t[i];
  }

  lemma WikiSecondPipe(t: string, a: nat, e: nat, p: nat, i: nat)
    requires a <= p < i < e <= |t| && t[p] == '|' && t[i] == '|'
    ensures WikiBody(t[a..e]).None?
  {
    assert t[a..e][p - a] == '|' && t[a..e][i - a] == '|';
  }

  /** A scheme name fills t[a..i] so far. */
  predicate SchemeSoFar(t: string, a: nat, i: nat)
    requires a <= i <= |t|
  {
    a < i && IsLetter(t[a]) && forall j :: a < j < i ==> IsSchemeChar(t[j])
  }

  /** After text[a..i] of a destination: where its fragment starts, and that nothing rejects it yet. */
  ghost predicate DestinationSeen(t: string, a: nat, i: nat, angle: bool, fragment: Option<nat>, scheme: bool)
    requires a <= i <= |t|
  {
    && (forall k :: a <= k < i ==> t[k] != '\0' && (angle || !IsSpace(t[k])))
    && (match fragment
        case None => forall k :: a <= k < i ==> t[k] != '#'
        case Some(f) => a <= f < i && t[f] == '#' && forall k :: a <= k < f ==> t[k] != '#')
    && var d := if fragment.Some? then fragment.value else i;
       && scheme == SchemeSoFar(t, a, d)
       && forall k {:trigger t[k]} :: a < k < d && t[k] == ':' ==> !SchemeSoFar(t, a, k)
  }

  lemma DestinationSeenCuts(t: string, a: nat, e: nat, angle: bool, fragment: Option<nat>, scheme: bool)
    requires a <= e <= |t| && DestinationSeen(t, a, e, angle, fragment, scheme)
    ensures var raw := t[a..e];
            var d := if fragment.Some? then fragment.value else e;
            && '\0' !in raw && (angle || !HasSpace(raw))
            && a <= d <= e && First(raw, 0, |raw|, {'#'}) == d - a
            && raw[..d - a] == t[a..d] && !HasScheme(t[a..d])
            && (fragment.Some? ==> d < e && raw[d - a + 1..] == t[d + 1..e])
  {
    var raw := t[a..e];
    assert forall k :: 0 <= k < e - a ==> raw[k] == t[a + k];
    var d := if fragment.Some? then fragment.value else e;
    assert First(raw, 0, |raw|, {'#'}) == d - a;
    SliceSlice(t, a, e, 0, d - a);
    if fragment.Some? {
      SliceSlice(t, a, e, d - a + 1, e - a);
    }
    NoScheme(t, a, d);
  }

  lemma DestinationSeenEnd(t: string, a: nat, e: nat, angle: bool, fragment: Option<nat>, scheme: bool)
    requires a <= e <= |t| && DestinationSeen(t, a, e, angle, fragment, scheme)
    ensures First(t, a, e, {'#'}) == if fragment.Some? then fragment.value else e
  {
    FirstIs(t, a, e, {'#'}, if fragment.Some? then fragment.value else e);
  }

  /** What is left to check once no character rejects the destination. */
  lemma DestinationSeenMeans(t: string, a: nat, e: nat, angle: bool, fragment: Option<nat>, scheme: bool)
    requires a <= e <= |t| && DestinationSeen(t, a, e, angle, fragment, scheme)
    ensures var d := if fragment.Some? then fragment.value else e;
            var path := t[a..d];
            && a <= d <= e && (fragment.Some? ==> d < e) && (angle || !HasSpace(t[a..e]))
            && NoteDestination(t[a..e])
               == if |path| >= 3 && !Anchored(path[0], path[1]) && EndsWithMd(path)
                  then Some((path, if fragment.Some? then Some(t[d + 1..e]) else None)) else None
  {
    hide DestinationSeen, HasScheme, HasSpace, First;
    DestinationSeenCuts(t, a, e, angle, fragment, scheme);
  }

  lemma NoScheme(t: string, a: nat, d: nat)
    requires a <= d <= |t| && forall k {:trigger t[k]} :: a < k < d && t[k] == ':' ==> !SchemeSoFar(t, a, k)
    ensures !HasScheme(t[a..d])
  {
    var s := t[a..d];
    forall k | 1 <= k < |s| && s[k] == ':'
      ensures !(IsLetter(s[0]) && forall j :: 1 <= j < k ==> IsSchemeChar(s[j]))
    {
      assert t[a + k] == ':';
      SchemeWithin(t, a, d, k);
    }
  }

  lemma SchemeWithin(t: string, a: nat, d: nat, k: nat)
    requires a + k <= d <= |t| && k > 0
    ensures IsLetter(t[a..d][0]) && (forall j :: 1 <= j < k ==> IsSchemeChar(t[a..d][j])) ==> SchemeSoFar(t, a, a + k)
  {
    assert forall j :: a < j < a + k ==> t[j] == t[a..d][j - a];
  }

  lemma SchemeRejects(t: string, a: nat, e: nat, i: nat)
    requires a < i < e <= |t| && t[i] == ':' && SchemeSoFar(t, a, i) && forall k :: a <= k < i ==> t[k] != '#'
    ensures NoteDestination(t[a..e]).None?
  {
    var raw := t[a..e];
    assert forall k :: 0 <= k < e - a ==> raw[k] == t[a + k];
    var h := First(raw, 0, |raw|, {'#'});
    assert i - a < h;
    assert raw[..h][i - a] == ':';
    assert forall j :: 1 <= j < i - a ==> raw[..h][j] == t[a + j];
    assert HasScheme(raw[..h]);
  }

  class Cursor {
    const text: string
    const view: RelationshipView

    constructor (text: string, view: RelationshipView)
      ensures this.text == text && this.view == view
    {
      this.text, this.view := text, view;
    }

    method At(index: nat) returns (r: Outcome<Option<char>>)
      requires view.Valid()
      modifies view`parseLeft, view.owner`parseProbes, view.owner`spaceParseProbes
      ensures view.Valid() && Spends(r, old(view.parseLeft), view.parseLeft, CharCost(text, index))
      ensures r.Ok? ==> r.value == if index < |text| then Some(text[index]) else None
    {
      hide RelationshipView.Valid;
      if index >= |text| {
        return Ok(None);
      }
      var _ :- view.Probe(1);
      return Ok(Some(text[index]));
    }

    method Seek(start: nat, token: string) returns (r: Outcome<Option<nat>>)
      requires view.Valid() && start <= |text| && 1 <= |token| <= 2 && forall c <- token :: c !in BREAKS
      modifies view`parseLeft, view.owner`parseProbes, view.owner`spaceParseProbes
      ensures view.Valid() && Spends(r, old(view.parseLeft), view.parseLeft, SeekCost(text, start, LineEnd(text, start), token))
      ensures r.Ok? ==> r.value == Find(text, start, LineEnd(text, start), token)
    {
      hide RelationshipView.Valid, MatchCost;
      ghost var e := LineEnd(text, start);
      var index := start;
      while index < |text|
        invariant start <= index <= e && view.Valid()
        invariant Find(text, start, e, token) == Find(text, index, e, token)
        invariant view.parseLeft + SeekCost(text, start, e, token) == old(view.parseLeft) + SeekCost(text, index, e, token)
      {
        var c0 :- At(index);
        if c0.value in BREAKS {
          return Ok(None);
        }
        if c0.value == token[0] {
          var same :- Matches(index, e, token);
          if same {
            return Ok(Some(index));
          }
        } else {
          Mismatch(text, index, e, token, 0);
        }
        index := index + 1;
      }
      return Ok(None);
    }

    /** `all(self.at(index + j) == c for j, c in enumerate(token))` */
    method Matches(index: nat, ghost e: nat, token: string) returns (r: Outcome<bool>)
      requires view.Valid() && index < e <= |text| && 1 <= |token| <= 2 && forall c <- token :: c !in BREAKS
      requires e < |text| ==> text[e] in BREAKS
      modifies view`parseLeft, view.owner`parseProbes, view.owner`spaceParseProbes
      ensures view.Valid() && Spends(r, old(view.parseLeft), view.parseLeft, MatchCost(text, index, token, 0))
      ensures r.Ok? ==> r.value == Occurs(text, index, e, token)
    {
      hide RelationshipView.Valid;
      var j := 0;
      while j < |token|
        invariant 0 <= j <= |token| && index + j <= e && view.Valid()
        invariant forall k :: 0 <= k < j ==> text[index + k] == token[k]
        invariant view.parseLeft + MatchCost(text, index, token, 0) == old(view.parseLeft) + MatchCost(text, index, token, j)
      {
        var c0 :- At(index + j);
        if c0 != Some(token[j]) {
          Mismatch(text, index, e, token, j);
          return Ok(false);
        }
        j := j + 1;
      }
      assert text[index..index + |token|] == token;
      return Ok(true);
    }

    /** `text[start:end].strip()`, inspecting only what it removes and the two ends. */
    method Trim(start: nat, end: nat) returns (r: Outcome<string>)
      requires view.Valid() && start <= end <= |text|
      modifies view`parseLeft, view.owner`parseProbes, view.owner`spaceParseProbes
      ensures view.Valid() && Spends(r, old(view.parseLeft), view.parseLeft, TrimCost(text, start, end))
      ensures r.Ok? ==> r.value == Strip(text, start, end)
    {
      hide RelationshipView.Valid;
      var a, b := start, end;
      while a < b
        invariant start <= a <= b == end && view.Valid()
        invariant StripStart(text, start, end) == StripStart(text, a, end)
        invariant view.parseLeft == old(view.parseLeft) - (a - start)
      {
        var c0 :- At(a);
        if !IsSpace(c0.value) {
          break;
        }
        a := a + 1;
      }
      assert a == StripStart(text, start, end);
      ghost var first := (a - start) + if a < end then 1 else 0;
      while a < b
        invariant a <= b <= end && view.Valid() && (a < end ==> a < b)
        invariant StripEnd(text, a, end) == StripEnd(text, a, b)
        invariant view.parseLeft == old(view.parseLeft) - first - (end - b)
      {
        var c0 :- At(b - 1);
        if !IsSpace(c0.value) {
          break;
        }
        b := b - 1;
      }
      return Ok(text[a..b]);
    }

    method FindLineEnd(start: nat) returns (r: Outcome<nat>)
      requires view.Valid() && start <= |text|
      modifies view`parseLeft, view.owner`parseProbes, view.owner`spaceParseProbes
      ensures view.Valid() && Spends(r, old(view.parseLeft), view.parseLeft, ToLineEnd(text, start, LineEnd(text, start)))
      ensures r.Ok? ==> r.value == LineEnd(text, start)
    {
      hide RelationshipView.Valid;
      var index := start;
      while index < |text|
        invariant start <= index <= |text| && view.Valid()
        invariant LineEnd(text, start) == LineEnd(text, index)
        invariant view.parseLeft == old(view.parseLeft) - (index - start)
      {
        var c0 :- At(index);
        if c0.value in BREAKS {
          break;
        }
        index := index + 1;
      }
      return Ok(index);
    }

    /** Past the run of `c` at start; the run cannot leave its line. */
    method FindRunEnd(start: nat, c: char) returns (r: Outcome<nat>)
      requires view.Valid() && start <= |text| && c !in BREAKS
      modifies view`parseLeft, view.owner`parseProbes, view.owner`spaceParseProbes
      ensures view.Valid() && Spends(r, old(view.parseLeft), view.parseLeft, RunCost(text, start, LineEnd(text, start), c))
      ensures r.Ok? ==> r.value == RunEnd(text, start, LineEnd(text, start), c)
    {
      hide RelationshipView.Valid;
      var end := start;
      while true
        invariant start <= end <= LineEnd(text, start) && view.Valid()
        invariant RunEnd(text, start, LineEnd(text, start), c) == RunEnd(text, end, LineEnd(text, start), c)
        invariant view.parseLeft == old(view.parseLeft) - (end - start)
        decreases |text| - end
      {
        var c0 :- At(end);
        if c0 != Some(c) {
          break;
        }
        end := end + 1;
      }
      return Ok(end);
    }

    /** The character loop of a wikilink body: None if a character forbids the link. */
    method WikiCuts(a: nat, end: nat) returns (r: Outcome<Option<(Option<nat>, Option<nat>)>>)
      requires view.Valid() && a <= end <= |text|
      modifies view`parseLeft, view.owner`parseProbes, view.owner`spaceParseProbes
      ensures view.Valid() && Spends(r, old(view.parseLeft), view.parseLeft, 
                        (var stop := WikiStop(text, a, end, false); if stop < end then stop - a + 1 else end - a))
      ensures r.Ok? ==> if r.value.Some? then WikiSeen(text, a, end, r.value.value.0, r.value.value.1)
                        else WikiBody(text[a..end]).None?
      ensures r.Ok? ==> (r.value.Some? <==> WikiStop(text, a, end, false) == end)
    {
      hide RelationshipView.Valid, WikiBody;
      var pipe: Option<nat>, heading: Option<nat> := None, None;
      var index := a;
      while index < end
        invariant a <= index <= end && view.Valid() && WikiSeen(text, a, index, pipe, heading)
        invariant WikiStop(text, a, end, false) == WikiStop(text, index, end, pipe.Some?)
        invariant view.parseLeft == old(view.parseLeft) - (index - a)
      {
        var c0 :- At(index);
        var c := c0.value;
        if c == '[' || c == ']' || c == '\0' || (c == '|' && pipe.Some?) {
          if c == '|' {
            WikiSecondPipe(text, a, end, pipe.value, index);
          } else {
            WikiForbidden(text, a, end, index);
          }
          return Ok(None);
        }
        if c == '|' {
          pipe := Some(index);
        } else if c == '#' && heading.None? && pipe.None? {
          heading := Some(index);
        }
        index := index + 1;
      }
      return Ok(Some((pipe, heading)));
    }

    /** The stripped target, fragment and alias, in this order. */
    method Trims(a: nat, heading: Option<nat>, pipe: Option<nat>, end: nat)
      returns (r: Outcome<(string, Option<string>, Option<string>)>)
      requires view.Valid() && end <= |text| && (pipe.Some? ==> a <= pipe.value < end)
      requires var p := if pipe.Some? then pipe.value else end; a <= p && (heading.Some? ==> a <= heading.value < p)
      modifies view`parseLeft, view.owner`parseProbes, view.owner`spaceParseProbes
      ensures var p := if pipe.Some? then pipe.value else end;
              var h := if heading.Some? then heading.value else p;
              view.Valid()
              && Spends(r, old(view.parseLeft), view.parseLeft,
                        TrimCost(text, a, h) + (if heading.Some? then TrimCost(text, h + 1, p) else 0)
                        + if pipe.Some? then TrimCost(text, p + 1, end) else 0)
              && (r.Ok? ==> r.value == (Strip(text, a, h), if heading.Some? then Some(Strip(text, h + 1, p)) else None,
                                        if pipe.Some? then Some(Strip(text, p + 1, end)) else None))
    {
      hide RelationshipView.Valid, Strip, TrimCost;
      var pipeEnd := if pipe.Some? then pipe.value else end;
      var target :- Trim(a, if heading.Some? then heading.value else pipeEnd);
      var fragment, alias := None, None;
      if heading.Some? {
        var f :- Trim(heading.value + 1, pipeEnd);
        fragment := Some(f);
      }
      if pipe.Some? {
        var f :- Trim(pipe.value + 1, end);
        alias := Some(f);
      }
      return Ok((target, fragment, alias));
    }

    method WikiParts(a: nat, end: nat, pipe: Option<nat>, heading: Option<nat>) returns (r: Outcome<Option<Spec>>)
      requires view.Valid() && a <= end <= |text| && WikiSeen(text, a, end, pipe, heading)
      modifies view`parseLeft, view.owner`parseProbes, view.owner`spaceParseProbes
      ensures view.Valid() && Spends(r, old(view.parseLeft), view.parseLeft, WikiTrims(text, a, end))
      ensures r.Ok? ==> r.value == WikiBody(text[a..end])
    {
      hide RelationshipView.Valid, WikiBody, Strip, WikiSeen, TrimCost, WikiTrims;
      WikiSeenTrims(text, a, end, pipe, heading);
      WikiSeenParts(text, a, end, pipe, heading);
      var parts :- Trims(a, heading, pipe, end);
      if parts.0 == "" || parts.1 == Some("") || parts.2 == Some("") {
        return Ok(None);
      }
      return Ok(Some(Spec(parts.0, parts.1, parts.2)));
    }

    /** The wikilink attempt at "[[". */
    method Wiki(start: nat) returns (r: Outcome<WikiState>)
      requires view.Valid() && start <= |text| && start + 2 <= LineEnd(text, start)
      modifies view`parseLeft, view.owner`parseProbes, view.owner`spaceParseProbes
      ensures view.Valid() && Spends(r, old(view.parseLeft), view.parseLeft, WikiCost(text, start, LineEnd(text, start)))
      ensures r.Ok? ==> r.value == WikiAt(text, start, LineEnd(text, start))
    {
      hide RelationshipView.Valid, WikiBody, Find, WikiSeen, SeekCost, WikiStop, WikiTrims;
      ghost var e := LineEnd(text, start);
      LineEndStable(text, start, start + 2);
      var found :- Seek(start + 2, "]]");
      if found.None? {
        return Ok(WikiState(None, start + 2, true));
      }
      var end := found.value;
      FindBound(text, start + 2, e, "]]");
      var cuts :- WikiCuts(start + 2, end);
      if cuts.None? {
        return Ok(WikiState(None, end + 2, false));
      }
      var spec :- WikiParts(start + 2, end, cuts.value.0, cuts.value.1);
      return Ok(WikiState(spec, end + 2, false));
    }

    /** The character loop of a destination: None if a character rejects it, else its end. */
    method DestinationCuts(start: nat, end: nat, angle: bool) returns (r: Outcome<Option<Option<nat>>>)
      requires view.Valid() && start <= end <= |text|
      modifies view`parseLeft, view.owner`parseProbes, view.owner`spaceParseProbes
      ensures view.Valid() && Spends(r, old(view.parseLeft), view.parseLeft, 
                        (var stop := DestinationStop(text, start, start, end, angle, false, false);
                         if stop < end then stop - start + 1 else end - start))
      ensures r.Ok? ==> if r.value.Some? then exists scheme :: DestinationSeen(text, start, end, angle, r.value.value, scheme)
                        else (!angle && HasSpace(text[start..end])) || NoteDestination(text[start..end]).None?
      ensures r.Ok? ==> (r.value.Some? <==> DestinationStop(text, start, start, end, angle, false, false) == end)
    {
      hide RelationshipView.Valid, NoteDestination, IsSpace, IsLetter, IsSchemeChar;
      var fragment: Option<nat> := None;
      var scheme := false;
      var index := start;
      while index < end
        invariant start <= index <= end && view.Valid() && DestinationSeen(text, start, index, angle, fragment, scheme)
        invariant DestinationStop(text, start, start, end, angle, false, false)
               == DestinationStop(text, start, index, end, angle, fragment.Some?, scheme)
        invariant view.parseLeft == old(view.parseLeft) - (index - start)
      {
        var c0 :- At(index);
        var c := c0.value;
        if c == '\0' || (!angle && IsSpace(c)) {
          assert text[start..end][index - start] == c;
          NulRejects(text[start..end]);
          return Ok(None);
        }
        if c == '#' && fragment.None? {
          fragment := Some(index);
        }
        if fragment.None? {
          if index == start {
            scheme := IsLetter(c);
          } else if scheme {
            if c == ':' {
              SchemeRejects(text, start, end, index);
              return Ok(None);
            }
            scheme := IsSchemeChar(c);
          }
        }
        index := index + 1;
      }
      return Ok(Some(fragment));
    }

    lemma NulRejects(raw: string)
      ensures '\0' in raw ==> NoteDestination(raw).None?
    {
    }

    /** The path checks of a destination whose characters are acceptable. */
    method CheckEnds(start: nat, end: nat) returns (r: Outcome<bool>)
      requires view.Valid() && start <= end <= |text|
      modifies view`parseLeft, view.owner`parseProbes, view.owner`spaceParseProbes
      ensures view.Valid() && Spends(r, old(view.parseLeft), view.parseLeft, EndsCost(text, start, end))
      ensures r.Ok? ==> var d := text[start..end]; r.value == (|d| >= 3 && !Anchored(d[0], d[1]) && EndsWithMd(d))
    {
      hide RelationshipView.Valid, SuffixCost, Anchored;
      ghost var d := text[start..end];
      if end - start < 3 {
        return Ok(false);
      }
      var first :- At(start);
      var second :- At(start + 1);
      assert d[0] == first.value && d[1] == second.value;
      if Anchored(first.value, second.value) {
        return Ok(false);
      }
      r := EndsInMd(end - 3);
      assert d[|d| - 3..] == text[end - 3..end];
    }

    /** The re-written destination check agrees with the path and URI checks of the eager parser. */
    method CheckDestination(start: nat, end: nat, angle: bool)
      returns (r: Outcome<Option<(string, Option<string>)>>)
      requires view.Valid() && start <= end <= |text|
      modifies view`parseLeft, view.owner`parseProbes, view.owner`spaceParseProbes
      ensures view.Valid() && Spends(r, old(view.parseLeft), view.parseLeft, CheckCost(text, start, end, angle))
      ensures r.Ok? ==> r.value == if !angle && HasSpace(text[start..end]) then None else NoteDestination(text[start..end])
    {
      hide RelationshipView.Valid, DestinationSeen, HasScheme, HasSpace, DestinationStop, EndsCost, First, NoteDestination;
      var cuts :- DestinationCuts(start, end, angle);
      if cuts.None? {
        return Ok(None);
      }
      var fragment := cuts.value;
      ghost var scheme :| DestinationSeen(text, start, end, angle, fragment, scheme);
      DestinationSeenEnd(text, start, end, angle, fragment, scheme);
      DestinationSeenMeans(text, start, end, angle, fragment, scheme);
      var destinationEnd := if fragment.Some? then fragment.value else end;
      var accepted :- CheckEnds(start, destinationEnd);
      if !accepted {
        return Ok(None);
      }
      return Ok(Some((text[start..destinationEnd],
                      if fragment.Some? then Some(text[fragment.value + 1..end]) else None)));
    }

    method EndsInMd(from: nat) returns (r: Outcome<bool>)
      requires view.Valid() && from + 3 <= |text|
      modifies view`parseLeft, view.owner`parseProbes, view.owner`spaceParseProbes
      ensures view.Valid() && Spends(r, old(view.parseLeft), view.parseLeft, SuffixCost(text, from))
      ensures r.Ok? ==> r.value == (text[from..from + 3] == ".md")
    {
      hide RelationshipView.Valid;
      var offset := 0;
      while offset < 3
        invariant 0 <= offset <= 3 && view.Valid() && (offset < 3 ==> offset < SuffixCost(text, from))
        invariant forall k :: 0 <= k < offset ==> text[from + k] == ".md"[k]
        invariant view.parseLeft == old(view.parseLeft) - offset
      {
        var c0 :- At(from + offset);
        if c0.value != ".md"[offset] {
          assert text[from..from + 3][offset] != ".md"[offset];
          return Ok(false);
        }
        offset := offset + 1;
      }
      assert text[from..from + 3] == ".md";
      return Ok(true);
    }

    method Markdown(start: nat) returns (r: Outcome<Step>)
      requires view.Valid() && start < |text| && start < LineEnd(text, start)
      modifies view`parseLeft, view.owner`parseProbes, view.owner`spaceParseProbes
      ensures view.Valid() && Spends(r, old(view.parseLeft), view.parseLeft, MarkdownCost(text, start, LineEnd(text, start)))
      ensures r.Ok? ==> r.value == MarkdownAt(text, start, LineEnd(text, start))
    {
      hide RelationshipView.Valid, DestinationAt, DestinationCost;
      ghost var e := LineEnd(text, start);
      var end := start + 1;
      while end < |text|
        invariant start < end <= e && view.Valid()
        invariant First(text, start + 1, e, LABEL_STOP) == First(text, end, e, LABEL_STOP)
        invariant view.parseLeft == old(view.parseLeft) - (end - start - 1)
      {
        var c0 :- At(end);
        if c0.value in LABEL_STOP || c0.value in BREAKS {
          break;
        }
        end := end + 1;
      }
      assert end == First(text, start + 1, e, LABEL_STOP);
      var char0 :- At(end);
      if char0.None? || char0.value in BREAKS {
        return Ok(Step(None, end));
      }
      if char0.value == '[' {
        return Ok(Step(None, end));
      }
      if char0.value == '\0' {
        return Ok(Step(None, end + 1));
      }
      var open :- At(end + 1);
      if open != Some('(') {
        return Ok(Step(None, end + 1));
      }
      LineEndStable(text, start, end + 1);
      r := Destination(end + 2, text[start + 1..end], e);
      if r.Ok? && end + 2 == e {
        assert r.value == Step(None, e);
      }
    }

    /** After "](": the destination, its closing bracket and its check. */
    method Destination(start: nat, caption: string, ghost e: nat) returns (r: Outcome<Step>)
      requires view.Valid() && start <= |text| && start <= e == LineEnd(text, start)
      modifies view`parseLeft, view.owner`parseProbes, view.owner`spaceParseProbes
      ensures view.Valid() && Spends(r, old(view.parseLeft), view.parseLeft, DestinationCost(text, start, e))
      ensures r.Ok? ==> r.value == if start == e then Step(None, e) else DestinationAt(text, caption, start, e)
    {
      hide RelationshipView.Valid, NoteDestination, HasSpace, Find, SeekCost, CheckCost;
      var c0 :- At(start);
      var angle := c0 == Some('<');
      var from := if angle then start + 1 else start;
      LineEndStable(text, start, from);
      var close :- Seek(from, if angle then ">" else ")");
      FindBound(text, from, e, if angle then ">" else ")");
      if close.None? {
        var lineEnd :- FindLineEnd(start);
        return Ok(Step(None, lineEnd));
      }
      if angle {
        var after :- At(close.value + 1);
        if after != Some(')') {
          return Ok(Step(None, close.value + 1));
        }
      }
      var next := if angle then close.value + 2 else close.value + 1;
      var parsed :- CheckDestination(from, close.value, angle);
      if parsed.None? {
        return Ok(Step(None, next));
      }
      return Ok(Step(Some(Spec(parsed.value.0, parsed.value.1, Some(caption))), next));
    }

    /** Walking the line run by run finds the same close as searching for the marker text. */
    method CodeEnd(start: nat) returns (r: Outcome<nat>)
      requires view.Valid() && start < |text| && text[start] == '`'
      modifies view`parseLeft, view.owner`parseProbes, view.owner`spaceParseProbes
      ensures view.Valid() && Spends(r, old(view.parseLeft), view.parseLeft, CodeCost(text, start, LineEnd(text, start)))
      ensures r.Ok? ==> r.value == CodeNext(text, start, LineEnd(text, start))
    {
      hide RelationshipView.Valid, FirstClose, RunCost, SpanCost;
      ghost var e := LineEnd(text, start);
      LineEndStable(text, start, start + 1);
      var run :- FindRunEnd(start + 1, '`');
      assert run == RunEnd(text, start, e, '`');
      LineEndStable(text, start, run);
      r := SpanEnd(run, run - start, e);
    }

    method SpanEnd(run: nat, length: nat, ghost e: nat) returns (r: Outcome<nat>)
      requires view.Valid() && length > 0 && run <= e <= |text| && e == LineEnd(text, run)
      requires run < e ==> text[run] != '`'
      modifies view`parseLeft, view.owner`parseProbes, view.owner`spaceParseProbes
      ensures view.Valid() && Spends(r, old(view.parseLeft), view.parseLeft, SpanCost(text, run, e, length))
      ensures r.Ok? ==> r.value == match FirstClose(text, run, e, length) case Some(c) => c + length case None => run
    {
      hide RelationshipView.Valid, ClosesAt, FirstClose, RunCost;
      var index := run;
      while index < |text|
        invariant run <= index <= e && view.Valid()
        invariant FirstClose(text, run, e, length) == FirstClose(text, index, e, length)
        invariant index == run || index == e || text[index] != '`' || text[index - 1] != '`'
        invariant view.parseLeft + SpanCost(text, run, e, length) == old(view.parseLeft) + SpanCost(text, index, e, length)
      {
        var c0 :- At(index);
        if c0.value in BREAKS {
          break;
        }
        var c1 :- At(index);
        if c1.value != '`' {
          NotAtTick(text, index, e, length);
          index := index + 1;
        } else {
          LineEndStable(text, run, index + 1);
          var end :- FindRunEnd(index + 1, '`');
          if end - index == length {
            ClosesHere(text, index, e, length);
            return Ok(end);
          }
          OtherRun(text, index, end, e, length);
          index := end;
        }
      }
      NeverCloses(text, e, length);
      return Ok(run);
    }

    /** Past at most three leading blanks. */
    method IndentEnd(start: nat) returns (r: Outcome<nat>)
      requires view.Valid() && start <= |text|
      modifies view`parseLeft, view.owner`parseProbes, view.owner`spaceParseProbes
      ensures view.Valid() && Spends(r, old(view.parseLeft), view.parseLeft, IndentCost(text, start, LineEnd(text, start)))
      ensures r.Ok? ==> r.value == Indent(text, start, LineEnd(text, start), 3)
    {
      hide RelationshipView.Valid;
      ghost var e := LineEnd(text, start);
      var probe := start;
      while probe - start < 3
        invariant start <= probe <= start + 3 && probe <= e && view.Valid()
        invariant Indent(text, start, e, 3) == Indent(text, probe, e, 3 - (probe - start))
        invariant view.parseLeft == old(view.parseLeft) - (probe - start)
      {
        var c :- At(probe);
        if c != Some(' ') && c != Some('\t') {
          break;
        }
        probe := probe + 1;
      }
      return Ok(probe);
    }

    /** The fence line that starts here, if any: the fence state after it and where it ends. */
    method FenceLine(start: nat, open: Option<Fence>) returns (r: Outcome<Option<(Option<Fence>, nat)>>)
      requires view.Valid() && start <= |text|
      modifies view`parseLeft, view.owner`parseProbes, view.owner`spaceParseProbes
      ensures view.Valid() && Spends(r, old(view.parseLeft), view.parseLeft, FenceCost(text, start, LineEnd(text, start), open))
      ensures r.Ok? ==>
                var e := LineEnd(text, start);
                match FenceAt(text, start, e)
                case None => r.value.None?
                case Some(f) => r.value == Some((AfterFence(open, f), e)) && e > start
    {
      hide RelationshipView.Valid, Strip, Indent, IndentCost, TrimCost;
      ghost var e := LineEnd(text, start);
      var probe :- IndentEnd(start);
      var marker :- At(probe);
      if marker != Some('`') && marker != Some('~') {
        return Ok(None);
      }
      LineEndStable(text, start, probe);
      var end :- FindRunEnd(probe, marker.value);
      if end - probe < 3 {
        return Ok(None);
      }
      LineEndStable(text, start, end);
      var tailEnd :- FindLineEnd(end);
      if open.None? {
        return Ok(Some((Some(Fence(marker.value, end - probe)), tailEnd)));
      }
      if MayClose(open, marker.value, end - probe) {
        var tail :- Trim(end, tailEnd);
        if tail == "" {
          return Ok(Some((None, tailEnd)));
        }
      }
      return Ok(Some((open, tailEnd)));
    }
  }

  // ----- the generator's states

  /** Where the generator continues: at a position, or after a yield inside it. */
  datatype Resume = Top | AfterWiki | AfterMarkdown

  datatype Scan = Scan(
    index: nat, wikiNext: nat, markdownNext: nat, fence: Option<Fence>,
    lineStart: bool, missing: bool, resume: Resume)

  /** Both skip cursors stay on the line of the position; at a line start both are passed. */
  ghost predicate Sound(t: string, g: Scan) {
    && g.index <= |t|
    && (if g.lineStart then g.wikiNext <= g.index && g.markdownNext <= g.index && g.resume == Top
        else g.wikiNext <= LineEnd(t, g.index) && g.markdownNext <= LineEnd(t, g.index))
    && (g.resume != Top ==> g.index < LineEnd(t, g.index) && g.fence.None?)
  }

  ghost function InLine(t: string, i: nat, fence: Option<Fence>, w: nat, missing: bool, m: nat): seq<Item>
    requires i <= |t| && w <= LineEnd(t, i) && m <= LineEnd(t, i)
  {
    (if fence.None? then LineScan(t, i, LineEnd(t, i), w, missing, m) else []) + NextLine(t, i, fence)
  }

  /** The rest of the line after position i, and the lines after it. */
  ghost function Beyond(t: string, i: nat, w: nat, missing: bool, m: nat): seq<Item>
    requires i < |t| && i < LineEnd(t, i) && w <= LineEnd(t, i) && m <= LineEnd(t, i)
  {
    LineScan(t, i + 1, LineEnd(t, i), w, missing, m) + NextLine(t, i, None)
  }

  /** What an unlimited run would still yield. */
  ghost function Pending(t: string, g: Scan): seq<Item>
    requires Sound(t, g)
  {
    match g.resume
    case Top =>
      if g.lineStart then TextScan(t, g.index, g.fence)
      else InLine(t, g.index, g.fence, g.wikiNext, g.missing, g.markdownNext)
    case AfterWiki =>
      var m := SkippingStep(t, g.index, LineEnd(t, g.index), g.markdownNext);
      Emit(g.index, MarkdownLink, m.spec) + Beyond(t, g.index, g.wikiNext, g.missing, m.next)
    case AfterMarkdown =>
      Beyond(t, g.index, g.wikiNext, g.missing, g.markdownNext)
  }

  /** The probes for the rest of the line from position i on, and for the lines after it. */
  ghost function LineLeft(t: string, i: nat, fence: Option<Fence>, w: nat, missing: bool, m: nat): nat
    requires i <= |t| && w <= LineEnd(t, i) && m <= LineEnd(t, i)
  {
    (if fence.None? then LineCost(t, i, LineEnd(t, i), w, missing, m) else LineEnd(t, i) - i) + NextCost(t, i, fence)
  }

  ghost function BeyondCost(t: string, i: nat, w: nat, missing: bool, m: nat): nat
    requires i < |t| && i < LineEnd(t, i) && w <= LineEnd(t, i) && m <= LineEnd(t, i)
  {
    LineCost(t, i + 1, LineEnd(t, i), w, missing, m) + NextCost(t, i, None)
  }

  ghost function MarkdownPartCost(t: string, i: nat, m: nat): nat
    requires i < |t| && i < LineEnd(t, i)
  {
    if i >= m then MarkdownStepCost(t, i, LineEnd(t, i)) else 0
  }

  /** What an unlimited run would still pay. */
  ghost function Work(t: string, g: Scan): nat
    requires Sound(t, g)
  {
    match g.resume
    case Top =>
      if g.lineStart then TextCost(t, g.index, g.fence)
      else LineLeft(t, g.index, g.fence, g.wikiNext, g.missing, g.markdownNext)
    case AfterWiki =>
      MarkdownPartCost(t, g.index, g.markdownNext)
      + BeyondCost(t, g.index, g.wikiNext, g.missing, SkippingStep(t, g.index, LineEnd(t, g.index), g.markdownNext).next)
    case AfterMarkdown =>
      BeyondCost(t, g.index, g.wikiNext, g.missing, g.markdownNext)
  }

  lemma NextCostStable(t: string, s: nat, i: nat, fence: Option<Fence>)
    requires s <= |t| && s <= i <= LineEnd(t, s)
    ensures NextCost(t, i, fence) == NextCost(t, s, fence)
  {
    hide TextCost;
    LineEndStable(t, s, i);
  }

  /** A cursor the position has passed costs nothing, whatever it holds. */
  lemma {:induction false} PassedCost(t: string, i: nat, e: nat, w: nat, v: nat, missing: bool, m: nat, n: nat)
    requires i <= e <= |t| && w <= e && v <= e && m <= e && n <= e
    requires w == v || (w <= i && v <= i)
    requires m == n || (m <= i && n <= i)
    ensures LineCost(t, i, e, w, missing, m) == LineCost(t, i, e, v, missing, n)
    decreases e - i
  {
    hide WikiAt, MarkdownStep, MarkdownStepCost, WikiCost;
    if i < e {
      var a, b := WikiStep(t, i, e, w, missing), SkippingStep(t, i, e, m);
      var c, d := WikiStep(t, i, e, v, missing), SkippingStep(t, i, e, n);
      assert a.missing == c.missing;
      PassedCost(t, i + 1, e, a.next, c.next, a.missing, b.next, d.next);
    }
  }

  lemma NextLineStable(t: string, s: nat, i: nat, fence: Option<Fence>)
    requires s <= |t| && s <= i <= LineEnd(t, s)
    ensures NextLine(t, i, fence) == NextLine(t, s, fence)
  {
    hide TextScan;
    LineEndStable(t, s, i);
  }

  lemma EmptyScan(t: string, e: nat, w: nat, missing: bool, m: nat)
    requires e <= |t| && w <= e && m <= e
    ensures LineScan(t, e, e, w, missing, m) == []
  {
  }

  lemma TextScanUnfold(t: string, s: nat, fence: Option<Fence>)
    requires s < |t|
    ensures TextScan(t, s, fence)
         == match FenceAt(t, s, LineEnd(t, s))
            case Some(f) => NextLine(t, s, AfterFence(fence, f))
            case None => InLine(t, s, fence, 0, false, 0)
  {
    hide FenceAt, LineScan, NextLine;
  }

  /** A fence line is left at its end, in the fence state the eager parsers reach. */
  lemma FenceLineStep(t: string, g: Scan)
    requires Sound(t, g) && g.lineStart && g.index < |t| && FenceAt(t, g.index, LineEnd(t, g.index)).Some?
    ensures var e := LineEnd(t, g.index);
            var h := g.(index := e, fence := AfterFence(g.fence, FenceAt(t, g.index, e).value), lineStart := false, missing := false);
            Sound(t, h) && Pending(t, h) == Pending(t, g)
  {
    hide FenceAt, LineScan, NextLine, TextScan;
    var e := LineEnd(t, g.index);
    LineEndStable(t, g.index, e);
    TextScanUnfold(t, g.index, g.fence);
    EmptyScan(t, e, g.wikiNext, false, g.markdownNext);
    NextLineStable(t, g.index, e, AfterFence(g.fence, FenceAt(t, g.index, e).value));
  }

  lemma PlainLineStep(t: string, g: Scan)
    requires Sound(t, g) && g.lineStart && g.index < |t| && FenceAt(t, g.index, LineEnd(t, g.index)).None?
    ensures var h := g.(lineStart := false, missing := false);
            Sound(t, h) && Pending(t, h) == Pending(t, g)
  {
    hide FenceAt, LineScan, NextLine, TextScan;
    TextScanUnfold(t, g.index, g.fence);
    PassedCursors(t, g.index, LineEnd(t, g.index), g.wikiNext, 0, false, g.markdownNext, 0);
  }

  lemma BreakStep(t: string, g: Scan)
    requires Sound(t, g) && g.resume == Top && !g.lineStart && g.index < |t| && t[g.index] in BREAKS
    ensures var h := g.(index := g.index + 1, lineStart := true);
            Sound(t, h) && Pending(t, h) == Pending(t, g)
  {
    hide LineScan, TextScan;
    assert LineEnd(t, g.index) == g.index;
    EmptyScan(t, g.index, g.wikiNext, g.missing, g.markdownNext);
  }

  lemma FencedStep(t: string, g: Scan)
    requires Sound(t, g) && g.resume == Top && !g.lineStart && g.fence.Some?
    requires g.index < |t| && t[g.index] !in BREAKS
    ensures var h := g.(index := g.index + 1);
            Sound(t, h) && Pending(t, h) == Pending(t, g)
  {
    hide LineScan, NextLine;
    LineEndStable(t, g.index, g.index + 1);
    NextLineStable(t, g.index, g.index + 1, g.fence);
  }

  lemma WikiPartStep(t: string, g: Scan)
    requires Sound(t, g) && g.resume == Top && !g.lineStart && g.fence.None? && g.index < LineEnd(t, g.index)
    ensures var w := WikiStep(t, g.index, LineEnd(t, g.index), g.wikiNext, g.missing);
            var h := g.(wikiNext := w.next, missing := w.missing, resume := AfterWiki);
            Sound(t, h) && Pending(t, g) == Emit(g.index, ObsidianWikilink, w.spec) + Pending(t, h)
  {
    hide WikiStep, SkippingStep, NextLine, Emit, TextScan;
    var i, e := g.index, LineEnd(t, g.index);
    var a, b := WikiStep(t, i, e, g.wikiNext, g.missing), SkippingStep(t, i, e, g.markdownNext);
    var x, y := Emit(i, ObsidianWikilink, a.spec), Emit(i, MarkdownLink, b.spec);
    var rest, next := LineScan(t, i + 1, e, a.next, a.missing, b.next), NextLine(t, i, None);
    assert x + y + rest + next == x + (y + (rest + next));
  }

  /** A cursor that is already passed may stay where it is. */
  lemma MarkdownPartStep(t: string, g: Scan, next: nat)
    requires Sound(t, g) && g.resume == AfterWiki
    requires var m := SkippingStep(t, g.index, LineEnd(t, g.index), g.markdownNext);
             next == m.next || (m.next == g.index + 1 && next <= g.index)
    ensures var m := SkippingStep(t, g.index, LineEnd(t, g.index), g.markdownNext);
            var h := g.(markdownNext := next, resume := AfterMarkdown);
            Sound(t, h) && Pending(t, g) == Emit(g.index, MarkdownLink, m.spec) + Pending(t, h)
  {
    hide SkippingStep, NextLine, LineScan;
    var e := LineEnd(t, g.index);
    var m := SkippingStep(t, g.index, e, g.markdownNext);
    PassedCursors(t, g.index + 1, e, g.wikiNext, g.wikiNext, g.missing, next, m.next);
  }

  lemma AdvanceStep(t: string, g: Scan)
    requires Sound(t, g) && g.resume == AfterMarkdown
    ensures var h := g.(index := g.index + 1, resume := Top);
            Sound(t, h) && Pending(t, h) == Pending(t, g)
  {
    hide LineScan, NextLine;
    LineEndStable(t, g.index, g.index + 1);
    NextLineStable(t, g.index, g.index + 1, None);
  }

  lemma NothingPending(t: string, g: Scan)
    requires Sound(t, g) && g.index == |t|
    ensures Pending(t, g) == []
  {
    EmptyScan(t, |t|, g.wikiNext, g.missing, g.markdownNext);
  }

  lemma SoundIndex(t: string, g: Scan)
    requires Sound(t, g)
    ensures g.index <= |t| && (g.resume != Top ==> g.index < |t|)
  {
  }

  // ----- the same steps, by what they pay

  lemma FenceLineCost(t: string, g: Scan)
    requires Sound(t, g) && g.lineStart && g.index < |t| && FenceAt(t, g.index, LineEnd(t, g.index)).Some?
    ensures var e := LineEnd(t, g.index);
            var h := g.(index := e, fence := AfterFence(g.fence, FenceAt(t, g.index, e).value), lineStart := false, missing := false);
            Sound(t, h) && Work(t, g) == 1 + FenceCost(t, g.index, e, g.fence) + Work(t, h)
  {
    hide FenceAt, LineCost, NextCost, TextCost, FenceCost;
    var e := LineEnd(t, g.index);
    LineEndStable(t, g.index, e);
    TextCostUnfold(t, g.index, g.fence);
    EmptyCost(t, e, g.wikiNext, false, g.markdownNext);
    NextCostStable(t, g.index, e, AfterFence(g.fence, FenceAt(t, g.index, e).value));
  }

  lemma EmptyCost(t: string, e: nat, w: nat, missing: bool, m: nat)
    requires e <= |t| && w <= e && m <= e
    ensures LineCost(t, e, e, w, missing, m) == 0
  {
  }

  lemma TextCostUnfold(t: string, s: nat, fence: Option<Fence>)
    requires s < |t|
    ensures TextCost(t, s, fence)
         == FenceCost(t, s, LineEnd(t, s), fence) +
            match FenceAt(t, s, LineEnd(t, s))
            case Some(f) => 1 + NextCost(t, s, AfterFence(fence, f))
            case None => LineLeft(t, s, fence, 0, false, 0)
  {
    hide FenceAt, LineCost, NextCost, FenceCost;
  }

  lemma PlainLineCost(t: string, g: Scan)
    requires Sound(t, g) && g.lineStart && g.index < |t| && FenceAt(t, g.index, LineEnd(t, g.index)).None?
    ensures var h := g.(lineStart := false, missing := false);
            Sound(t, h) && Work(t, g) == FenceCost(t, g.index, LineEnd(t, g.index), g.fence) + Work(t, h)
  {
    hide FenceAt, LineCost, NextCost, TextCost, FenceCost;
    TextCostUnfold(t, g.index, g.fence);
    PassedCost(t, g.index, LineEnd(t, g.index), g.wikiNext, 0, false, g.markdownNext, 0);
  }

  lemma BreakCost(t: string, g: Scan)
    requires Sound(t, g) && g.resume == Top && !g.lineStart && g.index < |t| && t[g.index] in BREAKS
    ensures var h := g.(index := g.index + 1, lineStart := true);
            Sound(t, h) && Work(t, g) == 1 + Work(t, h)
  {
    hide LineCost, TextCost;
    assert LineEnd(t, g.index) == g.index;
    EmptyCost(t, g.index, g.wikiNext, g.missing, g.markdownNext);
  }

  lemma FencedCost(t: string, g: Scan)
    requires Sound(t, g) && g.resume == Top && !g.lineStart && g.fence.Some?
    requires g.index < |t| && t[g.index] !in BREAKS
    ensures var h := g.(index := g.index + 1);
            Sound(t, h) && Work(t, g) == 1 + Work(t, h)
  {
    hide LineCost, NextCost;
    LineEndStable(t, g.index, g.index + 1);
    NextCostStable(t, g.index, g.index + 1, g.fence);
  }

  lemma WikiPartCost(t: string, g: Scan)
    requires Sound(t, g) && g.resume == Top && !g.lineStart && g.fence.None? && g.index < LineEnd(t, g.index)
    ensures var e := LineEnd(t, g.index);
            var w := WikiStep(t, g.index, e, g.wikiNext, g.missing);
            var h := g.(wikiNext := w.next, missing := w.missing, resume := AfterWiki);
            Sound(t, h) && Work(t, g) == 1 + WikiStepCost(t, g.index, e, g.wikiNext, g.missing) + Work(t, h)
  {
    hide WikiStep, SkippingStep, NextCost, WikiStepCost, MarkdownStepCost, TextCost;
  }

  lemma MarkdownCostStep(t: string, g: Scan, next: nat)
    requires Sound(t, g) && g.resume == AfterWiki
    requires var m := SkippingStep(t, g.index, LineEnd(t, g.index), g.markdownNext);
             next == m.next || (m.next == g.index + 1 && next <= g.index)
    ensures var h := g.(markdownNext := next, resume := AfterMarkdown);
            Sound(t, h) && Work(t, g) == MarkdownPartCost(t, g.index, g.markdownNext) + Work(t, h)
  {
    hide SkippingStep, NextCost, LineCost, MarkdownStepCost;
    var e := LineEnd(t, g.index);
    var m := SkippingStep(t, g.index, e, g.markdownNext);
    PassedCost(t, g.index + 1, e, g.wikiNext, g.wikiNext, g.missing, next, m.next);
  }

  lemma AdvanceCost(t: string, g: Scan)
    requires Sound(t, g) && g.resume == AfterMarkdown
    ensures var h := g.(index := g.index + 1, resume := Top);
            Sound(t, h) && Work(t, h) == Work(t, g)
  {
    hide LineCost, NextCost;
    LineEndStable(t, g.index, g.index + 1);
    NextCostStable(t, g.index, g.index + 1, None);
  }

  lemma NothingAhead(t: string, g: Scan)
    requires Sound(t, g) && g.index == |t|
    ensures Work(t, g) == 0
  {
    EmptyCost(t, |t|, g.wikiNext, g.missing, g.markdownNext);
  }

  /** What was pending is the yielded item, if any, and what is pending now. */
  ghost predicate Continues(before: seq<Item>, yielded: Option<Item>, after: seq<Item>) {
    if yielded.Some? then before == [yielded.value] + after else before == after
  }

  /** There is something to pay until the end of the text. */
  lemma WorkAhead(t: string, g: Scan)
    requires Sound(t, g) && g.resume == Top && g.index < |t|
    ensures Work(t, g) > 0
  {
    hide FenceAt, FenceCost, WikiStepCost, MarkdownStepCost, TextCost, WikiStep, SkippingStep;
    if g.lineStart {
      TextCostUnfold(t, g.index, g.fence);
    }
  }

  /** The state behind the test for a fence line. */
  ghost function Lined(t: string, g: Scan): Scan
    requires g.index <= |t|
  {
    var e := LineEnd(t, g.index);
    match FenceAt(t, g.index, e)
    case Some(f) => g.(index := e, fence := AfterFence(g.fence, f), lineStart := false, missing := false)
    case None => g.(lineStart := false, missing := false)
  }

  lemma FenceHasText(t: string, s: nat, e: nat)
    requires s <= e <= |t| && FenceAt(t, s, e).Some?
    ensures s < e
  {
  }

  lemma LinedStep(t: string, g: Scan)
    requires Sound(t, g) && g.lineStart && g.index < |t|
    ensures var e, h := LineEnd(t, g.index), Lined(t, g);
            var fenced := FenceAt(t, g.index, e).Some?;
            && Sound(t, h) && Pending(t, h) == Pending(t, g)
            && Work(t, g) == FenceCost(t, g.index, e, g.fence) + Work(t, h) + (if fenced then 1 else 0)
            && (if fenced then h.index > g.index else Work(t, h) > 0 && h.index == g.index)
            && !h.lineStart && h.resume == g.resume
  {
    hide FenceAt, Pending, Work, FenceCost, AfterFence;
    if FenceAt(t, g.index, LineEnd(t, g.index)).Some? {
      FenceHasText(t, g.index, LineEnd(t, g.index));
      FenceLineCost(t, g);
      FenceLineStep(t, g);
    } else {
      PlainLineCost(t, g);
      PlainLineStep(t, g);
      WorkAhead(t, Lined(t, g));
    }
  }

  // ----- the generator

  class Recognizer {
    const text: string
    const view: RelationshipView
    const cursor: Cursor
    var index: nat
    var wikiNext: nat
    var markdownNext: nat
    var fence: Option<Fence>
    var lineStart: bool
    var wikiLineMissing: bool
    var resume: Resume

    ghost function State(): Scan
      reads this
    {
      Scan(index, wikiNext, markdownNext, fence, lineStart, wikiLineMissing, resume)
    }

    ghost predicate Valid()
      reads this, view, view.owner
    {
      view.Valid() && cursor.text == text && cursor.view == view && Sound(text, State())
    }

    constructor (text: string, view: RelationshipView)
      requires view.Valid()
      ensures this.text == text && this.view == view && Valid() && fresh(this)
      ensures State() == Scan(0, 0, 0, None, true, false, Top) && Pending(text, State()) == Recognition(text)
      ensures Margin() == view.parseLeft - RecognitionCost(text)
    {
      this.text, this.view := text, view;
      cursor := new Cursor(text, view);
      index, wikiNext, markdownNext, fence := 0, 0, 0, None;
      lineStart, wikiLineMissing, resume := true, false, Top;
    }

    /** Credit less the work ahead: what an unlimited run would leave over, or fall short of. */
    ghost function Margin(): int
      requires Sound(text, State())
      reads this, view
    {
      view.parseLeft - Work(text, State())
    }

    /** The test for a fence line at a line start. */
    method OpenLine() returns (r: Outcome<bool>)
      requires view.Valid() && cursor.text == text && cursor.view == view && lineStart && index < |text|
      modifies this`index, this`fence, this`lineStart, this`wikiLineMissing
      modifies view`parseLeft, view.owner`parseProbes, view.owner`spaceParseProbes
      ensures view.Valid() && Spends(r, old(view.parseLeft), view.parseLeft, old(FenceCost(text, index, LineEnd(text, index), fence)))
      ensures r.Ok? ==> State() == Lined(text, old(State())) && r.value == old(FenceAt(text, index, LineEnd(text, index)).Some?)
    {
      hide RelationshipView.Valid, FenceAt, LineEnd, FenceCost, AfterFence;
      var line :- cursor.FenceLine(index, fence);
      wikiLineMissing := false;
      lineStart := false;
      if line.Some? {
        fence := line.value.0;
        index := line.value.1;
      }
      return Ok(line.Some?);
    }

    /** At the top of the loop: fence lines, breaks and fenced text yield nothing.
        Otherwise the character at which links may open, which is then paid for. */
    method Open() returns (r: Outcome<Option<char>>)
      requires Valid() && resume == Top && index < |text|
      modifies this`index, this`fence, this`lineStart, this`wikiLineMissing
      modifies view`parseLeft, view.owner`parseProbes, view.owner`spaceParseProbes
      ensures view.Valid()
      ensures !r.Ok? ==> r == Exhausted(Relationships) && view.parseLeft == 0 && old(Margin()) < 0
      ensures r.Ok? ==> Valid() && Pending(text, State()) == old(Pending(text, State())) && resume == Top
      ensures r == Ok(None) ==> index > old(index) && Margin() == old(Margin())
      ensures r.Ok? && r.value.Some? ==>
                && index == old(index) < LineEnd(text, index) && !lineStart && fence.None? && r.value.value == text[index]
                && Margin() == old(Margin()) - 1
    {
      hide RelationshipView.Valid, FenceAt, Pending, LineEnd, Work, Sound, FenceCost, Lined;
      WorkAhead(text, State());
      var char0 :- cursor.At(index);
      if lineStart {
        LinedStep(text, State());
        var fenced :- OpenLine();
        if fenced {
          return Ok(None);
        }
      }
      if char0.value in BREAKS {
        BreakStep(text, State());
        BreakCost(text, State());
        lineStart := true;
        index := index + 1;
        return Ok(None);
      }
      NotAtEnd(text, index);
      if fence.Some? {
        FencedStep(text, State());
        FencedCost(text, State());
        index := index + 1;
        return Ok(None);
      }
      return Ok(char0);
    }

    /** The wikilink attempt at the current position, whose character is already paid for. */
    method WikiPart(c: char) returns (r: Outcome<Option<Spec>>)
      requires Valid() && resume == Top && !lineStart && fence.None? && index < LineEnd(text, index) && c == text[index]
      modifies this`wikiNext, this`wikiLineMissing, this`resume
      modifies view`parseLeft, view.owner`parseProbes, view.owner`spaceParseProbes
      ensures view.Valid()
      ensures !r.Ok? ==> r == Exhausted(Relationships) && view.parseLeft == 0 && old(Margin()) + 1 < 0
      ensures r.Ok? ==> && Valid() && resume == AfterWiki && Margin() == old(Margin()) + 1
                        && old(Pending(text, State())) == Emit(index, ObsidianWikilink, r.value) + Pending(text, State())
    {
      hide RelationshipView.Valid, Pending, WikiAt, First, Work, WikiCost;
      WikiPartStep(text, State());
      WikiPartCost(text, State());
      ghost var e := LineEnd(text, index);
      var spec: Option<Spec> := None;
      if index >= wikiNext && !wikiLineMissing && c == '[' {
        var second :- cursor.At(index + 1);
        if second == Some('[') {
          var found :- cursor.Wiki(index);
          spec, wikiNext, wikiLineMissing := found.spec, found.next, found.missing;
        }
      }
      resume := AfterWiki;
      return Ok(spec);
    }

    /** The code span or Markdown link attempt at the current position. */
    method MarkdownPart() returns (r: Outcome<Option<Spec>>)
      requires Valid() && resume == AfterWiki
      modifies this`markdownNext, this`resume
      modifies view`parseLeft, view.owner`parseProbes, view.owner`spaceParseProbes
      ensures view.Valid()
      ensures !r.Ok? ==> r == Exhausted(Relationships) && view.parseLeft == 0 && old(Margin()) < 0
      ensures r.Ok? ==> && Valid() && resume == AfterMarkdown && Margin() == old(Margin())
                        && old(Pending(text, State())) == Emit(index, MarkdownLink, r.value) + Pending(text, State())
    {
      hide RelationshipView.Valid, Pending, MarkdownAt, CodeNext, First, Work, MarkdownCost, CodeCost;
      ghost var g := State();
      ghost var next := SkippingStep(text, index, LineEnd(text, index), markdownNext).next;
      MarkdownCostStep(text, g, next);
      var spec: Option<Spec> := None;
      if index >= markdownNext {
        if text[index] == '`' {
          markdownNext :- cursor.CodeEnd(index);
        } else if text[index] == '[' {
          var before := None;
          if index > 0 {
            before :- cursor.At(index - 1);
          }
          if before != Some('!') {
            var found :- cursor.Markdown(index);
            spec, markdownNext := found.spec, found.next;
          }
        }
      }
      MarkdownPartStep(text, g, markdownNext);
      MarkdownCostStep(text, g, markdownNext);
      resume := AfterMarkdown;
      return Ok(spec);
    }

    /** Run to the next yield. None is the generator's end: nothing is left, or nothing more may be admitted.
        What the credit covers beyond the work ahead never changes, and it fails only if that is negative. */
    method Next() returns (r: Outcome<Option<Item>>)
      requires Valid()
      modifies this
      modifies view`parseLeft, view.owner`parseProbes, view.owner`spaceParseProbes
      ensures view.Valid()
      ensures !r.Ok? ==> r == Exhausted(Relationships) && view.parseLeft == 0 && old(Margin()) < 0
      ensures r.Ok? ==> Valid() && Margin() == old(Margin())
      ensures r.Ok? && r.value.Some? ==>
                && resume != Top
                && old(Pending(text, State())) == [r.value.value] + Pending(text, State())
      ensures r == Ok(None) && view.Admissible() > 0 ==> old(Pending(text, State())) == [] && Margin() == view.parseLeft
      ensures view.Admissible() == old(view.Admissible())
      ensures old(index) == |text| ==> r == Ok(None)
    {
      hide RelationshipView.Valid, Pending, Sound, Work;
      SoundIndex(text, State());
      if resume != Top && view.Admissible() == 0 {
        return Ok(None);
      }
      while true
        invariant Valid() && index <= |text| && (resume != Top ==> index < |text|)
        invariant Pending(text, State()) == old(Pending(text, State()))
        invariant view.owner.used == old(view.owner.used)
        invariant Margin() == old(Margin())
        invariant old(index) <= index
        decreases |text| - index, resume
      {
        if resume == Top {
          if index >= |text| {
            NothingPending(text, State());
            NothingAhead(text, State());
            return Ok(None);
          }
          if view.Admissible() == 0 {
            return Ok(None);
          }
          var item :- WikiStage();
          if resume == Top {
            continue;
          }
          if item.Some? {
            return Ok(item);
          }
        }
        if resume == AfterWiki {
          var item :- MarkdownStage();
          if item.Some? {
            return Ok(item);
          }
        }
        Advance();
      }
    }

    method Advance()
      requires Valid() && resume == AfterMarkdown && index < |text|
      modifies this`index, this`resume
      ensures Valid() && resume == Top && index == old(index) + 1 && Margin() == old(Margin())
      ensures Pending(text, State()) == old(Pending(text, State()))
    {
      hide RelationshipView.Valid, Pending, Sound, Work;
      AdvanceStep(text, State());
      AdvanceCost(text, State());
      index := index + 1;
      resume := Top;
    }

    /** The top of the loop down to the wikilink attempt; back at the top if no link may open here. */
    method WikiStage() returns (r: Outcome<Option<Item>>)
      requires Valid() && resume == Top && index < |text|
      modifies this`index, this`fence, this`lineStart, this`wikiLineMissing, this`wikiNext, this`resume
      modifies view`parseLeft, view.owner`parseProbes, view.owner`spaceParseProbes
      ensures view.Valid()
      ensures !r.Ok? ==> r == Exhausted(Relationships) && view.parseLeft == 0 && old(Margin()) < 0
      ensures r.Ok? ==> && Valid() && resume != AfterMarkdown && index <= |text| && (resume != Top ==> index < |text|)
                        && index >= old(index) && (resume == Top ==> index > old(index) && r.value.None?)
                        && Continues(old(Pending(text, State())), r.value, Pending(text, State()))
                        && Margin() == old(Margin())
    {
      hide RelationshipView.Valid, Pending, Sound, Work;
      var c :- Open();
      SoundIndex(text, State());
      if c.None? {
        return Ok(None);
      }
      var spec :- WikiPart(c.value);
      return Ok(if spec.Some? then Some(Item(index, ObsidianWikilink, spec.value)) else None);
    }

    method MarkdownStage() returns (r: Outcome<Option<Item>>)
      requires Valid() && resume == AfterWiki && index < |text|
      modifies this`markdownNext, this`resume
      modifies view`parseLeft, view.owner`parseProbes, view.owner`spaceParseProbes
      ensures view.Valid()
      ensures !r.Ok? ==> r == Exhausted(Relationships) && view.parseLeft == 0 && old(Margin()) < 0
      ensures r.Ok? ==> && Valid() && resume == AfterMarkdown
                        && Continues(old(Pending(text, State())), r.value, Pending(text, State()))
                        && Margin() == old(Margin())
    {
      hide RelationshipView.Valid, Pending, Sound, Work;
      var spec :- MarkdownPart();
      return Ok(if spec.Some? then Some(Item(index, MarkdownLink, spec.value)) else None);
    }
  }

  lemma NotAtEnd(t: string, i: nat)
    requires i < |t| && t[i] !in BREAKS
    ensures i < LineEnd(t, i)
  {
  }
}

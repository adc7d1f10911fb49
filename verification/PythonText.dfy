/** The parts of Python's `str` the text cores rely on: line boundaries, white space,
    `find`, `strip`, `splitlines` and the UTF-8 length. */
module PythonText {
  datatype Option<+T> = None | Some(value: T)

  /** The characters at which `str.splitlines` ends a line. */
  const BREAKS: set<char> :=
    {'\n', '\r', '\U{0B}', '\U{0C}', '\U{1C}', '\U{1D}', '\U{1E}', '\U{85}', '\U{2028}', '\U{2029}'}

  /** `str.isspace` of one character. */
  predicate IsSpace(c: char) {
    || '\U{09}' <= c <= '\U{0D}'
    || '\U{1C}' <= c <= '\U{20}'
    || c == '\U{85}' || c == '\U{A0}' || c == '\U{1680}'
    || '\U{2000}' <= c <= '\U{200A}'
    || c == '\U{2028}' || c == '\U{2029}' || c == '\U{202F}' || c == '\U{205F}' || c == '\U{3000}'
  }

  /** The first position of [i, e) holding a character of `stop`, or `e`. */
  function First(t: string, i: nat, e: nat, stop: set<char>): (r: nat)
    requires i <= e <= |t|
    ensures i <= r <= e
    ensures forall k :: i <= k < r ==> t[k] !in stop
    ensures r < e ==> t[r] in stop
    decreases e - i
  {
    if i == e || t[i] in stop then i else First(t, i + 1, e, stop)
  }

  lemma FirstIs(t: string, i: nat, e: nat, stop: set<char>, k: nat)
    requires i <= k <= e <= |t| && (forall j :: i <= j < k ==> t[j] !in stop) && (k < e ==> t[k] in stop)
    ensures First(t, i, e, stop) == k
  {
  }

  /** The end of the maximal run of `c` that starts at i. */
  function RunEnd(t: string, i: nat, e: nat, c: char): (r: nat)
    requires i <= e <= |t|
    ensures i <= r <= e
    ensures forall k :: i <= k < r ==> t[k] == c
    ensures r < e ==> t[r] != c
    decreases e - i
  {
    if i == e || t[i] != c then i else RunEnd(t, i + 1, e, c)
  }

  /** The end of the line that position i lies in: the next break, or the end of the text. */
  function LineEnd(t: string, i: nat): (r: nat)
    requires i <= |t|
  {
    First(t, i, |t|, BREAKS)
  }

  lemma LineEndStable(t: string, i: nat, j: nat)
    requires i <= |t| && i <= j <= LineEnd(t, i)
    ensures LineEnd(t, j) == LineEnd(t, i)
  {
  }

  predicate Occurs(t: string, k: nat, e: nat, sub: string)
    requires e <= |t|
  {
    k + |sub| <= e && t[k..k + |sub|] == sub
  }

  /** `t[:e].find(sub, i)`. */
  function Find(t: string, i: nat, e: nat, sub: string): (r: Option<nat>)
    requires i <= e <= |t| && |sub| > 0
    ensures r.Some? ==> i <= r.value && Occurs(t, r.value, e, sub)
    ensures r.Some? ==> forall k {:trigger Occurs(t, k, e, sub)} :: i <= k < r.value ==> !Occurs(t, k, e, sub)
    ensures r.None? ==> forall k {:trigger Occurs(t, k, e, sub)} :: i <= k ==> !Occurs(t, k, e, sub)
    decreases e - i
  {
    if i + |sub| > e then None
    else if Occurs(t, i, e, sub) then Some(i)
    else Find(t, i + 1, e, sub)
  }

  /** The first position at or after i that is not white space, or e. */
  function StripStart(t: string, i: nat, e: nat): (r: nat)
    requires i <= e <= |t|
    ensures i <= r <= e
    ensures forall k :: i <= k < r ==> IsSpace(t[k])
    ensures r < e ==> !IsSpace(t[r])
    decreases e - i
  {
    if i < e && IsSpace(t[i]) then StripStart(t, i + 1, e) else i
  }

  function StripEnd(t: string, i: nat, e: nat): (r: nat)
    requires i <= e <= |t|
    ensures i <= r <= e
    ensures forall k :: r <= k < e ==> IsSpace(t[k])
    ensures i < r ==> !IsSpace(t[r - 1])
    decreases e - i
  {
    if i < e && IsSpace(t[e - 1]) then StripEnd(t, i, e - 1) else e
  }

  /** `t[i:e].strip()`. */
  function Strip(t: string, i: nat, e: nat): (r: string)
    requires i <= e <= |t|
  {
    var a := StripStart(t, i, e);
    t[a..StripEnd(t, a, e)]
  }

  /** One element of `splitlines(keepends=True)`, cut into its content and its terminator. */
  datatype RawLine = RawLine(content: string, ending: string)

  /** The position after the line break at e; a carriage return takes a following line feed with it. */
  function AfterBreak(t: string, e: nat): (r: nat)
    requires e <= |t|
    ensures e <= r <= |t|
    ensures e < |t| ==> e < r
  {
    if e == |t| then e
    else if t[e] == '\r' && e + 1 < |t| && t[e + 1] == '\n' then e + 2
    else e + 1
  }

  /** `t[i:].splitlines(keepends=True)`. */
  function SplitLines(t: string, i: nat): (r: seq<RawLine>)
    requires i <= |t|
    decreases |t| - i
  {
    if i == |t| then []
    else
      var e := LineEnd(t, i);
      var next := AfterBreak(t, e);
      [RawLine(t[i..e], t[e..next])] + SplitLines(t, next)
  }

  /** The number of bytes UTF-8 uses for one code point (section 3 of RFC 3629). */
  function Utf8Width(c: char): (r: nat)
    ensures 1 <= r <= 4
  {
    if c <= '\U{7F}' then 1
    else if c <= '\U{7FF}' then 2
    else if c <= '\U{FFFF}' then 3
    else 4
  }

  /** `len(t[i:e].encode("utf-8"))`. */
  function Utf8Size(t: string, i: nat, e: nat): (r: nat)
    requires i <= e <= |t|
    ensures r >= e - i
    decreases e - i
  {
    if i == e then 0 else Utf8Size(t, i, e - 1) + Utf8Width(t[e - 1])
  }
}

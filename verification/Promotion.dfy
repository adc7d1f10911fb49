/** Appending an approved promotion to a note once: a block whose markers nothing in it can forge, and an
    append that recognises its own earlier work whatever happened to it. */
module Promotion {
  import opened PythonText

  // ----- occurrences, and `bytes.count`

  predicate At(t: string, k: nat, sub: string) { Occurs(t, k, |t|, sub) }

  /** Python's `count`: occurrences that do not overlap, from the left. */
  function Count(t: string, i: nat, sub: string): nat
    requires i <= |t| && |sub| > 0
    decreases |t| - i
  {
    match Find(t, i, |t|, sub)
    case None => 0
    case Some(k) => 1 + Count(t, k + |sub|, sub)
  }

  /** `sub` occurs at k and nowhere else. */
  ghost predicate OnlyAt(t: string, k: nat, sub: string) {
    At(t, k, sub) && forall j: nat :: At(t, j, sub) ==> j == k
  }

  ghost predicate Nowhere(t: string, sub: string) { forall j: nat :: !At(t, j, sub) }

  lemma CountNowhere(t: string, sub: string)
    requires |sub| > 0
    ensures Nowhere(t, sub) <==> Count(t, 0, sub) == 0
  {
    var f := Find(t, 0, |t|, sub);
    if f.Some? {
      assert At(t, f.value, sub);
    } else {
      forall j: nat ensures !At(t, j, sub) {
        assert !Occurs(t, j, |t|, sub);
      }
    }
  }

  lemma CountOnce(t: string, k: nat, sub: string)
    requires |sub| > 0 && OnlyAt(t, k, sub)
    ensures Count(t, 0, sub) == 1
  {
    var f := Find(t, 0, |t|, sub);
    assert Occurs(t, k, |t|, sub);
    assert At(t, f.value, sub);
    var g := Find(t, k + |sub|, |t|, sub);
    assert g.Some? ==> At(t, g.value, sub);
  }

  /** Text that ends, or goes on, with a line feed, so that no occurrence of a marker can straddle the seam. */
  predicate Seam(x: string, y: string) {
    (x != "" && x[|x| - 1] == '\n') || (y != "" && y[0] == '\n')
  }

  /** A marker: one `<`, in front, and all on one line. */
  ghost predicate Marker(m: string) {
    && m != "" && m[0] == '<'
    && forall k :: 0 < k < |m| ==> m[k] != '<' && m[k] != '\n'
  }

  lemma AtChars(t: string, k: nat, m: string)
    ensures At(t, k, m) <==> k + |m| <= |t| && forall i :: 0 <= i < |m| ==> t[k + i] == m[i]
  {
    if k + |m| <= |t| {
      var part := t[k..k + |m|];
      assert forall i :: 0 <= i < |m| ==> part[i] == t[k + i];
    }
  }

  lemma AtSeam(x: string, y: string, m: string, k: nat)
    requires Marker(m) && (Seam(x, y) || x == "" || y == "")
    ensures At(x + y, k, m) <==> (At(x, k, m) || (k >= |x| && At(y, k - |x|, m)))
  {
    var t := x + y;
    hide At;
    AtChars(t, k, m);
    AtChars(x, k, m);
    if k >= |x| {
      AtChars(y, k - |x|, m);
    }
    forall i | At(t, k, m) && k <= i < k + |m| ensures t[i] != '\n' {
      assert t[k + (i - k)] == m[i - k];
    }
    assert Seam(x, y) ==> (0 < |x| && t[|x| - 1] == '\n') || (|x| < |t| && t[|x|] == '\n');
    assert At(t, k, m) ==> k + |m| <= |x| || k >= |x|;
  }

  /** A marker can only start where there is a `<`. */
  lemma AtAngle(x: string, m: string, k: nat)
    requires Marker(m)
    ensures At(x, k, m) ==> k < |x| && x[k] == '<'
  {
    AtChars(x, k, m);
  }

  // ----- markers and the block

  const OPENING := "<!-- vaultbridge-promotion:v"
  const CLOSING := "<!-- /vaultbridge-promotion:v"

  datatype Version = V1 | V2

  function Digit(v: Version): char { if v.V1? then '1' else '2' }

  function Opening(v: Version, id: string): string { OPENING + [Digit(v)] + " id=" + id }

  function Closing(v: Version, id: string): string { CLOSING + [Digit(v)] + " id=" + id }

  /** Identifiers and digests are made of hexadecimal digits and hyphens. */
  predicate Plain(id: string) {
    forall c <- id :: '0' <= c <= '9' || 'a' <= c <= 'z' || c == '-'
  }

  lemma MarkersAreMarkers(v: Version, id: string)
    requires Plain(id)
    ensures Marker(Opening(v, id)) && Marker(Closing(v, id))
  {
    FrontAndId(OPENING + [Digit(v)] + " id=", id);
    FrontAndId(CLOSING + [Digit(v)] + " id=", id);
  }

  lemma FrontAndId(front: string, id: string)
    requires Marker(front) && Plain(id)
    ensures Marker(front + id)
  {
    var m := front + id;
    forall k | 0 < k < |m| ensures m[k] != '<' && m[k] != '\n' {
      if k >= |front| {
        assert m[k] == id[k - |front|] && m[k] in id;
      } else {
        assert m[k] == front[k];
      }
    }
  }

  /** `re.findall` and `max`: the longest run of backticks. */
  function LongestRun(s: string, i: nat): nat
    requires i <= |s|
    decreases |s| - i
  {
    if i == |s| then 0
    else if s[i] != '`' then LongestRun(s, i + 1)
    else
      var e := RunEnd(s, i, |s|, '`');
      var rest := LongestRun(s, e);
      if e - i < rest then rest else e - i
  }

  function Repeat(c: char, n: nat): (r: string)
    ensures |r| == n && forall k :: 0 <= k < n ==> r[k] == c
  {
    seq(n, _ => c)
  }

  function FenceOf(manifest: string): string {
    var longest := LongestRun(manifest, 0);
    Repeat('`', if longest + 1 < 3 then 3 else longest + 1)
  }

  /** No run of backticks from i on is longer than the longest. */
  lemma {:induction false} RunsBounded(s: string, i: nat, a: nat, b: nat)
    requires i <= a <= b <= |s| && forall k :: a <= k < b ==> s[k] == '`'
    ensures b - a <= LongestRun(s, i)
    decreases |s| - i
  {
    if a < b {
      if s[i] != '`' {
        RunsBounded(s, i + 1, a, b);
      } else {
        var e := RunEnd(s, i, |s|, '`');
        if a >= e {
          RunsBounded(s, e, a, b);
        } else {
          assert b <= e;
        }
      }
    }
  }

  /** The fence occurs nowhere in the manifest it encloses. */
  lemma FenceIsUnmatched(manifest: string)
    ensures Nowhere(manifest, FenceOf(manifest)) && |FenceOf(manifest)| >= 3
  {
    var fence := FenceOf(manifest);
    forall j: nat ensures !At(manifest, j, fence) {
      if At(manifest, j, fence) {
        AtChars(manifest, j, fence);
        RunsBounded(manifest, 0, j, j + |fence|);
      }
    }
  }

  method Fence(manifest: string) returns (fence: string)
    ensures fence == FenceOf(manifest)
  {
    var longest, i := 0, 0;
    while i < |manifest|
      invariant i <= |manifest|
      invariant var rest := LongestRun(manifest, i); LongestRun(manifest, 0) == if longest < rest then rest else longest
    {
      if manifest[i] == '`' {
        var e := RunEnd(manifest, i, |manifest|, '`');
        if e - i > longest {
          longest := e - i;
        }
        i := e;
      } else {
        i := i + 1;
      }
    }
    return Repeat('`', if longest + 1 < 3 then 3 else longest + 1);
  }

  /** `json.dumps` output with every `<` written as an escape. */
  function EscapeAngles(s: string): (r: string)
    ensures '<' !in r
    decreases |s|
  {
    if s == "" then ""
    else EscapeAngles(s[..|s| - 1]) + if s[|s| - 1] == '<' then "\\u003c" else [s[|s| - 1]]
  }

  /** Reading escapes as a whole: a backslash and what follows it belong together, and the escape of `<` is a `<`. */
  function Restore(t: string): string
    decreases |t|
  {
    if t == "" then ""
    else if t[0] != '\\' || |t| == 1 then [t[0]] + Restore(t[1..])
    else if |t| >= 6 && t[1..6] == "u003c" then "<" + Restore(t[6..])
    else t[..2] + Restore(t[2..])
  }

  /** What `json.dumps` prints: no escape is one of `<`, which is printed as it is and needs none. */
  predicate Printed(t: string)
    decreases |t|
  {
    t == "" ||
    if t[0] != '\\' then Printed(t[1..])
    else |t| >= 2 && t[1] != '<' && !(|t| >= 6 && t[1..6] == "u003c") && Printed(t[2..])
  }

  lemma {:induction false} EscapeAnglesConcat(a: string, b: string)
    ensures EscapeAngles(a + b) == EscapeAngles(a) + EscapeAngles(b)
    decreases |b|
  {
    if b == "" {
      assert a + b == a;
    } else {
      var front, last := b[..|b| - 1], b[|b| - 1];
      assert (a + b)[..|a + b| - 1] == a + front;
      EscapeAnglesConcat(a, front);
      assert EscapeAngles(a + b) == EscapeAngles(a + front) + if last == '<' then "\\u003c" else [last];
    }
  }

  lemma EscapeAnglesOne(c: char)
    ensures EscapeAngles([c]) == if c == '<' then "\\u003c" else [c]
  {
    assert [c][..0] == "";
  }

  lemma EscapeAnglesStep(c: char, rest: string)
    ensures EscapeAngles([c] + rest) == (if c == '<' then "\\u003c" else [c]) + EscapeAngles(rest)
  {
    hide EscapeAngles;
    EscapeAnglesConcat([c], rest);
    EscapeAnglesOne(c);
  }

  /** Escaping makes no plain text that was not there. */
  lemma {:induction false} NothingNew(rest: string, word: string)
    requires '<' !in word && '\\' !in word && word <= EscapeAngles(rest)
    ensures word <= rest
    decreases |word|
  {
    if word != "" {
      assert rest != "";
      assert rest == [rest[0]] + rest[1..];
      EscapeAnglesStep(rest[0], rest[1..]);
      assert word[0] == EscapeAngles(rest)[0];
      assert word[1..] <= EscapeAngles(rest)[1..] == EscapeAngles(rest[1..]);
      NothingNew(rest[1..], word[1..]);
    }
  }

  lemma NotEscaped(t: string)
    requires |t| >= 2 && !(|t| >= 6 && t[1..6] == "u003c")
    ensures !("u003c" <= t[1..])
  {
    var rest := t[1..];
    assert |t| >= 6 ==> t[1..6] == rest[..5];
  }

  lemma RestoresEscape(rest: string)
    ensures Restore("\\u003c" + rest) == "<" + Restore(rest)
  {
    var t := "\\u003c" + rest;
    assert t[1..6] == "u003c" && t[6..] == rest;
  }

  lemma RestoresPlain(c: char, rest: string)
    requires c != '\\'
    ensures Restore([c] + rest) == [c] + Restore(rest)
  {
    assert ([c] + rest)[1..] == rest;
  }

  lemma RestoresPair(c: char, escaped: string, rest: string)
    requires c != '<' && escaped == EscapeAngles(rest) && !("u003c" <= [c] + rest)
    ensures Restore(['\\', c] + escaped) == ['\\', c] + Restore(escaped)
  {
    hide EscapeAngles;
    var t := ['\\', c] + escaped;
    assert t[..2] == ['\\', c] && t[2..] == escaped;
    if |t| >= 6 && t[1..6] == "u003c" {
      EscapeAnglesStep(c, rest);
      assert EscapeAngles([c] + rest) == t[1..];
      assert t[1..][..5] == t[1..6];
      NothingNew([c] + rest, "u003c");
    }
  }

  lemma UndoneOne(c: char, rest: string)
    requires c != '\\' && Restore(EscapeAngles(rest)) == rest
    ensures Restore(EscapeAngles([c] + rest)) == [c] + rest
  {
    hide *;
    EscapeAnglesStep(c, rest);
    if c == '<' {
      RestoresEscape(EscapeAngles(rest));
    } else {
      RestoresPlain(c, EscapeAngles(rest));
    }
  }

  lemma UndonePair(c: char, rest: string)
    requires c != '<' && !("u003c" <= [c] + rest) && Restore(EscapeAngles(rest)) == rest
    ensures Restore(EscapeAngles(['\\'] + ([c] + rest))) == ['\\'] + ([c] + rest)
  {
    hide *;
    EscapeAnglesStep('\\', [c] + rest);
    EscapeAnglesStep(c, rest);
    var escaped := EscapeAngles(rest);
    RestoresPair(c, escaped, rest);
    assert ['\\'] + ([c] + escaped) == ['\\', c] + escaped;
    assert ['\\', c] + rest == ['\\'] + ([c] + rest);
  }

  /** Escaping `<` in printed JSON is undone by reading the escapes: nothing is lost, and no two manifests become one. */
  lemma {:induction false} EscapeUndone(manifest: string)
    requires Printed(manifest)
    ensures Restore(EscapeAngles(manifest)) == manifest
    decreases |manifest|
  {
    hide EscapeAngles, Restore;
    if manifest == "" {
      NothingToUndo();
    } else {
      var c, rest := manifest[0], manifest[1..];
      assert manifest == [c] + rest;
      if c != '\\' {
        EscapeUndone(rest);
        UndoneOne(c, rest);
      } else {
        EscapeUndone(manifest[2..]);
        NotEscaped(manifest);
        assert rest == [rest[0]] + manifest[2..];
        UndonePair(rest[0], manifest[2..]);
      }
    }
  }

  lemma NothingToUndo()
    ensures Restore(EscapeAngles("")) == ""
  {
  }

  function Head(v: Version, id: string, digest: string, manifest: string): string {
    Opening(v, id) + " sha256=" + digest + " -->\n" + FenceOf(manifest) + "json\n" + manifest + "\n" + FenceOf(manifest) + "\n\n"
  }

  function Tail(v: Version, id: string): string { "\n" + Closing(v, id) + " -->\n" }

  function Block(v: Version, id: string, digest: string, manifest: string, content: string): string {
    "\n\n" + (Head(v, id, digest, manifest) + (content + Tail(v, id)))
  }

  // ----- what the block was made of can be read from it

  /** What a block says. */
  datatype Contents = Contents(digest: string, manifest: string, content: string)

  function Behind(t: string, front: string): Option<string> {
    if front <= t then Some(t[|front|..]) else None
  }

  /** Up to the next space, which the end of the comment has to follow. */
  function ReadDigest(t: string): Option<(string, string)> {
    var k := First(t, 0, |t|, {' '});
    match Behind(t[k..], " -->\n") case None => None case Some(rest) => Some((t[..k], rest))
  }

  /** A fenced block of JSON: it ends where its own fence first stands behind a line feed. */
  function ReadManifest(t: string): Option<(string, string)> {
    var fence := t[..RunEnd(t, 0, |t|, '`')];
    match Behind(t, fence + "json\n")
    case None => None
    case Some(body) =>
      match Find(body, 0, |body|, "\n" + fence)
      case None => None
      case Some(end) =>
        match Behind(body[end..], "\n" + fence + "\n\n") case None => None case Some(rest) => Some((body[..end], rest))
  }

  /** What stands before the line of the closing marker, which ends the block. */
  function ReadContent(t: string, closing: string): Option<string> {
    var last := "\n" + closing + " -->\n";
    if |last| <= |t| && t[|t| - |last|..] == last then Some(t[..|t| - |last|]) else None
  }

  function ReadBlock(b: string, opening: string, closing: string): Option<Contents> {
    match Behind(b, "\n\n" + opening + " sha256=")
    case None => None
    case Some(rest) =>
      match ReadDigest(rest)
      case None => None
      case Some((digest, fenced)) =>
        match ReadManifest(fenced)
        case None => None
        case Some((manifest, tail)) =>
          match ReadContent(tail, closing) case None => None case Some(content) => Some(Contents(digest, manifest, content))
  }

  lemma BehindIs(front: string, rest: string)
    ensures Behind(front + rest, front) == Some(rest)
  {
  }

  lemma DigestReads(digest: string, rest: string)
    requires Plain(digest)
    ensures ReadDigest(digest + (" -->\n" + rest)) == Some((digest, rest))
  {
    var end := " -->\n" + rest;
    var t := digest + end;
    assert forall k :: 0 <= k < |digest| ==> t[k] == digest[k] && digest[k] in digest;
    assert t[|digest|] == ' ';
    FirstIs(t, 0, |t|, {' '}, |digest|);
    assert t[|digest|..] == end && t[..|digest|] == digest;
    hide Behind;
    BehindIs(" -->\n", rest);
  }

  lemma EndsBefore(t: string, j: nat, sub: string, feed: nat)
    requires At(t, j, sub) && '\n' !in sub && j <= feed < |t| && t[feed] == '\n'
    ensures j + |sub| <= feed
  {
    AtChars(t, j, sub);
    forall i | j <= i < j + |sub| ensures t[i] != '\n' {
      assert t[j + (i - j)] == sub[i - j];
    }
  }

  lemma AtWithin(middle: string, rest: string, j: nat, sub: string)
    requires j + |sub| <= |middle| && At(middle + rest, j, sub)
    ensures At(middle, j, sub)
  {
    assert middle[j..j + |sub|] == (middle + rest)[j..j + |sub|];
  }

  lemma AtTail(t: string, j: nat, c: char, sub: string)
    requires At(t, j, [c] + sub)
    ensures At(t, j + 1, sub)
  {
    var w := [c] + sub;
    assert t[j + 1..j + 1 + |sub|] == t[j..j + |w|][1..] == w[1..] == sub;
  }

  /** Behind a line feed, the fence stands first where the manifest ends. */
  lemma FenceCloses(manifest: string, rest: string)
    ensures var fence := FenceOf(manifest);
            var t := manifest + ("\n" + fence + rest);
            Find(t, 0, |t|, "\n" + fence) == Some(|manifest|)
  {
    var fence := FenceOf(manifest);
    var tail := "\n" + fence + rest;
    var t, k, sub := manifest + tail, |manifest|, "\n" + fence;
    FenceIsUnmatched(manifest);
    assert '\n' !in fence;
    assert t[k] == '\n' && t[k..k + |sub|] == sub;
    assert Occurs(t, k, |t|, sub);
    hide At, FenceOf, Occurs;
    assert sub == ['\n'] + fence;
    forall j: nat | j < k ensures !Occurs(t, j, |t|, sub) {
      AtIsOccurs(t, j, sub);
      if At(t, j, sub) {
        AtTail(t, j, '\n', fence);
        EndsBefore(t, j + 1, fence, k);
        AtWithin(manifest, tail, j + 1, fence);
      }
    }
    FindIs(t, k, sub);
  }

  lemma FindIs(t: string, k: nat, sub: string)
    requires k <= |t| && |sub| > 0 && Occurs(t, k, |t|, sub) && forall j: nat :: j < k ==> !Occurs(t, j, |t|, sub)
    ensures Find(t, 0, |t|, sub) == Some(k)
  {
    hide *;
  }

  lemma AtIsOccurs(t: string, k: nat, sub: string)
    ensures At(t, k, sub) <==> Occurs(t, k, |t|, sub)
  {
    hide Occurs;
  }

  lemma FenceRuns(manifest: string, rest: string)
    ensures var t := FenceOf(manifest) + ("json\n" + rest); RunEnd(t, 0, |t|, '`') == |FenceOf(manifest)|
  {
    var fence := FenceOf(manifest);
    var t, e := fence + ("json\n" + rest), |fence|;
    assert t[e] == 'j';
    assert forall k :: 0 <= k < e ==> t[k] == fence[k] == '`';
    var r := RunEnd(t, 0, |t|, '`');
    assert r == e;
  }

  lemma ManifestReads(manifest: string, rest: string)
    ensures ReadManifest(FenceOf(manifest) + ("json\n" + (manifest + ("\n" + FenceOf(manifest) + ("\n\n" + rest))))) == Some((manifest, rest))
  {
    var fence := FenceOf(manifest);
    var tail := "\n" + fence + ("\n\n" + rest);
    var body := manifest + tail;
    var t := fence + ("json\n" + body);
    FenceRuns(manifest, body);
    FenceCloses(manifest, "\n\n" + rest);
    hide FenceOf, Behind;
    assert t[..|fence|] == fence && t == (fence + "json\n") + body;
    BehindIs(fence + "json\n", body);
    assert body[|manifest|..] == tail == ("\n" + fence + "\n\n") + rest && body[..|manifest|] == manifest;
    BehindIs("\n" + fence + "\n\n", rest);
  }

  lemma ContentReads(content: string, closing: string)
    ensures ReadContent(content + ("\n" + closing + " -->\n"), closing) == Some(content)
  {
  }

  lemma BlockLayout(v: Version, id: string, digest: string, manifest: string, content: string)
    ensures Block(v, id, digest, manifest, content)
         == ("\n\n" + Opening(v, id) + " sha256=") + (digest + (" -->\n" + (FenceOf(manifest) + ("json\n" + (manifest
            + ("\n" + FenceOf(manifest) + ("\n\n" + (content + ("\n" + Closing(v, id) + " -->\n")))))))))
  {
    hide FenceOf, Opening, Closing;
  }

  /** Digest, manifest and content are read back from the block, whatever the manifest and the content hold. */
  lemma BlockReadsBack(v: Version, id: string, digest: string, manifest: string, content: string)
    requires Plain(digest)
    ensures ReadBlock(Block(v, id, digest, manifest, content), Opening(v, id), Closing(v, id))
         == Some(Contents(digest, manifest, content))
  {
    hide Behind, ReadDigest, ReadManifest, ReadContent, FenceOf, Opening, Closing, Block, Plain;
    var last := "\n" + Closing(v, id) + " -->\n";
    var fenced := FenceOf(manifest) + ("json\n" + (manifest + ("\n" + FenceOf(manifest) + ("\n\n" + (content + last)))));
    BlockLayout(v, id, digest, manifest, content);
    BehindIs("\n\n" + Opening(v, id) + " sha256=", digest + (" -->\n" + fenced));
    DigestReads(digest, fenced);
    ManifestReads(manifest, content + last);
    ContentReads(content, Closing(v, id));
  }

  // ----- the block's markers cannot be forged

  function Markers(id: string): set<string> { {Opening(V1, id), Closing(V1, id), Opening(V2, id), Closing(V2, id)} }

  /** What `decide` checks of the content, and how the digest and manifest are made. */
  ghost predicate Approved(id: string, digest: string, manifest: string, content: string) {
    && Plain(id) && Plain(digest) && '<' !in manifest
    && forall m <- Markers(id) :: Nowhere(content, m)
  }

  lemma HeadHasOneAngle(v: Version, id: string, digest: string, manifest: string)
    requires Plain(id) && Plain(digest) && '<' !in manifest
    ensures var h := Head(v, id, digest, manifest);
            && h != "" && h[|h| - 1] == '\n' && forall k :: 0 < k < |h| ==> h[k] != '<'
    ensures At(Head(v, id, digest, manifest), 0, Opening(v, id))
  {
    var fence := FenceOf(manifest);
    var o := Opening(v, id);
    MarkersAreMarkers(v, id);
    var rest := " sha256=" + digest + " -->\n" + fence + "json\n" + manifest + "\n" + fence + "\n\n";
    var h := Head(v, id, digest, manifest);
    assert h == o + rest;
    assert '<' !in " sha256=" && '<' !in digest && '<' !in " -->\n" && '<' !in fence && '<' !in "json\n" && '<' !in "\n\n";
    assert '<' !in rest;
    assert forall k :: 0 <= k < |rest| ==> h[|o| + k] == rest[k];
    forall k | 0 < k < |h| ensures h[k] != '<' {
      if k >= |o| {
        assert h[k] == rest[k - |o|];
      }
    }
    assert h[0..|o|] == o;
  }

  lemma TailHasOneAngle(v: Version, id: string)
    requires Plain(id)
    ensures var z := Tail(v, id);
            && z != "" && z[0] == '\n' && z[|z| - 1] == '\n' && forall k :: 0 <= k < |z| && k != 1 ==> z[k] != '<'
    ensures At(Tail(v, id), 1, Closing(v, id))
  {
    var c, z := Closing(v, id), Tail(v, id);
    MarkersAreMarkers(v, id);
    assert z == "\n" + c + " -->\n";
    assert forall k :: 0 <= k < |c| ==> z[1 + k] == c[k];
    assert z[1..1 + |c|] == c;
    forall k | 0 <= k < |z| && k != 1 ensures z[k] != '<' {
      if 1 < k < 1 + |c| {
        assert z[k] == c[k - 1];
      }
    }
  }

  /** At one place at most one of the four markers of an identifier occurs. */
  lemma MarkersDiffer(t: string, k: nat, id: string, a: string, b: string)
    requires a in Markers(id) && b in Markers(id) && At(t, k, a) && At(t, k, b)
    ensures a == b
  {
    AtChars(t, k, a);
    AtChars(t, k, b);
    assert a[5] == t[k + 5] == b[5];
    assert a[|OPENING|] == t[k + |OPENING|] == b[|OPENING|];
    assert a[|CLOSING|] == t[k + |CLOSING|] == b[|CLOSING|];
  }

  lemma InHead(v: Version, id: string, digest: string, manifest: string, m: string, k: nat)
    requires Plain(id) && Plain(digest) && '<' !in manifest && m in Markers(id)
    ensures At(Head(v, id, digest, manifest), k, m) <==> k == 0 && m == Opening(v, id)
  {
    var h := Head(v, id, digest, manifest);
    MarkersAreMarkers(V1, id);
    MarkersAreMarkers(V2, id);
    HeadHasOneAngle(v, id, digest, manifest);
    hide Head, Opening, Closing, At;
    AtAngle(h, m, k);
    if At(h, 0, m) {
      MarkersDiffer(h, 0, id, m, Opening(v, id));
    }
  }

  lemma InTail(v: Version, id: string, m: string, k: nat)
    requires Plain(id) && m in Markers(id)
    ensures At(Tail(v, id), k, m) <==> k == 1 && m == Closing(v, id)
  {
    var z := Tail(v, id);
    MarkersAreMarkers(V1, id);
    MarkersAreMarkers(V2, id);
    TailHasOneAngle(v, id);
    hide Tail, Opening, Closing, At;
    AtAngle(z, m, k);
    if At(z, 1, m) {
      MarkersDiffer(z, 1, id, m, Closing(v, id));
    }
  }

  lemma InRest(v: Version, id: string, content: string, m: string, k: nat)
    requires Plain(id) && m in Markers(id) && Nowhere(content, m)
    ensures At(content + Tail(v, id), k, m) <==> k == |content| + 1 && m == Closing(v, id)
  {
    var z := Tail(v, id);
    MarkersAreMarkers(V1, id);
    MarkersAreMarkers(V2, id);
    TailHasOneAngle(v, id);
    hide Tail, At, Opening, Closing;
    AtSeam(content, z, m, k);
    if k >= |content| {
      InTail(v, id, m, k - |content|);
    }
  }

  lemma InBody(v: Version, id: string, digest: string, manifest: string, content: string, m: string, k: nat)
    requires Approved(id, digest, manifest, content) && m in Markers(id)
    ensures At(Head(v, id, digest, manifest) + (content + Tail(v, id)), k, m) <==>
              || (k == 0 && m == Opening(v, id))
              || (k == |Head(v, id, digest, manifest)| + |content| + 1 && m == Closing(v, id))
  {
    var h, rest := Head(v, id, digest, manifest), content + Tail(v, id);
    MarkersAreMarkers(V1, id);
    MarkersAreMarkers(V2, id);
    HeadHasOneAngle(v, id, digest, manifest);
    hide Head, Tail, At, Opening, Closing, Marker, LongestRun;
    AtSeam(h, rest, m, k);
    InHead(v, id, digest, manifest, m, k);
    if k >= |h| {
      InRest(v, id, content, m, k - |h|);
    }
  }

  /** In the block a marker of the identifier occurs only as the block's own: the opening at position 2,
      the closing on the last line, the other version's nowhere. */
  lemma BlockMarkers(v: Version, id: string, digest: string, manifest: string, content: string, m: string, k: nat)
    requires Approved(id, digest, manifest, content) && m in Markers(id)
    ensures At(Block(v, id, digest, manifest, content), k, m) <==>
              (k == 2 && m == Opening(v, id)) || (k == ClosingAt(v, id, digest, manifest, content) && m == Closing(v, id))
  {
    MarkersAreMarkers(V1, id);
    MarkersAreMarkers(V2, id);
    hide Head, Tail, At, Opening, Closing, Marker, LongestRun;
    AtSeam("\n\n", Head(v, id, digest, manifest) + (content + Tail(v, id)), m, k);
    AtAngle("\n\n", m, k);
    if k >= 2 {
      InBody(v, id, digest, manifest, content, m, k - 2);
    }
  }

  /** Where the closing marker stands: on the last line. */
  function ClosingAt(v: Version, id: string, digest: string, manifest: string, content: string): nat {
    3 + |Head(v, id, digest, manifest)| + |content|
  }

  function OtherVersion(v: Version): Version { if v.V1? then V2 else V1 }

  /** Whatever the approved content and the metadata are: the block holds its opening marker once, its closing
      marker once, and no marker of the other version. */
  lemma MarkersAreUnforgeable(v: Version, id: string, digest: string, manifest: string, content: string)
    requires Approved(id, digest, manifest, content)
    ensures var b := Block(v, id, digest, manifest, content);
            && OnlyAt(b, 2, Opening(v, id)) && Count(b, 0, Opening(v, id)) == 1
            && OnlyAt(b, ClosingAt(v, id, digest, manifest, content), Closing(v, id)) && Count(b, 0, Closing(v, id)) == 1
            && Nowhere(b, Opening(OtherVersion(v), id)) && Nowhere(b, Closing(OtherVersion(v), id))
  {
    var b := Block(v, id, digest, manifest, content);
    forall m, k: nat | m in Markers(id)
      ensures At(b, k, m) <==>
                (k == 2 && m == Opening(v, id)) || (k == ClosingAt(v, id, digest, manifest, content) && m == Closing(v, id))
    {
      BlockMarkers(v, id, digest, manifest, content, m, k);
    }
    MarkersDistinct(v, id);
    hide Block, At, Opening, Closing, Head;
    CountOnce(b, 2, Opening(v, id));
    CountOnce(b, ClosingAt(v, id, digest, manifest, content), Closing(v, id));
  }

  lemma MarkersDistinct(v: Version, id: string)
    ensures Opening(v, id) != Closing(v, id) && Opening(OtherVersion(v), id) !in {Opening(v, id), Closing(v, id)}
    ensures Closing(OtherVersion(v), id) !in {Opening(v, id), Closing(v, id)}
    ensures Opening(v, id) != "" && Closing(v, id) != ""
  {
    var w := OtherVersion(v);
    assert Opening(v, id)[5] != Closing(v, id)[5] && Opening(w, id)[5] != Closing(v, id)[5] && Opening(v, id)[5] != Closing(w, id)[5];
    assert Opening(v, id)[|OPENING|] != Opening(w, id)[|OPENING|];
    assert Closing(v, id)[|CLOSING|] != Closing(w, id)[|CLOSING|];
  }

  // ----- appending once

  predicate IsHex(c: char) { '0' <= c <= '9' || 'a' <= c <= 'f' }

  /** A version 4 identifier in lower case (section 5.4 of RFC 9562). */
  predicate IsId(id: string) {
    && |id| == 36 && id[8] == id[13] == id[18] == id[23] == '-' && id[14] == '4' && id[19] in "89ab"
    && forall k :: 0 <= k < 36 && k !in {8, 13, 18, 23} ==> IsHex(id[k])
  }

  const CONTENT_BYTES := 65_536

  /** The number of bytes a text is written as. */
  function Size(text: string): nat { Utf8Size(text, 0, |text|) }

  predicate Fits(text: string, maximum: nat) { Size(text) <= maximum }

  /** The checks `decide` makes of the approved content. */
  ghost predicate Acceptable(id: string, content: string) {
    && Strip(content, 0, |content|) != "" && Utf8Size(content, 0, |content|) <= CONTENT_BYTES
    && (forall c <- content :: c !in {'\r', '\U{85}', '\U{2028}', '\U{2029}'})
    && forall m <- Markers(id) :: Nowhere(content, m)
  }

  /** Everything the block is made of. */
  datatype Decision = Decision(version: Version, id: string, digest: string, manifest: string, content: string) {
    ghost predicate Valid() { Approved(id, digest, manifest, content) }

    function Text(): string { Block(version, id, digest, manifest, content) }

    function Opens(): string { Opening(version, id) }

    function Closes(): string { Closing(version, id) }

    /** The note holds this block, once, and its markers nowhere else. */
    predicate Proved(t: string) {
      Opens() != "" && Closes() != "" && Text() != ""
      && Count(t, 0, Opens()) == 1 && Count(t, 0, Closes()) == 1 && Count(t, 0, Text()) == 1
    }

    ghost predicate Foreign(t: string) {
      !Nowhere(t, Opening(OtherVersion(version), id)) || !Nowhere(t, Closing(OtherVersion(version), id))
    }

    /** The opening marker occurs at most once. */
    ghost predicate AtMostOnce(t: string) {
      forall j: nat, k: nat :: At(t, j, Opens()) && At(t, k, Opens()) ==> j == k
    }
  }

  /** The append branch of `decide`, after the request's other fields were checked: `json` is the manifest as
      `json.dumps` prints it, `digest` the hexadecimal decision digest. */
  method Decide(v: Version, id: string, digest: string, json: string, content: string, maximum: nat)
    returns (r: Option<Decision>)
    requires Plain(digest)
    ensures r.Some? ==> r.value == Decision(v, id, digest, EscapeAngles(json), content) && r.value.Valid()
    ensures r.Some? <==> IsId(id) && Acceptable(id, content) && Fits(Block(v, id, digest, EscapeAngles(json), content), maximum)
    ensures r.Some? ==>
              && |id| == 36 && (forall k :: 0 <= k < 36 ==> '0' <= id[k] <= '9' || 'a' <= id[k] <= 'f' || (k in {8, 13, 18, 23} && id[k] == '-'))
              && Strip(content, 0, |content|) != "" && Utf8Size(content, 0, |content|) <= 65_536
              && '\r' !in content && '\U{85}' !in content && '\U{2028}' !in content && '\U{2029}' !in content
              && (forall v: Version :: Nowhere(content, Opening(v, id)) && Nowhere(content, Closing(v, id)))
              && Utf8Size(r.value.Text(), 0, |r.value.Text()|) <= maximum
  {
    hide Block, Strip, Utf8Size;
    if !IsId(id) || Strip(content, 0, |content|) == "" || Utf8Size(content, 0, |content|) > CONTENT_BYTES {
      return None;
    }
    if exists c <- content :: c in {'\r', '\U{85}', '\U{2028}', '\U{2029}'} {
      return None;
    }
    MarkersAreMarkersOf(id);
    forall m <- Markers(id) ensures Nowhere(content, m) <==> Count(content, 0, m) == 0 {
      CountNowhere(content, m);
    }
    if exists m <- Markers(id) :: Count(content, 0, m) > 0 {
      return None;
    }
    var d := Decision(v, id, digest, EscapeAngles(json), content);
    return if Fits(d.Text(), maximum) then Some(d) else None;
  }

  lemma MarkersAreMarkersOf(id: string)
    requires IsId(id)
    ensures Plain(id) && forall m <- Markers(id) :: m != ""
  {
    assert forall k :: 0 <= k < |id| ==> IsHex(id[k]) || id[k] == '-';
  }

  lemma BlockOpens(d: Decision, t: string, k: nat)
    requires d.Valid() && At(t, k, d.Text())
    ensures At(t, k + 2, d.Opens())
  {
    BlockMarkers(d.version, d.id, d.digest, d.manifest, d.content, d.Opens(), 2);
    var b := d.Text();
    assert At(b, 2, d.Opens());
    hide Block, Opening;
    AtChars(b, 2, d.Opens());
    AtChars(t, k, b);
    AtChars(t, k + 2, d.Opens());
    forall i | 0 <= i < |d.Opens()| ensures t[k + 2 + i] == d.Opens()[i] {
      assert t[k + (2 + i)] == b[2 + i];
    }
  }

  /** Where a marker occurs once the block, or the first n characters of it, is appended. */
  lemma AppendedMarkers(d: Decision, existing: string, n: nat, m: string, k: nat)
    requires d.Valid() && m in Markers(d.id) && n <= |d.Text()|
    ensures At(existing + d.Text()[..n], k, m) ==> At(existing, k, m) || (k >= |existing| && At(d.Text(), k - |existing|, m))
    ensures n == |d.Text()| ==>
              (At(existing + d.Text(), k, m) <==> At(existing, k, m) || (k >= |existing| && At(d.Text(), k - |existing|, m)))
  {
    var b := d.Text();
    MarkersAreMarkers(V1, d.id);
    MarkersAreMarkers(V2, d.id);
    assert b[0] == '\n';
    assert b[..|b|] == b;
    hide Block, Opening, Closing;
    AtSeam(existing, b[..n], m, k);
    if k >= |existing| {
      AtChars(b[..n], k - |existing|, m);
      AtChars(b, k - |existing|, m);
    }
  }

  /** Appended to a note without the marker, the block's occurrences are the note's. */
  lemma OnlyAppended(d: Decision, existing: string, m: string, at: nat)
    requires d.Valid() && m in Markers(d.id) && Nowhere(existing, m)
    ensures OnlyAt(d.Text(), at, m) ==> OnlyAt(existing + d.Text(), |existing| + at, m)
    ensures Nowhere(d.Text(), m) ==> Nowhere(existing + d.Text(), m)
  {
    hide Block, Opening, Closing, At;
    forall k: nat ensures At(existing + d.Text(), k, m) <==> k >= |existing| && At(d.Text(), k - |existing|, m) {
      AppendedMarkers(d, existing, |d.Text()|, m, k);
    }
  }

  lemma BlockOnlyAppended(d: Decision, existing: string)
    requires d.Valid() && OnlyAt(existing + d.Text(), |existing| + 2, d.Opens())
    ensures OnlyAt(existing + d.Text(), |existing|, d.Text())
  {
    var t := existing + d.Text();
    assert t[|existing|..|existing| + |d.Text()|] == d.Text();
    assert At(t, |existing|, d.Text());
    forall k: nat | At(t, k, d.Text()) ensures k == |existing| {
      BlockOpens(d, t, k);
    }
  }

  lemma NoneFrom(t: string, i: nat, sub: string)
    requires i <= |t| && |sub| > 0 && Count(t, i, sub) == 0
    ensures forall j: nat :: i <= j ==> !At(t, j, sub)
  {
    forall j: nat | i <= j ensures !At(t, j, sub) {
      assert !Occurs(t, j, |t|, sub);
    }
  }

  lemma NoOverlap(t: string, k: nat, j: nat, m: string)
    requires Marker(m) && At(t, k, m) && At(t, j, m)
    ensures !(k < j < k + |m|)
  {
    AtChars(t, k, m);
    AtChars(t, j, m);
    assert t[j + 0] == '<';
    forall n | k < n < k + |m| ensures t[n] != '<' {
      assert t[k + (n - k)] == m[n - k];
    }
  }

  /** No two occurrences of a marker overlap, so a count of one means one occurrence. */
  lemma CountedOnce(t: string, m: string)
    requires Marker(m) && Count(t, 0, m) == 1
    ensures exists k: nat :: OnlyAt(t, k, m)
  {
    var k := Find(t, 0, |t|, m).value;
    assert At(t, k, m);
    NoneFrom(t, k + |m|, m);
    forall j: nat | At(t, j, m) ensures j == k {
      assert Occurs(t, j, |t|, m);
      NoOverlap(t, k, j, m);
    }
    assert OnlyAt(t, k, m);
  }

  lemma CountsShow(d: Decision, t: string)
    requires d.Valid() && Count(t, 0, d.Opens()) == 1 && Count(t, 0, d.Closes()) == 1 && d.Text() != "" && Count(t, 0, d.Text()) == 1
    requires d.Opens() != "" && d.Closes() != ""
    ensures exists k: nat :: At(t, k, d.Text()) && OnlyAt(t, k + 2, d.Opens())
                             && OnlyAt(t, k + ClosingAt(d.version, d.id, d.digest, d.manifest, d.content), d.Closes())
  {
    ValidIsPlain(d);
    hide *;
    MarkersAreMarkers(d.version, d.id);
    FoundOnce(t, d.Text());
    var k: nat :| At(t, k, d.Text());
    BlockHolds(d, t, k);
    OpensOnce(d, t);
    OnlyThere(t, d.Opens(), k + 2);
    OnlyThere(t, d.Closes(), k + ClosingAt(d.version, d.id, d.digest, d.manifest, d.content));
  }

  lemma ValidIsPlain(d: Decision)
    requires d.Valid()
    ensures Plain(d.id)
  {
  }

  lemma OpensOnce(d: Decision, t: string)
    requires Plain(d.id) && d.Opens() != "" && d.Closes() != "" && Count(t, 0, d.Opens()) == 1 && Count(t, 0, d.Closes()) == 1
    ensures (exists k: nat :: OnlyAt(t, k, d.Opens())) && exists k: nat :: OnlyAt(t, k, d.Closes())
  {
    MarkersAreMarkers(d.version, d.id);
    hide Opening, Closing, OnlyAt, Marker;
    CountedOnce(t, d.Opens());
    CountedOnce(t, d.Closes());
  }

  lemma ShowsCounts(d: Decision, t: string, k: nat)
    requires d.Valid() && At(t, k, d.Text()) && OnlyAt(t, k + 2, d.Opens())
    requires OnlyAt(t, k + ClosingAt(d.version, d.id, d.digest, d.manifest, d.content), d.Closes())
    ensures d.Opens() != "" && d.Closes() != "" && d.Text() != ""
    ensures Count(t, 0, d.Opens()) == 1 && Count(t, 0, d.Closes()) == 1 && Count(t, 0, d.Text()) == 1
  {
    hide *;
    DecisionMarkers(d);
    BlockOnlyOnce(d, t, k);
    CountOnce(t, k, d.Text());
    CountOnce(t, k + 2, d.Opens());
    CountOnce(t, k + ClosingAt(d.version, d.id, d.digest, d.manifest, d.content), d.Closes());
  }

  /** The proof by counting means what it is for: somewhere the note holds the block, whole, and neither of its markers
      anywhere else. */
  lemma ProvedExactly(d: Decision, t: string)
    requires d.Valid()
    ensures d.Proved(t)
        <==> exists k: nat :: At(t, k, d.Text()) && OnlyAt(t, k + 2, d.Opens())
                              && OnlyAt(t, k + ClosingAt(d.version, d.id, d.digest, d.manifest, d.content), d.Closes())
  {
    hide Decision.Text, Decision.Opens, Decision.Closes, Decision.Valid, ClosingAt, Count, At, OnlyAt;
    if d.Proved(t) {
      CountsShow(d, t);
    } else if k: nat :| At(t, k, d.Text()) && OnlyAt(t, k + 2, d.Opens())
                        && OnlyAt(t, k + ClosingAt(d.version, d.id, d.digest, d.manifest, d.content), d.Closes()) {
      ShowsCounts(d, t, k);
    }
  }

  lemma FoundOnce(t: string, sub: string)
    requires |sub| > 0 && Count(t, 0, sub) == 1
    ensures exists k: nat :: At(t, k, sub)
  {
    assert At(t, Find(t, 0, |t|, sub).value, sub);
  }

  lemma OnlyThere(t: string, m: string, k: nat)
    requires At(t, k, m) && exists j: nat :: OnlyAt(t, j, m)
    ensures OnlyAt(t, k, m)
  {
    hide At;
  }

  /** Wherever the block stands, its markers stand in it. */
  lemma BlockHolds(d: Decision, t: string, k: nat)
    requires d.Valid() && At(t, k, d.Text())
    ensures At(t, k + 2, d.Opens()) && At(t, k + ClosingAt(d.version, d.id, d.digest, d.manifest, d.content), d.Closes())
  {
    var closing := ClosingAt(d.version, d.id, d.digest, d.manifest, d.content);
    BlockOpens(d, t, k);
    BlockMarkers(d.version, d.id, d.digest, d.manifest, d.content, d.Closes(), closing);
    hide Block, Opening, Closing, ClosingAt, At, Approved;
    AtInside(t, k, d.Text(), closing, d.Closes());
  }

  lemma AtInside(t: string, k: nat, b: string, n: nat, m: string)
    requires At(t, k, b) && At(b, n, m)
    ensures At(t, k + n, m)
  {
    AtChars(t, k, b);
    AtChars(b, n, m);
    forall i | 0 <= i < |m| ensures t[k + n + i] == m[i] {
      assert b[n + i] == m[i] && t[k + (n + i)] == b[n + i];
    }
    AtChars(t, k + n, m);
  }

  lemma BlockOnlyOnce(d: Decision, t: string, k: nat)
    requires d.Valid() && At(t, k, d.Text()) && OnlyAt(t, k + 2, d.Opens())
    ensures OnlyAt(t, k, d.Text())
  {
    hide Block, Opening, Closing, At, Approved;
    forall j: nat | At(t, j, d.Text()) ensures j == k {
      BlockOpens(d, t, j);
    }
  }

  /** A note without any of the markers, with the block appended, is proved to hold it. */
  lemma AppendProves(d: Decision, existing: string)
    requires d.Valid() && !d.Foreign(existing) && Nowhere(existing, d.Opens()) && Nowhere(existing, d.Closes())
    ensures d.Proved(existing + d.Text()) && !d.Foreign(existing + d.Text())
  {
    var t := existing + d.Text();
    var closing := ClosingAt(d.version, d.id, d.digest, d.manifest, d.content);
    MarkersAreUnforgeable(d.version, d.id, d.digest, d.manifest, d.content);
    DecisionMarkers(d);
    hide Block, Opening, Closing, ClosingAt, OnlyAt, Count, Approved;
    OnlyAppended(d, existing, d.Opens(), 2);
    OnlyAppended(d, existing, d.Closes(), closing);
    OnlyAppended(d, existing, Opening(OtherVersion(d.version), d.id), 0);
    OnlyAppended(d, existing, Closing(OtherVersion(d.version), d.id), 0);
    BlockOnlyAppended(d, existing);
    CountOnce(t, |existing| + 2, d.Opens());
    CountOnce(t, |existing| + closing, d.Closes());
    CountOnce(t, |existing|, d.Text());
  }

  /** However much of the block arrives, the opening marker occurs at most once and no foreign one appears. */
  lemma TornAppend(d: Decision, existing: string, n: nat)
    requires d.Valid() && n <= |d.Text()|
    requires !d.Foreign(existing) && Nowhere(existing, d.Opens()) && Nowhere(existing, d.Closes())
    ensures d.AtMostOnce(existing + d.Text()[..n]) && !d.Foreign(existing + d.Text()[..n])
  {
    var t := existing + d.Text()[..n];
    MarkersDistinct(d.version, d.id);
    hide Block, Opening, Closing, At, Approved;
    forall m, k: nat | m in Markers(d.id) && m != d.Closes() && At(t, k, m) ensures m == d.Opens() && k == |existing| + 2 {
      AppendedMarkers(d, existing, n, m, k);
      assert !At(existing, k, m);
      BlockMarkers(d.version, d.id, d.digest, d.manifest, d.content, m, k - |existing|);
    }
  }

  datatype Category =
    Appended | AlreadyApplied | Conflict | SourceChanged | DestinationChanged | SizeLimit | WriteUnavailable | CommitUnknown

  /** What the file system does with one append: the open fails, or some prefix of the block arrives and the
      call returns or raises; `readable` is whether the note can be read again afterwards. */
  datatype Fate = OpenFails | Arrives(n: nat, raised: bool, readable: bool)

  class Note {
    var text: string
    const maximum: nat

    constructor (text: string, maximum: nat)
      ensures this.text == text && this.maximum == maximum
    {
      this.text, this.maximum := text, maximum;
    }

    /** `append_promotion_once`, under the writer lock. `preimage` is the text whose hash was reviewed. */
    method AppendOnce(d: Decision, preimage: string, sourceOk: bool, fate: Fate) returns (r: Category)
      requires d.Valid() && (fate.Arrives? ==> fate.n <= |d.Text()|)
      modifies this
      ensures r.Appended? ==> text == old(text) + d.Text() && old(text) == preimage
      ensures r.Appended? || r.AlreadyApplied? ==> d.Proved(text) && !d.Foreign(text)
      ensures text == old(text) || (fate.Arrives? && text == old(text) + d.Text()[..fate.n] && Size(old(text)) + Size(d.Text()) <= maximum)
      ensures text != old(text) ==> old(text) == preimage && Nowhere(old(text), d.Opens()) && Nowhere(old(text), d.Closes())
                                    && !d.Foreign(old(text))
      ensures !Fits(d.Text(), maximum) ==> r.SizeLimit? && text == old(text)
      ensures Fits(d.Text(), maximum) && sourceOk && d.Proved(old(text)) && !d.Foreign(old(text)) ==>
                r.AlreadyApplied? && text == old(text)
      ensures (sourceOk && fate.Arrives? && fate.n == |d.Text()| && fate.readable && old(text) == preimage
               && Size(old(text)) + Size(d.Text()) <= maximum && !d.Foreign(old(text))
               && Nowhere(old(text), d.Opens()) && Nowhere(old(text), d.Closes())) ==> r.Appended? || r.AlreadyApplied?
      ensures d.AtMostOnce(old(text)) ==> d.AtMostOnce(text)
    {
      hide Decision.Text, Opening, Closing, Size;
      DecisionMarkers(d);
      if !Fits(d.Text(), maximum) {
        return SizeLimit;
      }
      var opening, closing := Opening(OtherVersion(d.version), d.id), Closing(OtherVersion(d.version), d.id);
      var foreign := Count(text, 0, opening) > 0 || Count(text, 0, closing) > 0;
      CountNowhere(text, opening);
      CountNowhere(text, closing);
      if !sourceOk {
        return SourceChanged;
      }
      if foreign {
        return Conflict;
      }
      var openings, closings := Count(text, 0, d.Opens()), Count(text, 0, d.Closes());
      CountNowhere(text, d.Opens());
      CountNowhere(text, d.Closes());
      if openings > 0 || closings > 0 {
        return if openings == 1 && closings == 1 && Count(text, 0, d.Text()) == 1 then AlreadyApplied else Conflict;
      }
      if text != preimage {
        return DestinationChanged;
      }
      if Size(text) + Size(d.Text()) > maximum {
        return SizeLimit;
      }
      if fate.OpenFails? {
        return WriteUnavailable;
      }
      r := Write(d, fate);
    }

    /** The write itself, then the proof by reading back. */
    method Write(d: Decision, fate: Fate) returns (r: Category)
      requires d.Valid() && fate.Arrives? && fate.n <= |d.Text()|
      requires !d.Foreign(text) && Nowhere(text, d.Opens()) && Nowhere(text, d.Closes())
      modifies this
      ensures text == old(text) + d.Text()[..fate.n]
      ensures r.Appended? || r.AlreadyApplied? || r.CommitUnknown?
      ensures r.Appended? ==> text == old(text) + d.Text()
      ensures r.Appended? || r.AlreadyApplied? ==> d.Proved(text)
      ensures fate.n == |d.Text()| && fate.readable ==> !r.CommitUnknown?
      ensures d.AtMostOnce(text) && !d.Foreign(text)
    {
      ghost var existing := text;
      text := text + d.Text()[..fate.n];
      assert d.Text()[..|d.Text()|] == d.Text();
      hide Decision.Proved, Decision.Foreign, Decision.AtMostOnce, Decision.Text, Nowhere;
      TornAppend(d, existing, fate.n);
      AppendProves(d, existing);
      if !fate.raised && fate.readable && fate.n == |d.Text()| {
        return Appended;
      }
      if fate.readable && d.Proved(text) {
        return AlreadyApplied;
      }
      return CommitUnknown;
    }
  }

  /** However often the same decision is retried, and whatever each attempt met, the note never holds its opening
      marker twice, and once an attempt reports success every later one recognises it and changes nothing. */
  method Retry(note: Note, d: Decision, preimage: string, fates: seq<Fate>) returns (applied: bool)
    requires d.Valid() && d.AtMostOnce(note.text) && forall f <- fates :: f.Arrives? ==> f.n <= |d.Text()|
    modifies note
    ensures d.AtMostOnce(note.text)
    ensures applied ==> d.Proved(note.text)
  {
    applied := false;
    for i := 0 to |fates|
      invariant d.AtMostOnce(note.text)
      invariant applied ==> d.Proved(note.text) && !d.Foreign(note.text) && Fits(d.Text(), note.maximum)
    {
      hide Fits, Decision.Text, Decision.Proved, Decision.Foreign, Decision.AtMostOnce, Decision.Valid;
      ghost var was := note.text;
      assert fates[i] in fates;
      var r := note.AppendOnce(d, preimage, true, fates[i]);
      assert applied ==> r.AlreadyApplied? && note.text == was;
      applied := applied || r.Appended? || r.AlreadyApplied?;
    }
  }

  lemma DecisionMarkers(d: Decision)
    ensures d.Opens() != "" && d.Closes() != "" && d.Text() != ""
    ensures Opening(OtherVersion(d.version), d.id) != "" && Closing(OtherVersion(d.version), d.id) != ""
  {
  }
}

/** Sorting and paging of paths: the order of (folded path, path) keys, and finite sets listed in it. */
module PathOrder {

  /** A sort key: what the path folds to (empty where only the path itself is compared), then the path. */
  datatype Key = Key(fold: string, path: string)

  function SetOf(paths: seq<string>): set<string> { set p | p in paths }

  function KeyOf(fold: string -> string, p: string): Key { Key(fold(p), p) }

  function Keys(fold: string -> string, paths: set<string>): set<Key> { set p | p in paths :: KeyOf(fold, p) }

  /** Strings compare by code point, a proper prefix first. */
  predicate Less(a: string, b: string)
    decreases |a|
  {
    if b == [] then false
    else if a == [] then true
    else if a[0] != b[0] then a[0] < b[0]
    else Less(a[1..], b[1..])
  }

  /** a comes before b exactly when b goes on behind all of a, or has the larger character where they first differ. */
  ghost predicate PartAt(a: string, b: string, n: nat) {
    n <= |a| && n < |b| && a[..n] == b[..n] && (n < |a| ==> a[n] < b[n])
  }

  lemma SameFirst(a: string, b: string, n: nat)
    requires PartAt(a, b, n) && n > 0
    ensures a[0] == b[0]
  {
    assert a[..n][0] == b[..n][0];
  }

  lemma {:induction false} LessByText(a: string, b: string)
    ensures Less(a, b) <==> exists n: nat :: PartAt(a, b, n)
    decreases |a|
  {
    if a == [] || b == [] || a[0] != b[0] {
      assert a == [] && b != [] ==> PartAt(a, b, 0);
      assert a != [] && b != [] && a[0] < b[0] ==> PartAt(a, b, 0);
      forall n: nat | PartAt(a, b, n) ensures n == 0 {
        if n > 0 {
          SameFirst(a, b, n);
        }
      }
    } else {
      LessByText(a[1..], b[1..]);
      forall n: nat ensures PartAt(a, b, n + 1) <==> PartAt(a[1..], b[1..], n) {
        if n + 1 <= |a| && n + 1 <= |b| {
          assert a[..n + 1] == [a[0]] + a[1..][..n] && b[..n + 1] == [b[0]] + b[1..][..n];
          assert (a[..n + 1])[1..] == a[1..][..n] && (b[..n + 1])[1..] == b[1..][..n];
        }
      }
      if n: nat :| PartAt(a[1..], b[1..], n) {
        assert PartAt(a, b, n + 1);
      }
      forall n: nat | PartAt(a, b, n) ensures n > 0 && PartAt(a[1..], b[1..], n - 1) {
        assert PartAt(a, b, (n - 1) + 1);
      }
    }
  }

  predicate Before(a: Key, b: Key) {
    Less(a.fold, b.fold) || (a.fold == b.fold && Less(a.path, b.path))
  }

  predicate AtMost(a: Key, b: Key) { a == b || Before(a, b) }

  lemma {:induction false} LessTransitive(a: string, b: string, c: string)
    requires Less(a, b) && Less(b, c)
    ensures Less(a, c)
    decreases |a|
  {
    if a != [] && a[0] == b[0] && b[0] == c[0] {
      LessTransitive(a[1..], b[1..], c[1..]);
    }
  }

  lemma {:induction false} LessTotal(a: string, b: string)
    ensures Less(a, b) || a == b || Less(b, a)
    ensures !(Less(a, b) && Less(b, a)) && !Less(a, a)
    decreases |a|
  {
    if a != [] {
      LessTotal(a[1..], a[1..]);
      if b != [] && a[0] == b[0] {
        LessTotal(a[1..], b[1..]);
        assert a == [a[0]] + a[1..] && b == [b[0]] + b[1..];
      }
    }
  }

  lemma BeforeTransitive(a: Key, b: Key, c: Key)
    requires Before(a, b) && Before(b, c)
    ensures Before(a, c)
  {
    if Less(a.fold, b.fold) && Less(b.fold, c.fold) {
      LessTransitive(a.fold, b.fold, c.fold);
    } else if a.fold == b.fold == c.fold {
      LessTransitive(a.path, b.path, c.path);
    }
  }

  lemma BeforeTotal(a: Key, b: Key)
    ensures Before(a, b) || a == b || Before(b, a)
    ensures !(Before(a, b) && Before(b, a)) && !Before(a, a)
  {
    LessTotal(a.fold, b.fold);
    LessTotal(a.path, b.path);
    LessTotal(a.fold, a.fold);
    LessTotal(a.path, a.path);
  }

  // ----- finite sets in order

  ghost predicate IsSmallest(s: set<Key>, m: Key) { m in s && forall k <- s :: AtMost(m, k) }

  lemma {:induction false} SmallestExists(s: set<Key>)
    requires s != {}
    ensures exists m :: IsSmallest(s, m)
    decreases |s|
  {
    var k :| k in s;
    var rest := s - {k};
    assert forall j <- s :: j == k || j in rest;
    if rest == {} {
      assert IsSmallest(s, k);
    } else {
      SmallestExists(rest);
      var m :| IsSmallest(rest, m);
      BeforeTotal(k, m);
      if Before(k, m) {
        forall j <- s ensures AtMost(k, j) {
          if j in rest && j != m {
            BeforeTransitive(k, m, j);
          }
        }
        assert IsSmallest(s, k);
      } else {
        assert IsSmallest(s, m);
      }
    }
  }

  ghost function Smallest(s: set<Key>): (m: Key)
    requires s != {}
    ensures IsSmallest(s, m)
  {
    SmallestExists(s);
    var m :| IsSmallest(s, m); m
  }

  /** The set's elements, ascending. */
  ghost function Sorted(s: set<Key>): (r: seq<Key>)
    ensures |r| == |s|
    decreases |s|
  {
    if s == {} then [] else [Smallest(s)] + Sorted(s - {Smallest(s)})
  }

  ghost predicate Ascending(r: seq<Key>) { forall i, j :: 0 <= i < j < |r| ==> Before(r[i], r[j]) }

  lemma {:induction false} SortedIs(s: set<Key>)
    ensures Ascending(Sorted(s))
    ensures forall k :: k in Sorted(s) <==> k in s
    decreases |s|
  {
    hide Before, AtMost;
    if s != {} {
      var m := Smallest(s);
      var rest := s - {m};
      SortedIs(rest);
      SmallestFirst(s, m, Sorted(rest));
    }
  }

  lemma SmallestFirst(s: set<Key>, m: Key, tail: seq<Key>)
    requires IsSmallest(s, m) && Ascending(tail) && forall k :: k in tail <==> k in s - {m}
    ensures Ascending([m] + tail)
    ensures forall k :: k in [m] + tail <==> k in s
  {
    hide Before;
    var r := [m] + tail;
    forall i, j | 0 <= i < j < |r| ensures Before(r[i], r[j]) {
      assert r[j] == tail[j - 1] && tail[j - 1] in tail;
    }
  }

  /** Only one ascending listing exists. */
  lemma {:induction false} AscendingIsSorted(r: seq<Key>, s: set<Key>)
    requires Ascending(r) && forall k :: k in r <==> k in s
    ensures r == Sorted(s)
    decreases |r|
  {
    if r == [] {
      assert s == {};
    } else {
      assert r[0] in r;
      var m := Smallest(s);
      BeforeTotal(r[0], m);
      assert m == r[0] by {
        var i :| 0 <= i < |r| && r[i] == m;
      }
      var rest := r[1..];
      forall k ensures k in rest <==> k in s - {m} {
        BeforeTotal(m, m);
        if k in rest {
          var j :| 0 <= j < |rest| && rest[j] == k;
          assert Before(r[0], r[j + 1]);
        }
        if k in s - {m} {
          var j :| 0 <= j < |r| && r[j] == k;
          assert rest[j - 1] == k;
        }
      }
      AscendingIsSorted(rest, s - {m});
    }
  }

  // ----- sizes of finite sets

  lemma SmallerSet<T>(a: set<T>, b: set<T>)
    requires a < b
    ensures |a| < |b|
  {
    var x :| x in b && x !in a;
    SubsetSize(a, b - {x});
  }

  lemma {:induction false} SubsetSize<T>(a: set<T>, b: set<T>)
    requires a <= b
    ensures |a| <= |b|
    decreases |a|
  {
    if a != {} {
      var x :| x in a;
      SubsetSize(a - {x}, b - {x});
    }
  }

  lemma SameSize<T>(a: set<T>, b: set<T>)
    requires a <= b && |a| == |b|
    ensures a == b
  {
    if a != b {
      SmallerSet(a, b);
    }
  }

  // ----- keyset pages: WHERE key > after ORDER BY key LIMIT limit

  function Beyond(s: set<Key>, after: Key): set<Key> { set k | k in s && Before(after, k) }

  ghost function Page(s: set<Key>, after: Key, limit: nat): seq<Key> {
    var all := Sorted(Beyond(s, after));
    all[..if limit < |all| then limit else |all|]
  }

  /** A page takes the smallest keys beyond the cursor, and moving the cursor to its last key leaves
      exactly the keys the page did not take. */
  lemma PageAdvances(s: set<Key>, after: Key, limit: nat)
    requires limit > 0
    ensures var page := Page(s, after, limit);
            && (page == [] <==> Beyond(s, after) == {})
            && (forall k <- page :: k in Beyond(s, after))
            && (page != [] ==>
                  var last := page[|page| - 1];
                  && Beyond(s, last) == Beyond(s, after) - (set k | k in page)
                  && Before(after, last) && last in s)
    ensures forall i, j :: 0 <= i < j < |Page(s, after, limit)| ==> Page(s, after, limit)[i] != Page(s, after, limit)[j]
  {
    var beyond := Beyond(s, after);
    var all := Sorted(beyond);
    SortedIs(beyond);
    hide Before, Sorted;
    AscendingDistinct(all);
    var page := Page(s, after, limit);
    if page != [] {
      var last := page[|page| - 1];
      assert all[|page| - 1] == last && last in all;
      forall k ensures k in Beyond(s, last) <==> k in beyond && k !in page {
        if k in s && Before(last, k) {
          BeforeTransitive(after, last, k);
        }
        if k in beyond {
          CutAt(all, |page| - 1, k);
        }
      }
    }
  }

  /** In an ascending listing the keys after position m are the ones not among the first m + 1. */
  lemma CutAt(all: seq<Key>, m: nat, k: Key)
    requires Ascending(all) && m < |all| && k in all
    ensures Before(all[m], k) <==> k !in all[..m + 1]
  {
    hide Before;
    var i :| 0 <= i < |all| && all[i] == k;
    BeforeTotal(all[m], k);
    if i <= m {
      assert all[..m + 1][i] == k;
      assert i < m ==> Before(k, all[m]);
    } else {
      AscendingDistinct(all);
      assert forall j :: 0 <= j < m + 1 ==> all[j] != all[i];
    }
  }

  lemma AscendingDistinct(r: seq<Key>)
    requires Ascending(r)
    ensures forall i, j :: 0 <= i < j < |r| ==> r[i] != r[j]
  {
    forall i, j | 0 <= i < j < |r| ensures r[i] != r[j] {
      BeforeTotal(r[i], r[i]);
    }
  }

  method InsertKey(r: seq<Key>, k: Key, ghost s: set<Key>) returns (q: seq<Key>)
    requires Ascending(r) && k !in s && forall j :: j in r <==> j in s
    ensures Ascending(q) && forall j :: j in q <==> j in s + {k}
  {
    var i := 0;
    while i < |r| && Before(r[i], k)
      invariant 0 <= i <= |r|
      invariant forall j :: 0 <= j < i ==> Before(r[j], k)
    {
      i := i + 1;
    }
    q := r[..i] + [k] + r[i..];
    hide Before;
    forall j | i <= j < |r| ensures Before(k, r[j]) {
      assert r[i] in r && r[j] in r;
      BeforeTotal(k, r[i]);
      if i < j {
        BeforeTransitive(k, r[i], r[j]);
      }
    }
    assert r == r[..i] + r[i..];
    assert forall j :: j in q <==> j in r[..i] || j == k || j in r[i..];
  }

  /** ORDER BY on distinct keys. */
  method SortKeys(s: set<Key>) returns (r: seq<Key>)
    ensures r == Sorted(s)
  {
    r := [];
    var rest := s;
    while rest != {}
      invariant rest <= s && Ascending(r) && forall j :: j in r <==> j in s - rest
      decreases |rest|
    {
      var k :| k in rest;
      r := InsertKey(r, k, s - rest);
      assert s - (rest - {k}) == (s - rest) + {k};
      rest := rest - {k};
    }
    AscendingIsSorted(r, s);
  }

  method Query(s: set<Key>, after: Key, limit: nat) returns (page: seq<Key>)
    ensures page == Page(s, after, limit)
  {
    var all := SortKeys(Beyond(s, after));
    page := all[..if limit < |all| then limit else |all|];
  }
}

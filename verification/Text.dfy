/**
 Strings: the order of sorted string lists, and splitting at a separator. The order of
 the characters of two texts is that of their bytes in UTF-8.
 */
module Text {

  // ----- Lexicographic order and sorted lists without repetition -----

  predicate Less(a: string, b: string) {
    if b == [] then false
    else if a == [] then true
    else a[0] < b[0] || (a[0] == b[0] && Less(a[1..], b[1..]))
  }

  lemma {:induction false} LessIsTransitive(a: string, b: string, c: string)
    requires Less(a, b) && Less(b, c)
    ensures Less(a, c)
  {
    if a != [] && a[0] == b[0] && b[0] == c[0] {
      LessIsTransitive(a[1..], b[1..], c[1..]);
    }
  }

  lemma {:induction false} LessIsTotal(a: string, b: string)
    ensures a == b || Less(a, b) || Less(b, a)
    ensures !(Less(a, b) && Less(b, a)) && !Less(a, a)
  {
    if a != [] && b != [] {
      if a[0] == b[0] {
        LessIsTotal(a[1..], b[1..]);
        assert a == [a[0]] + a[1..] && b == [b[0]] + b[1..];
      }
      LessIsTotal(a[1..], a[1..]);
    } else if a != [] {
      LessIsTotal(a[1..], a[1..]);
    }
  }

  /** The texts agree up to position `k`, where the first one ends or has the smaller character. */
  ghost predicate SmallerAt(a: string, b: string, k: nat) {
    k <= |a| && k < |b| && a[..k] == b[..k] && (k == |a| || a[k] < b[k])
  }

  lemma {:induction false} LessMeans(a: string, b: string)
    ensures Less(a, b) <==> exists k :: SmallerAt(a, b, k)
  {
    if a == [] && b != [] {
      assert SmallerAt(a, b, 0);
    } else if a != [] && b != [] {
      LessMeans(a[1..], b[1..]);
      if a[0] < b[0] {
        assert SmallerAt(a, b, 0);
      } else if a[0] == b[0] && Less(a[1..], b[1..]) {
        var k: nat :| SmallerAt(a[1..], b[1..], k);
        TailSmaller(a, b, k);
      }
      if k: nat :| SmallerAt(a, b, k) {
        if k > 0 {
          assert a[..k][0] == b[..k][0];
          TailSmaller(a, b, k - 1);
        }
      }
    }
  }

  lemma TailSmaller(a: string, b: string, k: nat)
    requires a != [] && b != [] && a[0] == b[0]
    ensures SmallerAt(a, b, k + 1) <==> SmallerAt(a[1..], b[1..], k)
  {
    if k + 1 <= |a| && k + 1 < |b| {
      assert a[..k + 1] == [a[0]] + a[1..][..k];
      assert b[..k + 1] == [b[0]] + b[1..][..k];
      assert a[1..][..k] == a[..k + 1][1..] && b[1..][..k] == b[..k + 1][1..];
    }
  }

  ghost predicate StrictlySorted(s: seq<string>) {
    |s| <= 1 || (Less(s[0], s[1]) && StrictlySorted(s[1..]))
  }

  lemma {:induction false} HeadIsLeast(s: seq<string>)
    requires StrictlySorted(s) && s != []
    ensures forall x :: x in s[1..] ==> Less(s[0], x)
    ensures s[0] !in s[1..]
    decreases |s|
  {
    if |s| > 1 {
      var t := s[1..];
      HeadIsLeast(t);
      assert t == [t[0]] + t[1..];
      forall x | x in t ensures Less(s[0], x) {
        if x != t[0] {
          LessIsTransitive(s[0], t[0], x);
        }
      }
    }
    LessIsTotal(s[0], s[0]);
  }

  /** Every earlier element is less than every later one. */
  lemma {:induction false} SortedPairwise(s: seq<string>, i: nat, j: nat)
    requires StrictlySorted(s) && i < j < |s|
    ensures Less(s[i], s[j])
  {
    HeadIsLeast(s);
    if i > 0 {
      SortedPairwise(s[1..], i - 1, j - 1);
    } else {
      assert s[1..][j - 1] == s[j];
    }
  }

  lemma SplitLast<T>(s: seq<T>)
    requires s != []
    ensures s == s[..|s| - 1] + [s[|s| - 1]]
  {
  }

  lemma FrontMembers<T>(s: seq<T>) returns (init: seq<T>, last: T)
    requires s != []
    ensures init == s[..|s| - 1] && last == s[|s| - 1] && s == init + [last]
    ensures last in s
    ensures forall x :: x in init ==> x in s
  {
    init, last := s[..|s| - 1], s[|s| - 1];
  }

  lemma Associate<T>(a: seq<T>, b: seq<T>, c: seq<T>)
    ensures a + (b + c) == (a + b) + c
  {
  }

  function Elems<T>(s: seq<T>): set<T> {
    set x | x in s
  }

  lemma ElemsOfCons<T>(x: T, s: seq<T>)
    ensures Elems([x] + s) == {x} + Elems(s)
  {
  }

  lemma SomeMember<T>(s: set<T>) returns (x: T)
    requires s != {}
    ensures x in s
  {
    x :| x in s;
  }

  /** Any element of a set. */
  method AnyOf<T(==)>(s: set<T>) returns (x: T)
    requires s != {}
    ensures x in s
  {
    x :| x in s;
  }

  lemma ElemsOfSnoc<T>(s: seq<T>, x: T)
    ensures Elems(s + [x]) == Elems(s) + {x}
  {
  }

  // ----- Lists without repetition -----

  /** Nothing appears twice. */
  ghost predicate Distinct<T>(s: seq<T>) {
    s == [] || (Distinct(s[..|s| - 1]) && s[|s| - 1] !in s[..|s| - 1])
  }

  lemma DistinctSnoc<T>(s: seq<T>, t: T)
    ensures Distinct(s + [t]) <==> Distinct(s) && t !in s
  {
    assert (s + [t])[..|s|] == s;
  }

  lemma {:induction false} DistinctConcat<T>(a: seq<T>, b: seq<T>)
    ensures Distinct(a + b) <==> Distinct(a) && Distinct(b) && forall t :: t in b ==> t !in a
    decreases |b|
  {
    if b == [] {
      assert a + b == a;
    } else {
      var init, last := FrontMembers(b);
      Associate(a, init, [last]);
      DistinctConcat(a, init);
      DistinctSnoc(a + init, last);
      DistinctSnoc(init, last);
      assert forall t :: t in b <==> t in init || t == last;
    }
  }

  lemma {:induction false} NoneTwice<T>(s: seq<T>)
    ensures Distinct(s) <==> forall i, j :: 0 <= i < j < |s| ==> s[i] != s[j]
    decreases |s|
  {
    if s != [] {
      var init, last := FrontMembers(s);
      NoneTwice(init);
      DistinctSnoc(init, last);
      assert forall i :: 0 <= i < |init| ==> s[i] == init[i];
    }
  }

  lemma {:induction false} DistinctCount<T>(s: seq<T>)
    requires Distinct(s)
    ensures |Elems(s)| == |s|
    decreases |s|
  {
    if s != [] {
      var init, last := FrontMembers(s);
      DistinctCount(init);
      ElemsOfSnoc(init, last);
      assert last !in Elems(init);
    }
  }

  lemma {:induction false} ElemsAtMost<T>(s: seq<T>)
    ensures |Elems(s)| <= |s|
    decreases |s|
  {
    if s != [] {
      SplitLast(s);
      ElemsAtMost(s[..|s| - 1]);
      assert Elems(s) == Elems(s[..|s| - 1]) + {s[|s| - 1]};
    }
  }

  /** A list of the elements of a set, each once, in some order. */
  ghost predicate Enumerates<T>(list: seq<T>, elements: set<T>) {
    Distinct(list) && Elems(list) == elements
  }

  lemma EnumeratesSnoc<T>(list: seq<T>, elements: set<T>, x: T)
    requires Enumerates(list, elements) && x !in elements
    ensures Enumerates(list + [x], elements + {x})
  {
    DistinctSnoc(list, x);
    ElemsOfSnoc(list, x);
    assert x in list ==> x in Elems(list);
  }

  /** Every set can be listed. */
  lemma {:induction false} EnumerationExists<T>(elements: set<T>) returns (list: seq<T>)
    ensures Enumerates(list, elements)
  {
    list := [];
    if elements != {} {
      var x :| x in elements;
      var rest := EnumerationExists(elements - {x});
      EnumeratesSnoc(rest, elements - {x}, x);
      assert elements - {x} + {x} == elements;
      list := rest + [x];
    }
  }

  lemma {:induction false} SortedIsDistinct(s: seq<string>, n: nat)
    requires StrictlySorted(s) && n <= |s|
    ensures Distinct(s[..n])
  {
    if n > 0 {
      SortedIsDistinct(s, n - 1);
      assert s[..n] == s[..n - 1] + [s[n - 1]];
      forall i | 0 <= i < n - 1 ensures s[i] != s[n - 1] {
        SortedPairwise(s, i, n - 1);
        LessIsTotal(s[i], s[n - 1]);
      }
      DistinctSnoc(s[..n - 1], s[n - 1]);
    }
  }

  /** Sorted insertion into a sorted list; a repeated element is dropped. */
  function Insert(x: string, s: seq<string>): seq<string> {
    if s == [] then [x]
    else if x == s[0] then s
    else if Less(x, s[0]) then [x] + s
    else [s[0]] + Insert(x, s[1..])
  }

  lemma {:induction false} InsertIntoSorted(x: string, s: seq<string>)
    requires StrictlySorted(s)
    ensures StrictlySorted(Insert(x, s))
    ensures Elems(Insert(x, s)) == Elems(s) + {x}
    ensures Insert(x, s) != [] && (Insert(x, s)[0] == x || (s != [] && Insert(x, s)[0] == s[0]))
    decreases |s|
  {
    if s != [] {
      var t := s[1..];
      assert s == [s[0]] + t;
      ElemsOfCons(s[0], t);
      ElemsOfCons(x, s);
      assert ([x] + s)[1..] == s;
      if x != s[0] && !Less(x, s[0]) {
        InsertIntoSorted(x, t);
        LessIsTotal(x, s[0]);
        ElemsOfCons(s[0], Insert(x, t));
        assert ([s[0]] + Insert(x, t))[1..] == Insert(x, t);
      }
    }
  }

  /** `sort()` followed by `dedup()`. */
  function SortDedup(s: seq<string>): (r: seq<string>)
    ensures StrictlySorted(r) && Elems(r) == Elems(s)
  {
    if s == [] then []
    else
      assert Elems(s) == Elems(s[1..]) + {s[0]} by {
        assert s == [s[0]] + s[1..];
        ElemsOfCons(s[0], s[1..]);
      }
      InsertIntoSorted(s[0], SortDedup(s[1..]));
      Insert(s[0], SortDedup(s[1..]))
  }

  // ----- Separators -----

  /** Index of the first `c` in `s`, or `|s|`. */
  function Find(s: string, c: char): (i: nat)
    ensures i <= |s|
    ensures i < |s| ==> s[i] == c
    ensures forall j :: 0 <= j < i ==> s[j] != c
  {
    if s == [] || s[0] == c then 0 else 1 + Find(s[1..], c)
  }

  lemma FindFirst(a: string, c: char, b: string)
    requires c !in a
    ensures Find(a + [c] + b, c) == |a|
  {
    var s := a + [c] + b;
    var i := Find(s, c);
    assert s[|a|] == c;
    assert forall j :: 0 <= j < |a| ==> s[j] == a[j] && a[j] in a;
  }

  lemma CutConcat(a: string, c: char, b: string)
    requires c !in a
    ensures var s := a + [c] + b;
            Find(s, c) == |a| && s[..|a|] == a && s[|a| + 1..] == b
  {
    FindFirst(a, c, b);
  }

  function Split(s: string, sep: char): (parts: seq<string>)
    ensures |parts| >= 1
    ensures forall i :: 0 <= i < |parts| ==> sep !in parts[i]
  {
    var i := Find(s, sep);
    if i == |s| then [s] else [s[..i]] + Split(s[i + 1..], sep)
  }

  function Join(parts: seq<string>, sep: char): string
    requires |parts| >= 1
  {
    if |parts| == 1 then parts[0] else parts[0] + [sep] + Join(parts[1..], sep)
  }

  lemma CutAt(s: string, i: nat)
    requires i < |s|
    ensures s == s[..i] + [s[i]] + s[i + 1..]
  {
  }

  lemma SplitCons(x: string, rest: string, sep: char)
    requires sep !in x
    ensures Split(x + [sep] + rest, sep) == [x] + Split(rest, sep)
  {
    var s := x + [sep] + rest;
    FindFirst(x, sep, rest);
    assert s[..|x|] == x && s[|x| + 1..] == rest;
  }

  lemma {:induction false} SplitJoin(parts: seq<string>, sep: char)
    requires |parts| >= 1
    requires forall i :: 0 <= i < |parts| ==> sep !in parts[i]
    ensures Split(Join(parts, sep), sep) == parts
    decreases |parts|
  {
    if |parts| == 1 {
      assert Find(parts[0], sep) == |parts[0]|;
    } else {
      SplitJoin(parts[1..], sep);
      SplitCons(parts[0], Join(parts[1..], sep), sep);
    }
  }
}

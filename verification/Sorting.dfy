/** Sorting by any order, what every sort returns, and the order of strings in the runtime. */
module Sorting {

  ghost predicate Order<T(!new)>(le: (T, T) -> bool) {
    && (forall a, b :: le(a, b) || le(b, a))
    && (forall a, b, c :: le(a, b) && le(b, c) ==> le(a, c))
  }

  predicate Sorted<T>(s: seq<T>, le: (T, T) -> bool) {
    forall i, j :: 0 <= i < j < |s| ==> le(s[i], s[j])
  }

  function Insert<T(!new)>(x: T, s: seq<T>, le: (T, T) -> bool): (r: seq<T>)
    requires Order(le) && Sorted(s, le)
    ensures Sorted(r, le) && multiset(r) == multiset(s) + multiset{x}
  {
    if s == [] then [x]
    else if le(x, s[0]) then [x] + s
    else
      var rest := Insert(x, s[1..], le);
      HeadBelow(s[0], rest, s[1..], x, le);
      assert s == [s[0]] + s[1..];
      [s[0]] + rest
  }

  lemma HeadBelow<T(!new)>(h: T, r: seq<T>, s: seq<T>, x: T, le: (T, T) -> bool)
    requires multiset(r) == multiset(s) + multiset{x} && le(h, x)
    requires forall i :: 0 <= i < |s| ==> le(h, s[i])
    ensures forall i :: 0 <= i < |r| ==> le(h, r[i])
  {
    forall i | 0 <= i < |r|
      ensures le(h, r[i])
    {
      assert r[i] in multiset(r);
    }
  }

  function Sort<T(!new)>(s: seq<T>, le: (T, T) -> bool): (r: seq<T>)
    requires Order(le)
    ensures Sorted(r, le) && multiset(r) == multiset(s)
  {
    if s == [] then [] else
      assert s == [s[0]] + s[1..];
      Insert(s[0], Sort(s[1..], le), le)
  }

  /**
   Where no two different elements are equal in the order, a sorted arrangement is unique, so it does
   not matter which sort is used.
   */
  lemma {:induction false} SortedUnique<T(!new)>(a: seq<T>, b: seq<T>, le: (T, T) -> bool)
    requires Order(le) && Sorted(a, le) && Sorted(b, le) && multiset(a) == multiset(b)
    requires forall x, y :: x in a && y in a && le(x, y) && le(y, x) ==> x == y
    ensures a == b
  {
    hide Order, Sorted;
    SameLength(a, b);
    if a != [] {
      SameFirst(a, b, le);
      RestSorted(a, le);
      RestSorted(b, le);
      SameRest(a, b);
      SortedUnique(a[1..], b[1..], le);
      assert a == [a[0]] + a[1..] && b == [b[0]] + b[1..];
    }
  }

  lemma SameLength<T>(a: seq<T>, b: seq<T>)
    requires multiset(a) == multiset(b)
    ensures |a| == |b|
  {
    assert |a| == |multiset(a)| && |b| == |multiset(b)|;
  }

  lemma SameFirst<T(!new)>(a: seq<T>, b: seq<T>, le: (T, T) -> bool)
    requires Order(le) && Sorted(a, le) && Sorted(b, le) && multiset(a) == multiset(b) && a != [] && b != []
    requires forall x, y :: x in a && y in a && le(x, y) && le(y, x) ==> x == y
    ensures a[0] == b[0]
  {
    hide Order, Sorted;
    assert a[0] in multiset(b) && b[0] in multiset(a);
    FirstIsLeast(a, b[0], le);
    FirstIsLeast(b, a[0], le);
  }

  lemma RestSorted<T>(a: seq<T>, le: (T, T) -> bool)
    requires Sorted(a, le) && a != []
    ensures Sorted(a[1..], le)
  {
  }

  lemma SameRest<T>(a: seq<T>, b: seq<T>)
    requires multiset(a) == multiset(b) && a != [] && b != [] && a[0] == b[0]
    ensures multiset(a[1..]) == multiset(b[1..])
  {
    assert a == [a[0]] + a[1..] && b == [b[0]] + b[1..];
    assert multiset(a[1..]) == multiset(a) - multiset{a[0]};
    assert multiset(b[1..]) == multiset(b) - multiset{b[0]};
  }

  lemma FirstIsLeast<T(!new)>(a: seq<T>, x: T, le: (T, T) -> bool)
    requires Order(le) && Sorted(a, le) && x in a
    ensures le(a[0], x)
  {
  }

  // ---------- Strings ----------

  /** `a <= b`: characters are compared by code, a prefix comes first. */
  predicate LexLe(a: string, b: string) {
    a == "" || (b != "" && (a[0] < b[0] || (a[0] == b[0] && LexLe(a[1..], b[1..]))))
  }

  /** That is: `a` begins `b`, or is smaller at the first place where they differ. */
  predicate SmallerAt(a: string, b: string, i: int) {
    0 <= i < |a| && i < |b| && a[..i] == b[..i] && a[i] < b[i]
  }

  lemma {:induction false} LexLeIff(a: string, b: string)
    ensures LexLe(a, b) <==> a <= b || exists i :: SmallerAt(a, b, i)
  {
    if a != "" && b != "" && a[0] == b[0] {
      LexLeIff(a[1..], b[1..]);
      assert a == [a[0]] + a[1..] && b == [b[0]] + b[1..];
      forall i
        ensures SmallerAt(a, b, i + 1) <==> i >= 0 && SmallerAt(a[1..], b[1..], i)
      {
        SmallerLater(a, b, i);
      }
      if exists i :: SmallerAt(a[1..], b[1..], i) {
        var i :| SmallerAt(a[1..], b[1..], i);
        assert SmallerAt(a, b, i + 1);
      }
      if exists i :: SmallerAt(a, b, i) {
        var i :| SmallerAt(a, b, i);
        assert SmallerAt(a, b, (i - 1) + 1);
        assert SmallerAt(a[1..], b[1..], i - 1);
      }
    } else if a != "" && b != "" {
      assert SmallerAt(a, b, 0) <==> a[0] < b[0];
      assert forall i :: SmallerAt(a, b, i) ==> i == 0 || a[..i][0] == b[..i][0];
    }
  }

  lemma SmallerLater(a: string, b: string, i: int)
    requires a != "" && b != "" && a[0] == b[0]
    ensures SmallerAt(a, b, i + 1) <==> i >= 0 && SmallerAt(a[1..], b[1..], i)
  {
    if 0 <= i < |a| - 1 && i < |b| - 1 {
      assert a[..i + 1] == [a[0]] + a[1..][..i] && b[..i + 1] == [b[0]] + b[1..][..i];
      assert a[..i + 1] == b[..i + 1] ==> a[1..][..i] == a[..i + 1][1..] == b[..i + 1][1..] == b[1..][..i];
    }
  }

  lemma {:induction false} LexTotal(a: string, b: string)
    ensures LexLe(a, b) || LexLe(b, a)
  {
    if a != "" && b != "" && a[0] == b[0] {
      LexTotal(a[1..], b[1..]);
    }
  }

  lemma {:induction false} LexAntisymmetric(a: string, b: string)
    requires LexLe(a, b) && LexLe(b, a)
    ensures a == b
  {
    if a != "" {
      LexAntisymmetric(a[1..], b[1..]);
      assert a == [a[0]] + a[1..] && b == [b[0]] + b[1..];
    }
  }

  lemma {:induction false} LexTransitive(a: string, b: string, c: string)
    requires LexLe(a, b) && LexLe(b, c)
    ensures LexLe(a, c)
  {
    if a != "" && a[0] == b[0] == c[0] {
      LexTransitive(a[1..], b[1..], c[1..]);
    }
  }

  lemma {:induction false} LexReflexive(a: string)
    ensures LexLe(a, a)
  {
    if a != "" {
      LexReflexive(a[1..]);
    }
  }

  lemma LexOrder()
    ensures Order(LexLe)
  {
    forall a, b
      ensures LexLe(a, b) || LexLe(b, a)
    {
      LexTotal(a, b);
    }
    forall a, b, c | LexLe(a, b) && LexLe(b, c)
      ensures LexLe(a, c)
    {
      LexTransitive(a, b, c);
    }
  }

  /** Sorting strings forgets their order and nothing else. */
  lemma SortIff(a: seq<string>, b: seq<string>)
    requires Order(LexLe)
    ensures Sort(a, LexLe) == Sort(b, LexLe) <==> multiset(a) == multiset(b)
  {
    if multiset(a) == multiset(b) {
      forall x, y | LexLe(x, y) && LexLe(y, x)
        ensures x == y
      {
        LexAntisymmetric(x, y);
      }
      SortedUnique(Sort(a, LexLe), Sort(b, LexLe), LexLe);
    } else {
      assert multiset(Sort(a, LexLe)) != multiset(Sort(b, LexLe));
    }
  }
}

/** Stable sorting by a total preorder, as the host language's `sorted` does it. */
module Sorting {
  ghost predicate Preorder<T(!new)>(le: (T, T) -> bool) {
    && (forall x, y :: le(x, y) || le(y, x))
    && (forall x, y, z :: le(x, y) && le(y, z) ==> le(x, z))
  }

  ghost predicate Antisymmetric<T(!new)>(le: (T, T) -> bool) {
    forall x, y :: le(x, y) && le(y, x) ==> x == y
  }

  predicate Ordered<T>(s: seq<T>, le: (T, T) -> bool) {
    forall i, j :: 0 <= i < j < |s| ==> le(s[i], s[j])
  }

  function Insert<T(!new)>(x: T, s: seq<T>, le: (T, T) -> bool): (r: seq<T>)
    requires Preorder(le) && Ordered(s, le)
    ensures Ordered(r, le) && multiset(r) == multiset(s) + multiset{x}
  {
    if s == [] then [x]
    else if le(x, s[0]) then
      InsertFirst(x, s, le);
      [x] + s
    else
      var rest := Insert(x, s[1..], le);
      InsertLater(x, s, rest, le);
      [s[0]] + rest
  }

  lemma InsertFirst<T(!new)>(x: T, s: seq<T>, le: (T, T) -> bool)
    requires Preorder(le) && Ordered(s, le) && s != [] && le(x, s[0])
    ensures Ordered([x] + s, le) && multiset([x] + s) == multiset(s) + multiset{x}
  {
    forall i | 0 <= i < |s|
      ensures le(x, s[i])
    {
      assert le(s[0], s[0]);
      assert i > 0 ==> le(s[0], s[i]);
    }
  }

  lemma InsertLater<T(!new)>(x: T, s: seq<T>, rest: seq<T>, le: (T, T) -> bool)
    requires Preorder(le) && Ordered(s, le) && s != [] && !le(x, s[0])
    requires Ordered(rest, le) && multiset(rest) == multiset(s[1..]) + multiset{x}
    ensures Ordered([s[0]] + rest, le) && multiset([s[0]] + rest) == multiset(s) + multiset{x}
  {
    assert s == [s[0]] + s[1..];
    forall i | 0 <= i < |rest|
      ensures le(s[0], rest[i])
    {
      assert rest[i] in multiset(rest);
      if rest[i] in multiset(s[1..]) {
        var k :| 0 <= k < |s[1..]| && s[1..][k] == rest[i];
        assert s[k + 1] == rest[i];
      } else {
        assert rest[i] == x;
      }
    }
  }

  function Sort<T(!new)>(s: seq<T>, le: (T, T) -> bool): (r: seq<T>)
    requires Preorder(le)
    ensures Ordered(r, le) && multiset(r) == multiset(s) && |r| == |s|
  {
    if s == [] then []
    else
      assert s == [s[0]] + s[1..];
      var r := Insert(s[0], Sort(s[1..], le), le);
      assert |multiset(r)| == |r| && |multiset(s)| == |s|;
      r
  }

  /** Sorting something ordered changes nothing. */
  lemma {:induction false} SortOfOrdered<T(!new)>(s: seq<T>, le: (T, T) -> bool)
    requires Preorder(le) && Ordered(s, le)
    ensures Sort(s, le) == s
  {
    if s != [] {
      WithoutFirst(s, le);
      SortOfOrdered(s[1..], le);
      InsertLeast(s, le);
    }
  }

  lemma InsertLeast<T(!new)>(s: seq<T>, le: (T, T) -> bool)
    requires Preorder(le) && Ordered(s, le) && s != [] && Ordered(s[1..], le)
    ensures Insert(s[0], s[1..], le) == s
  {
    assert |s| > 1 ==> le(s[0], s[1]);
    assert s == [s[0]] + s[1..];
  }

  /** Ordered sequences with the same elements are equal when the order is antisymmetric. */
  lemma {:induction false} OrderedIsUnique<T(!new)>(s: seq<T>, t: seq<T>, le: (T, T) -> bool)
    requires Preorder(le) && Antisymmetric(le)
    requires Ordered(s, le) && Ordered(t, le) && multiset(s) == multiset(t)
    ensures s == t
  {
    assert |multiset(s)| == |s| && |multiset(t)| == |t|;
    if s != [] {
      FirstIsLeast(s, t, le);
      FirstIsLeast(t, s, le);
      WithoutFirst(s, le);
      WithoutFirst(t, le);
      OrderedIsUnique(s[1..], t[1..], le);
    }
  }

  lemma WithoutFirst<T>(s: seq<T>, le: (T, T) -> bool)
    requires s != [] && Ordered(s, le)
    ensures s == [s[0]] + s[1..] && multiset(s[1..]) == multiset(s) - multiset{s[0]} && Ordered(s[1..], le)
  {
    assert s == [s[0]] + s[1..];
  }

  lemma FirstIsLeast<T(!new)>(s: seq<T>, t: seq<T>, le: (T, T) -> bool)
    requires Preorder(le) && Ordered(s, le) && multiset(s) == multiset(t) && s != [] && t != []
    ensures le(s[0], t[0])
  {
    assert t[0] in multiset(s);
    var j :| 0 <= j < |s| && s[j] == t[0];
    assert le(s[0], s[0]) && (j > 0 ==> le(s[0], s[j]));
  }

  /** Sorting forgets exactly the order. */
  lemma {:induction false} SortDecidesOrder<T(!new)>(s: seq<T>, t: seq<T>, le: (T, T) -> bool)
    requires Preorder(le) && Antisymmetric(le)
    ensures Sort(s, le) == Sort(t, le) <==> multiset(s) == multiset(t)
  {
    if multiset(s) == multiset(t) {
      OrderedIsUnique(Sort(s, le), Sort(t, le), le);
    }
  }

  predicate DistinctKeys<T, K(==)>(s: seq<T>, key: T -> K) {
    forall i, j :: 0 <= i < j < |s| ==> key(s[i]) != key(s[j])
  }

  /** A permutation keeps the members and the distinctness of their keys. */
  lemma PermutationKeepsKeys<T, K>(s: seq<T>, t: seq<T>, key: T -> K)
    requires multiset(s) == multiset(t) && DistinctKeys(s, key)
    ensures DistinctKeys(t, key)
    ensures forall x :: x in s <==> x in t
  {
    forall i, j | 0 <= i < j < |t|
      ensures key(t[i]) != key(t[j])
    {
      assert t[i] in multiset(s) && t[j] in multiset(s);
      var a :| 0 <= a < |s| && s[a] == t[i];
      var b :| 0 <= b < |s| && s[b] == t[j];
      OnceWhenDistinct(s, a, key);
      if t[i] == t[j] {
        TwiceCounts(t, i, j);
      }
    }
    assert forall x :: x in s <==> x in multiset(s);
    assert forall x :: x in t <==> x in multiset(t);
  }

  lemma OnceWhenDistinct<T, K>(s: seq<T>, a: nat, key: T -> K)
    requires DistinctKeys(s, key) && a < |s|
    ensures multiset(s)[s[a]] == 1
  {
    assert s == s[..a] + [s[a]] + s[a + 1..];
    assert s[a] !in s[..a] && s[a] !in s[a + 1..];
    assert multiset(s) == multiset(s[..a]) + multiset{s[a]} + multiset(s[a + 1..]);
  }

  lemma TwiceCounts<T>(t: seq<T>, i: nat, j: nat)
    requires i < j < |t| && t[i] == t[j]
    ensures multiset(t)[t[i]] >= 2
  {
    assert t == t[..i] + [t[i]] + t[i + 1..j] + [t[j]] + t[j + 1..];
  }

  /** Code-point order of texts. */
  predicate Le(s: string, t: string) {
    s == "" || (t != "" && (s[0] < t[0] || (s[0] == t[0] && Le(s[1..], t[1..]))))
  }

  lemma {:induction false} LeLaws(s: string, t: string, u: string)
    ensures Le(s, t) || Le(t, s)
    ensures Le(s, t) && Le(t, s) ==> s == t
    ensures Le(s, t) && Le(t, u) ==> Le(s, u)
  {
    if s != "" && t != "" {
      LeLaws(s[1..], t[1..], if u == "" then "" else u[1..]);
      assert s == [s[0]] + s[1..] && t == [t[0]] + t[1..];
    }
  }

  /** What the order means: a prefix comes first, and otherwise the first difference decides. */
  lemma {:induction false} LeExactly(s: string, t: string)
    ensures Le(s, t) <==> s <= t || exists k :: 0 <= k < |s| && k < |t| && s[..k] == t[..k] && s[k] < t[k]
  {
    if s != "" && t != "" {
      var x, y := s[1..], t[1..];
      LeExactly(x, y);
      if s[0] == t[0] {
        assert s <= t <==> x <= y by {
          assert s == [s[0]] + x && t == [t[0]] + y;
        }
        if k :| 0 <= k < |x| && k < |y| && x[..k] == y[..k] && x[k] < y[k] {
          assert s[..k + 1] == [s[0]] + x[..k] && t[..k + 1] == [t[0]] + y[..k];
          assert s[k + 1] < t[k + 1];
        }
        if k :| 0 <= k < |s| && k < |t| && s[..k] == t[..k] && s[k] < t[k] {
          assert x[..k - 1] == s[..k][1..] && y[..k - 1] == t[..k][1..];
          assert x[k - 1] < y[k - 1];
        }
      } else if s[0] < t[0] {
        assert s[..0] == t[..0];
      } else {
        assert forall k :: 0 < k <= |s| && k <= |t| ==> s[..k][0] == s[0] && t[..k][0] == t[0];
      }
    }
  }

  lemma LeIsTotalOrder()
    ensures Preorder(Le) && Antisymmetric(Le)
  {
    forall s, t, u
      ensures (Le(s, t) || Le(t, s)) && (Le(s, t) && Le(t, s) ==> s == t) && (Le(s, t) && Le(t, u) ==> Le(s, u))
    {
      LeLaws(s, t, u);
    }
  }
}

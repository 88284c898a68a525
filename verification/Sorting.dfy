/** Sorting by a strict order, and why the result does not depend on how it was sorted. */
module Sorting {
  import opened Common

  /** The order the elements of `s` are compared by: irreflexive, transitive, and deciding between any
      two different elements. */
  ghost predicate Orders<T(!new)>(before: (T, T) -> bool, s: set<T>) {
    && (forall x :: x in s ==> !before(x, x))
    && (forall x, y, z :: x in s && y in s && z in s && before(x, y) && before(y, z) ==> before(x, z))
    && (forall x, y :: x in s && y in s && x != y ==> before(x, y) || before(y, x))
  }

  ghost predicate Ordered<T(!new)>(before: (T, T) -> bool, s: seq<T>) {
    forall i, j :: 0 <= i < j < |s| ==> before(s[i], s[j])
  }

  function Elements<T(!new)>(s: seq<T>): set<T> {
    set x | x in s
  }

  function Insert<T>(before: (T, T) -> bool, x: T, s: seq<T>): seq<T> {
    if s == [] || before(x, s[0]) then [x] + s else [s[0]] + Insert(before, x, s[1..])
  }

  function Sort<T>(before: (T, T) -> bool, s: seq<T>): (r: seq<T>)
  {
    if s == [] then [] else Insert(before, s[0], Sort(before, s[1..]))
  }

  lemma {:induction false} InsertKeepsAll<T>(before: (T, T) -> bool, x: T, s: seq<T>)
    ensures multiset(Insert(before, x, s)) == multiset{x} + multiset(s)
  {
    if s != [] && !before(x, s[0]) {
      InsertKeepsAll(before, x, s[1..]);
      assert s == [s[0]] + s[1..];
    }
  }

  /** Nothing is lost, added or repeated. */
  lemma {:induction false} SortKeepsAll<T>(before: (T, T) -> bool, s: seq<T>)
    ensures multiset(Sort(before, s)) == multiset(s)
    ensures |Sort(before, s)| == |s|
    ensures forall x :: x in Sort(before, s) <==> x in s
  {
    if s != [] {
      SortKeepsAll(before, s[1..]);
      InsertKeepsAll(before, s[0], Sort(before, s[1..]));
      assert s == [s[0]] + s[1..];
    }
    var r := Sort(before, s);
    assert |multiset(r)| == |r| && |multiset(s)| == |s|;
    forall x ensures x in r <==> x in s {
      assert x in r <==> x in multiset(r);
      assert x in s <==> x in multiset(s);
    }
  }

  lemma {:induction false} InsertOrders<T(!new)>(before: (T, T) -> bool, x: T, s: seq<T>, all: set<T>)
    requires Orders(before, all) && x in all && (forall y :: y in s ==> y in all) && x !in s
    requires Ordered(before, s)
    ensures Ordered(before, Insert(before, x, s))
  {
    if s != [] {
      if before(x, s[0]) {
        assert forall j :: 0 <= j < |s| ==> s[j] in all && before(x, s[j]);
      } else {
        var rest := Insert(before, x, s[1..]);
        InsertOrders(before, x, s[1..], all);
        InsertKeepsAll(before, x, s[1..]);
        assert s[0] in s && before(s[0], x);
        forall j | 0 <= j < |rest| ensures before(s[0], rest[j]) {
          assert rest[j] in multiset(rest);
          if rest[j] != x {
            assert rest[j] in s[1..];
            var i :| 0 <= i < |s[1..]| && s[1..][i] == rest[j];
            assert before(s[0], s[i + 1]);
          }
        }
      }
    }
  }

  ghost predicate NoRepeats<T(!new)>(s: seq<T>) {
    DistinctBy(s, (x: T) => x)
  }

  /** A sequence without repeats comes out in strict order. */
  lemma {:induction false} SortOrders<T(!new)>(before: (T, T) -> bool, s: seq<T>)
    requires NoRepeats(s) && Orders(before, Elements(s))
    ensures Ordered(before, Sort(before, s))
  {
    if s != [] {
      var rest := s[1..];
      assert Orders(before, Elements(rest)) by {
        forall x | x in Elements(rest) ensures x in Elements(s) { assert x in rest; }
      }
      SortOrders(before, rest);
      SortKeepsAll(before, rest);
      assert s[0] !in rest;
      forall y | y in Sort(before, rest) ensures y in Elements(s) { assert y in rest; }
      assert s[0] in s;
      InsertOrders(before, s[0], Sort(before, rest), Elements(s));
    }
  }

  /** Two strictly ordered sequences with the same elements are the same sequence. */
  lemma {:induction false} OrderedIsUnique<T(!new)>(before: (T, T) -> bool, a: seq<T>, b: seq<T>)
    requires Ordered(before, a) && Ordered(before, b)
    requires Orders(before, Elements(a)) && Elements(a) == Elements(b)
    ensures a == b
  {
    NoElements(a);
    NoElements(b);
    if a != [] {
      HeadsAgree(before, a, b);
      TailElements(before, a);
      TailElements(before, b);
      OrderedIsUnique(before, a[1..], b[1..]);
      assert a == [a[0]] + a[1..] && b == [b[0]] + b[1..];
    }
  }

  lemma NoElements<T(!new)>(a: seq<T>)
    ensures a == [] <==> Elements(a) == {}
  {
    assert a != [] ==> a[0] in Elements(a);
  }

  lemma HeadsAgree<T(!new)>(before: (T, T) -> bool, a: seq<T>, b: seq<T>)
    requires a != [] && b != [] && Ordered(before, a) && Ordered(before, b)
    requires Orders(before, Elements(a)) && Elements(a) == Elements(b)
    ensures a[0] == b[0]
  {
    assert a[0] in Elements(b) && b[0] in Elements(a);
    var i :| 0 <= i < |b| && b[i] == a[0];
    var j :| 0 <= j < |a| && a[j] == b[0];
  }

  lemma TailElements<T(!new)>(before: (T, T) -> bool, a: seq<T>)
    requires a != [] && Ordered(before, a) && Orders(before, Elements(a))
    ensures Elements(a[1..]) == Elements(a) - {a[0]} && Orders(before, Elements(a[1..]))
  {
    forall x | x in Elements(a[1..]) ensures x in Elements(a) && x != a[0] {
      var i :| 0 <= i < |a[1..]| && a[1..][i] == x;
      assert a[i + 1] == x && before(a[0], a[i + 1]);
      assert a[0] in Elements(a);
    }
    forall x | x in Elements(a) && x != a[0] ensures x in Elements(a[1..]) {
      var i :| 0 <= i < |a| && a[i] == x;
      assert a[1..][i - 1] == x;
    }
  }

  /** Sorting is insensitive to the order of its input. */
  lemma SortOfPermutation<T(!new)>(before: (T, T) -> bool, a: seq<T>, b: seq<T>)
    requires NoRepeats(a) && multiset(a) == multiset(b) && Orders(before, Elements(a))
    ensures Sort(before, a) == Sort(before, b)
  {
    NoRepeatsIsSymmetric(a, b);
    assert forall x :: x in a <==> x in multiset(a);
    assert forall x :: x in b <==> x in multiset(b);
    assert Elements(a) == Elements(b);
    SortOrders(before, a);
    SortOrders(before, b);
    SortKeepsAll(before, a);
    SortKeepsAll(before, b);
    assert Elements(Sort(before, a)) == Elements(a);
    assert Elements(Sort(before, b)) == Elements(b);
    OrderedIsUnique(before, Sort(before, a), Sort(before, b));
  }

  lemma CountsOfRepeats<T(!new)>(s: seq<T>, i: int, j: int)
    requires 0 <= i < j < |s| && s[i] == s[j]
    ensures multiset(s)[s[i]] >= 2
  {
    var pre, mid, post := s[..i], s[i + 1..j], s[j + 1..];
    assert s == pre + [s[i]] + mid + [s[j]] + post;
  }

  lemma {:induction false} CountWithoutRepeats<T(!new)>(s: seq<T>, x: T)
    requires NoRepeats(s)
    ensures multiset(s)[x] <= 1
  {
    if s != [] {
      var n := |s| - 1;
      CountWithoutRepeats(s[..n], x);
      assert s == s[..n] + [s[n]];
      assert s[n] !in s[..n];
      assert x in s[..n] <==> x in multiset(s[..n]);
    }
  }

  lemma NoRepeatsIsSymmetric<T(!new)>(a: seq<T>, b: seq<T>)
    requires NoRepeats(a) && multiset(a) == multiset(b)
    ensures NoRepeats(b)
  {
    forall i, j | 0 <= i < j < |b| ensures b[i] != b[j] {
      if b[i] == b[j] {
        CountsOfRepeats(b, i, j);
        CountWithoutRepeats(a, b[i]);
      }
    }
  }
}

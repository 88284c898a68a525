/** Datatypes and sequence facts shared by the other modules. */
module Common {

  datatype Option<+T> = None | Some(value: T)

  datatype Result<+T> = Ok(value: T) | Err

  ghost predicate StrictlyIncreasing(s: seq<int>) {
    forall i, j :: 0 <= i < j < |s| ==> s[i] < s[j]
  }

  /** The position of the first element that satisfies `p`, or the length. */
  function FirstWhere<T>(s: seq<T>, p: T -> bool): (k: nat)
    ensures k <= |s|
    ensures k < |s| ==> p(s[k])
    ensures forall i :: 0 <= i < k ==> !p(s[i])
  {
    if s == [] || p(s[0]) then 0
    else
      var k := FirstWhere(s[1..], p);
      assert forall i :: 1 <= i < 1 + k ==> s[i] == s[1..][i - 1];
      1 + k
  }

  /** No two positions hold the same key. */
  ghost predicate DistinctBy<T(!new), K(!new)>(s: seq<T>, key: T -> K) {
    forall i, j :: 0 <= i < j < |s| ==> key(s[i]) != key(s[j])
  }

  /** The key tells any two elements of the set apart. */
  ghost predicate TellsApart<T(!new), K(!new)>(key: T -> K, s: set<T>) {
    forall x, y :: x in s && y in s && x != y ==> key(x) != key(y)
  }

  /** Every element converted, in order, or an error if any of them has none. */
  function MapAll<A, B>(f: A -> Result<B>, s: seq<A>): Result<seq<B>> {
    if s == [] then Ok([])
    else match MapAll(f, s[..|s| - 1])
      case Err => Err
      case Ok(out) =>
        match f(s[|s| - 1])
        case Err => Err
        case Ok(b) => Ok(out + [b])
  }

  lemma {:induction false} MapAllInOrder<A, B>(f: A -> Result<B>, s: seq<A>)
    ensures MapAll(f, s).Ok? <==> forall i :: 0 <= i < |s| ==> f(s[i]).Ok?
    ensures MapAll(f, s).Ok? ==>
      && |MapAll(f, s).value| == |s|
      && forall i :: 0 <= i < |s| ==> f(s[i]) == Ok(MapAll(f, s).value[i])
  {
    if s != [] {
      var n := |s| - 1;
      MapAllInOrder(f, s[..n]);
      assert forall i :: 0 <= i < n ==> s[..n][i] == s[i];
    }
  }

  /** One element more, or the element that fails the whole. */
  lemma MapAllStep<A, B>(f: A -> Result<B>, s: seq<A>, i: nat)
    requires i < |s| && MapAll(f, s[..i]).Ok?
    ensures f(s[i]).Ok? ==> MapAll(f, s[..i + 1]) == Ok(MapAll(f, s[..i]).value + [f(s[i]).value])
    ensures f(s[i]).Err? ==> MapAll(f, s).Err?
  {
    assert s[..i + 1][..i] == s[..i];
    MapAllInOrder(f, s);
  }

  // ------------------------------------------------------------------ first occurrences

  /** Where `x` first occurs, or the length. */
  function PositionOf<T(==)>(s: seq<T>, x: T): (k: nat)
    ensures k <= |s| && (k < |s| ==> s[k] == x) && x !in s[..k] && (k < |s| <==> x in s)
  {
    if s == [] then 0
    else
      var k := PositionOf(s[..|s| - 1], x);
      assert s == s[..|s| - 1] + [s[|s| - 1]];
      if k < |s| - 1 || s[|s| - 1] == x then k else |s|
  }

  /** First occurrences, in order. */
  function Uniq<T(==,!new)>(s: seq<T>): (u: seq<T>)
    ensures |u| <= |s|
    ensures forall x :: x in u <==> x in s
  {
    if s == [] then []
    else
      var u, x := Uniq(s[..|s| - 1]), s[|s| - 1];
      assert forall y :: y in s <==> y in s[..|s| - 1] || y == x;
      if x in u then u else u + [x]
  }

  lemma {:induction false} UniqIsDistinct<T(!new)>(s: seq<T>)
    ensures forall i, j :: 0 <= i < j < |Uniq(s)| ==> Uniq(s)[i] != Uniq(s)[j]
  {
    if s != [] {
      UniqIsDistinct(s[..|s| - 1]);
    }
  }

  lemma {:induction false} UniqOfDistinct<T(!new)>(s: seq<T>)
    requires forall i, j :: 0 <= i < j < |s| ==> s[i] != s[j]
    ensures Uniq(s) == s
  {
    if s != [] {
      UniqOfDistinct(s[..|s| - 1]);
      assert s == s[..|s| - 1] + [s[|s| - 1]];
    }
  }

  lemma UniqSnoc<T(!new)>(s: seq<T>, x: T)
    ensures Uniq(s + [x]) == if x in Uniq(s) then Uniq(s) else Uniq(s) + [x]
  {
    assert (s + [x])[..|s|] == s;
  }

  lemma PositionSnoc<T>(s: seq<T>, x: T, y: T)
    ensures PositionOf(s + [y], x) == if x in s then PositionOf(s, x) else if x == y then |s| else |s| + 1
  {
    assert (s + [y])[..|s|] == s;
  }

  /** What is kept stands in the order in which it first occurred. */
  lemma {:induction false} UniqInOrder<T(!new)>(s: seq<T>, i: nat, j: nat)
    requires i < j < |Uniq(s)|
    ensures PositionOf(s, Uniq(s)[i]) < PositionOf(s, Uniq(s)[j]) < |s|
  {
    var init, x := s[..|s| - 1], s[|s| - 1];
    assert s == init + [x];
    UniqSnoc(init, x);
    PositionSnoc(init, Uniq(s)[i], x);
    PositionSnoc(init, Uniq(s)[j], x);
    if j < |Uniq(init)| {
      UniqInOrder(init, i, j);
    } else {
      assert Uniq(s)[i] in Uniq(init);
    }
  }

  // ------------------------------------------------------------------ lists of lists

  /** Every element's list, one after the other. */
  function FlatMap<A, B>(f: A -> seq<B>, s: seq<A>): seq<B> {
    if s == [] then [] else FlatMap(f, s[..|s| - 1]) + f(s[|s| - 1])
  }

  lemma FlatMapSnoc<A, B>(f: A -> seq<B>, s: seq<A>, x: A)
    ensures FlatMap(f, s + [x]) == FlatMap(f, s) + f(x)
  {
    assert (s + [x])[..|s|] == s;
  }

  lemma FlatMapStep<A, B>(f: A -> seq<B>, s: seq<A>, i: nat)
    requires i < |s|
    ensures FlatMap(f, s[..i + 1]) == FlatMap(f, s[..i]) + f(s[i])
  {
    assert s[..i + 1] == s[..i] + [s[i]];
    FlatMapSnoc(f, s[..i], s[i]);
  }

  lemma Reassociated<T>(a: seq<T>, b: seq<T>, c: seq<T>)
    ensures a + b + c == a + (b + c)
  {
  }

  lemma {:induction false} FlatMapConcat<A, B>(f: A -> seq<B>, a: seq<A>, b: seq<A>)
    ensures FlatMap(f, a + b) == FlatMap(f, a) + FlatMap(f, b)
  {
    if b == [] {
      assert a + b == a;
    } else {
      var m, x := b[..|b| - 1], b[|b| - 1];
      FlatMapConcat(f, a, m);
      FlatMapSnoc(f, a + m, x);
      assert b == m + [x];
      FlatMapSnoc(f, m, x);
      Reassociated(a, m, [x]);
      Reassociated(FlatMap(f, a), FlatMap(f, m), f(x));
    }
  }

  ghost predicate Among<B>(s: seq<B>, y: B) { y in s }

  lemma {:induction false} FlatMapHas<A, B>(f: A -> seq<B>, s: seq<A>, y: B)
    ensures y in FlatMap(f, s) <==> exists i :: 0 <= i < |s| && Among(f(s[i]), y)
  {
    if s != [] {
      var m, x := s[..|s| - 1], s[|s| - 1];
      FlatMapHas(f, m, y);
      assert s == m + [x];
      if i :| 0 <= i < |m| && Among(f(m[i]), y) {
        assert Among(f(s[i]), y);
      }
      if i :| 0 <= i < |s| && Among(f(s[i]), y) {
        assert i < |m| ==> Among(f(m[i]), y);
      }
    }
  }
}

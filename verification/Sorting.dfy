/** The array sort every core relies on: a stable sort by a "comes before" relation,
    with the facts its callers need: it permutes, it orders, and when the relation
    tells any two distinct elements apart its result does not depend on the input order. */
module Sorting {

  /** `before` is asymmetric and "not after" is transitive: what a comparator must satisfy. */
  ghost predicate WeakOrder<T(!new)>(before: (T, T) -> bool) {
    && (forall a, b :: before(a, b) ==> !before(b, a))
    && (forall a, b, c :: !before(b, a) && !before(c, b) ==> !before(c, a))
  }

  ghost predicate Ordered<T>(xs: seq<T>, before: (T, T) -> bool) {
    forall i, j :: 0 <= i < j < |xs| ==> !before(xs[j], xs[i])
  }

  /** Any two different elements of `xs` are strictly ordered one way or the other. */
  ghost predicate Separates<T>(xs: seq<T>, before: (T, T) -> bool) {
    forall a, b :: a in xs && b in xs && a != b ==> before(a, b) || before(b, a)
  }

  function Insert<T>(x: T, xs: seq<T>, before: (T, T) -> bool): (r: seq<T>)
    ensures multiset(r) == multiset{x} + multiset(xs)
  {
    if |xs| == 0 || !before(xs[0], x) then
      [x] + xs
    else
      assert xs == [xs[0]] + xs[1..];
      [xs[0]] + Insert(x, xs[1..], before)
  }

  function Sort<T>(xs: seq<T>, before: (T, T) -> bool): (r: seq<T>)
    ensures multiset(r) == multiset(xs)
    ensures |r| == |xs|
  {
    if |xs| == 0 then
      []
    else
      var r := Insert(xs[0], Sort(xs[1..], before), before);
      assert xs == [xs[0]] + xs[1..];
      assert |multiset(r)| == |multiset(xs)|;
      r
  }

  lemma {:induction false} SameElements<T>(xs: seq<T>, ys: seq<T>)
    requires multiset(xs) == multiset(ys)
    ensures forall x :: x in xs <==> x in ys
    ensures |xs| == |ys|
  {
    forall x ensures x in xs <==> x in ys {
      assert x in multiset(xs) <==> x in multiset(ys);
    }
    assert |multiset(xs)| == |multiset(ys)|;
  }

  /** The elements of `xs` that are neither before nor after `a`, in order. */
  function Ties<T>(xs: seq<T>, a: T, before: (T, T) -> bool): seq<T> {
    if |xs| == 0 then []
    else (if !before(xs[0], a) && !before(a, xs[0]) then [xs[0]] else []) + Ties(xs[1..], a, before)
  }

  lemma {:induction false} InsertStable<T(!new)>(x: T, xs: seq<T>, a: T, before: (T, T) -> bool)
    requires WeakOrder(before)
    ensures Ties(Insert(x, xs, before), a, before) == Ties([x] + xs, a, before)
    decreases |xs|
  {
    assert ([x] + xs)[1..] == xs;
    if |xs| > 0 && before(xs[0], x) {
      InsertStable(x, xs[1..], a, before);
      assert Insert(x, xs, before)[1..] == Insert(x, xs[1..], before);
      assert ([x] + xs[1..])[1..] == xs[1..];
    }
  }

  /** Sorting is stable: elements that tie stay in input order. */
  lemma {:induction false} SortStable<T(!new)>(xs: seq<T>, a: T, before: (T, T) -> bool)
    requires WeakOrder(before)
    ensures Ties(Sort(xs, before), a, before) == Ties(xs, a, before)
    decreases |xs|
  {
    if |xs| > 0 {
      var rest := Sort(xs[1..], before);
      SortStable(xs[1..], a, before);
      InsertStable(xs[0], rest, a, before);
      assert ([xs[0]] + rest)[1..] == rest;
    }
  }

  lemma {:induction false} InsertOrdered<T(!new)>(x: T, xs: seq<T>, before: (T, T) -> bool)
    requires WeakOrder(before) && Ordered(xs, before)
    ensures Ordered(Insert(x, xs, before), before)
  {
    var r := Insert(x, xs, before);
    if |xs| == 0 {
    } else if !before(xs[0], x) {
      forall i, j | 0 <= i < j < |r| ensures !before(r[j], r[i]) {
        if i == 0 {
          assert r[j] == xs[j - 1];
        }
      }
    } else {
      var t := Insert(x, xs[1..], before);
      InsertOrdered(x, xs[1..], before);
      forall i, j | 0 <= i < j < |r| ensures !before(r[j], r[i]) {
        if i == 0 {
          assert r[j] == t[j - 1];
          assert r[j] in multiset(t);
          assert r[j] == x || r[j] in xs[1..];
        } else {
          assert r[i] == t[i - 1] && r[j] == t[j - 1];
        }
      }
    }
  }

  lemma {:induction false} SortOrdered<T(!new)>(xs: seq<T>, before: (T, T) -> bool)
    requires WeakOrder(before)
    ensures Ordered(Sort(xs, before), before)
  {
    if |xs| > 0 {
      SortOrdered(xs[1..], before);
      InsertOrdered(xs[0], Sort(xs[1..], before), before);
    }
  }

  /** The first element of an ordered sequence is determined by its elements. */
  lemma {:induction false} SameHead<T>(xs: seq<T>, ys: seq<T>, before: (T, T) -> bool)
    requires multiset(xs) == multiset(ys) && |xs| > 0
    requires Ordered(xs, before) && Ordered(ys, before) && Separates(xs, before)
    ensures |ys| > 0 && xs[0] == ys[0]
  {
    SameElements(xs, ys);
    assert ys[0] in xs && xs[0] in ys;
    var i :| 0 <= i < |xs| && xs[i] == ys[0];
    var j :| 0 <= j < |ys| && ys[j] == xs[0];
  }

  lemma {:induction false} TailElements<T>(xs: seq<T>)
    requires |xs| > 0
    ensures multiset(xs[1..]) == multiset(xs) - multiset{xs[0]}
  {
    assert xs == [xs[0]] + xs[1..];
  }

  /** Two ordered arrangements of the same elements are the same sequence. */
  lemma {:induction false} OrderedUnique<T>(xs: seq<T>, ys: seq<T>, before: (T, T) -> bool)
    requires multiset(xs) == multiset(ys)
    requires Ordered(xs, before) && Ordered(ys, before) && Separates(xs, before)
    ensures xs == ys
  {
    if |xs| == 0 {
      SameElements(xs, ys);
    } else {
      SameHead(xs, ys, before);
      TailElements(xs);
      TailElements(ys);
      OrderedUnique(xs[1..], ys[1..], before);
    }
  }

  /** Sorting forgets the input order. */
  lemma {:induction false} SortCanonical<T(!new)>(xs: seq<T>, ys: seq<T>, before: (T, T) -> bool)
    requires WeakOrder(before) && multiset(xs) == multiset(ys) && Separates(xs, before)
    ensures Sort(xs, before) == Sort(ys, before)
  {
    SortOrdered(xs, before);
    SortOrdered(ys, before);
    SameElements(xs, Sort(xs, before));
    OrderedUnique(Sort(xs, before), Sort(ys, before), before);
  }

  /** A sequence already in order is left as it is. */
  lemma {:induction false} SortFixpoint<T>(xs: seq<T>, before: (T, T) -> bool)
    requires Ordered(xs, before)
    ensures Sort(xs, before) == xs
  {
    if |xs| > 0 {
      SortFixpoint(xs[1..], before);
      if |xs| > 1 { assert xs[1..][0] == xs[1]; }
      assert xs == [xs[0]] + xs[1..];
    }
  }

  // ---------- distinct keys survive reordering ----------

  ghost predicate DistinctBy<T, K>(xs: seq<T>, key: T -> K) {
    forall i, j :: 0 <= i < j < |xs| ==> key(xs[i]) != key(xs[j])
  }

  lemma {:induction false} TwiceIn<T>(xs: seq<T>, i: nat, j: nat)
    requires i < j < |xs| && xs[i] == xs[j]
    ensures multiset(xs)[xs[i]] >= 2
  {
    assert xs == xs[..i] + [xs[i]] + xs[i + 1..j] + [xs[j]] + xs[j + 1..];
  }

  lemma {:induction false} OnceIn<T>(xs: seq<T>, x: T)
    requires forall i, j :: 0 <= i < j < |xs| ==> xs[i] != xs[j]
    ensures multiset(xs)[x] <= 1
  {
    if |xs| > 0 {
      assert xs == [xs[0]] + xs[1..];
      OnceIn(xs[1..], x);
      if x == xs[0] { assert x !in xs[1..]; }
    }
  }

  lemma {:induction false} DistinctByPermutes<T, K>(xs: seq<T>, ys: seq<T>, key: T -> K)
    requires multiset(xs) == multiset(ys) && DistinctBy(xs, key)
    ensures DistinctBy(ys, key)
  {
    SameElements(xs, ys);
    forall i, j | 0 <= i < j < |ys| ensures key(ys[i]) != key(ys[j]) {
      if ys[i] == ys[j] {
        TwiceIn(ys, i, j);
        OnceIn(xs, ys[i]);
        assert false;
      } else {
        assert ys[i] in xs && ys[j] in xs;
        var a :| 0 <= a < |xs| && xs[a] == ys[i];
        var c :| 0 <= c < |xs| && xs[c] == ys[j];
      }
    }
  }
}

/** Sorting by a comparison: what comes out has the same elements in order, and for a strict order there is only one
    such list. */
module Sorting {
  /** Puts an element in its place, behind those it does not precede. */
  function Insert<T>(less: (T, T) -> bool, xs: seq<T>, x: T): (r: seq<T>)
    ensures |r| == |xs| + 1
  {
    if xs == [] || less(x, xs[0]) then [x] + xs else [xs[0]] + Insert(less, xs[1..], x)
  }

  function Arranged<T>(less: (T, T) -> bool, xs: seq<T>): (r: seq<T>)
    ensures |r| == |xs|
  {
    if xs == [] then [] else Insert(less, Arranged(less, xs[..|xs| - 1]), xs[|xs| - 1])
  }

  /** On these elements less is asymmetric, and being not less is transitive. */
  ghost predicate OrderOn<T>(less: (T, T) -> bool, xs: seq<T>) {
    forall x, y, z :: x in xs && y in xs && z in xs ==>
      (less(x, y) ==> !less(y, x)) && (!less(y, x) && !less(z, y) ==> !less(z, x))
  }

  ghost predicate SortedBy<T>(less: (T, T) -> bool, xs: seq<T>) {
    forall i, j :: 0 <= i < j < |xs| ==> !less(xs[j], xs[i])
  }

  ghost predicate Strictly<T>(less: (T, T) -> bool, xs: seq<T>) {
    forall i, j :: 0 <= i < j < |xs| ==> less(xs[i], xs[j])
  }

  ghost predicate NoTwice<T>(xs: seq<T>) {
    forall i, j :: 0 <= i < j < |xs| ==> xs[i] != xs[j]
  }

  // ---------------------------------------------------------------- the same elements

  lemma {:induction false} InsertAdds<T>(less: (T, T) -> bool, xs: seq<T>, x: T)
    ensures multiset(Insert(less, xs, x)) == multiset(xs) + multiset{x}
  {
    if xs != [] && !less(x, xs[0]) {
      InsertAdds(less, xs[1..], x);
      assert xs == [xs[0]] + xs[1..];
    }
  }

  lemma {:induction false} ArrangedSame<T>(less: (T, T) -> bool, xs: seq<T>)
    ensures multiset(Arranged(less, xs)) == multiset(xs)
  {
    if xs != [] {
      var n := |xs| - 1;
      ArrangedSame(less, xs[..n]);
      InsertAdds(less, Arranged(less, xs[..n]), xs[n]);
      assert xs == xs[..n] + [xs[n]];
    }
  }

  lemma SameMember<T>(xs: seq<T>, ys: seq<T>, x: T)
    requires multiset(xs) == multiset(ys)
    ensures x in xs <==> x in ys
  {
    assert x in xs <==> x in multiset(xs);
    assert x in ys <==> x in multiset(ys);
  }

  lemma {:induction false} OnceInBag<T>(xs: seq<T>)
    requires NoTwice(xs)
    ensures forall x :: multiset(xs)[x] <= 1
  {
    if xs != [] {
      var init, x := xs[..|xs| - 1], xs[|xs| - 1];
      OnceInBag(init);
      assert xs == init + [x];
      assert forall i :: 0 <= i < |init| ==> init[i] == xs[i] != x;
      assert multiset(init)[x] == 0;
    }
  }

  lemma BagHasOnce<T>(xs: seq<T>)
    requires forall x :: multiset(xs)[x] <= 1
    ensures NoTwice(xs)
  {
    forall i, j | 0 <= i < j < |xs|
      ensures xs[i] != xs[j]
    {
      assert xs == xs[..j] + xs[j..];
      assert xs[..j][i] == xs[i] && xs[j..][0] == xs[j];
      assert multiset(xs[..j])[xs[i]] >= 1 && multiset(xs[j..])[xs[j]] >= 1;
      assert multiset(xs) == multiset(xs[..j]) + multiset(xs[j..]);
      assert multiset(xs)[xs[i]] <= 1;
    }
  }

  lemma StillOnce<T>(xs: seq<T>, ys: seq<T>)
    requires multiset(xs) == multiset(ys) && NoTwice(xs)
    ensures NoTwice(ys)
  {
    OnceInBag(xs);
    BagHasOnce(ys);
  }

  // ---------------------------------------------------------------- in order

  lemma {:induction false} InsertKeepsOrder<T>(less: (T, T) -> bool, xs: seq<T>, x: T)
    requires OrderOn(less, xs + [x]) && SortedBy(less, xs)
    ensures SortedBy(less, Insert(less, xs, x))
  {
    if xs != [] {
      assert forall y :: y in xs + [x] <==> y in xs || y == x;
      var rest := xs[1..];
      if less(x, xs[0]) {
        forall j | 0 <= j < |xs|
          ensures !less(xs[j], x)
        {
          assert xs[j] in xs && xs[0] in xs;
          assert j > 0 ==> !less(xs[j], xs[0]);
        }
      } else {
        assert forall y :: y in rest + [x] ==> y in xs + [x];
        InsertKeepsOrder(less, rest, x);
        InsertAdds(less, rest, x);
        var r := Insert(less, rest, x);
        forall j | 0 <= j < |r|
          ensures !less(r[j], xs[0])
        {
          assert r[j] in multiset(r) && (r[j] in rest || r[j] == x);
        }
      }
    }
  }

  lemma {:induction false} ArrangedSorted<T>(less: (T, T) -> bool, xs: seq<T>)
    requires OrderOn(less, xs)
    ensures SortedBy(less, Arranged(less, xs))
  {
    if xs != [] {
      var init, x := xs[..|xs| - 1], xs[|xs| - 1];
      ArrangedSorted(less, init);
      ArrangedSame(less, init);
      var r := Arranged(less, init);
      forall y | y in r + [x]
        ensures y in xs
      {
        SameMember(init, r, y);
      }
      InsertKeepsOrder(less, r, x);
    }
  }

  /** Where different elements always compare, the sorted list ascends strictly. */
  lemma ArrangedStrictly<T>(less: (T, T) -> bool, xs: seq<T>)
    requires OrderOn(less, xs) && NoTwice(xs)
    requires forall x, y :: x in xs && y in xs && x != y ==> less(x, y) || less(y, x)
    ensures Strictly(less, Arranged(less, xs))
  {
    var r := Arranged(less, xs);
    ArrangedSorted(less, xs);
    ArrangedSame(less, xs);
    StillOnce(xs, r);
    forall i, j | 0 <= i < j < |r|
      ensures less(r[i], r[j])
    {
      SameMember(xs, r, r[i]);
      SameMember(xs, r, r[j]);
    }
  }

  /** Two lists of the same elements that both ascend strictly are the same list. */
  lemma {:induction false} SortedOnce<T>(less: (T, T) -> bool, xs: seq<T>, ys: seq<T>)
    requires Strictly(less, xs) && Strictly(less, ys) && (forall x :: x in xs <==> x in ys)
    requires forall x, y :: x in xs && y in xs && less(x, y) ==> !less(y, x)
    ensures xs == ys
  {
    if xs == [] {
      if ys != [] { HasMember(ys); }
    } else if ys == [] {
      HasMember(xs);
    } else {
      assert xs[0] in xs && ys[0] in ys;
      var i :| 0 <= i < |ys| && ys[i] == xs[0];
      var j :| 0 <= j < |xs| && xs[j] == ys[0];
      assert xs[0] == ys[0];
      forall x
        ensures x in xs[1..] <==> x in ys[1..]
      {
        TailMembers(less, xs, x);
        TailMembers(less, ys, x);
      }
      SortedOnce(less, xs[1..], ys[1..]);
      assert xs == [xs[0]] + xs[1..] && ys == [ys[0]] + ys[1..];
    }
  }

  lemma HasMember<T>(xs: seq<T>)
    requires xs != []
    ensures exists x :: x in xs
  {
    assert xs[0] in xs;
  }

  lemma TailMembers<T>(less: (T, T) -> bool, xs: seq<T>, x: T)
    requires Strictly(less, xs) && xs != [] && forall y, z :: y in xs && z in xs && less(y, z) ==> !less(z, y)
    ensures x in xs[1..] <==> x in xs && x != xs[0]
  {
    if x in xs[1..] {
      var i :| 0 < i < |xs| && xs[i] == x;
      assert less(xs[0], xs[i]) && xs[0] in xs;
    }
  }
}

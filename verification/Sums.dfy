/** Sums over sets, in whatever order they are taken. */
module Sums {
  ghost function SumOver<T(!new)>(xs: set<T>, f: T -> nat): nat {
    if xs == {} then 0
    else
      var x :| x in xs;
      f(x) + SumOver(xs - {x}, f)
  }

  lemma {:induction false} SumAdd<T(!new)>(xs: set<T>, f: T -> nat, x: T)
    requires x !in xs
    ensures SumOver(xs + {x}, f) == SumOver(xs, f) + f(x)
    decreases xs
  {
    var all := xs + {x};
    var y :| y in all && SumOver(all, f) == f(y) + SumOver(all - {y}, f);
    if y == x {
      assert all - {x} == xs;
    } else {
      assert all - {y} == (xs - {y}) + {x} && xs == (xs - {y}) + {y};
      SumAdd(xs - {y}, f, x);
      SumAdd(xs - {y}, f, y);
    }
  }

  lemma {:induction false} SumSame<T(!new)>(xs: set<T>, f: T -> nat, g: T -> nat)
    requires forall x :: x in xs ==> f(x) == g(x)
    ensures SumOver(xs, f) == SumOver(xs, g)
    decreases xs
  {
    if xs != {} {
      var x :| x in xs;
      SumSame(xs - {x}, f, g);
      SumAdd(xs - {x}, f, x);
      SumAdd(xs - {x}, g, x);
      assert xs - {x} + {x} == xs;
    }
  }
}

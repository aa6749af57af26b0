/** Finite directed graphs given as adjacency maps, and the connected classes of symmetric ones. */
module Graphs {
  type Graph<T(==)> = map<T, set<T>>

  /** Every edge ends inside the graph and can be walked back. */
  ghost predicate Symmetric<T(!new)>(g: Graph<T>) {
    forall u, v {:trigger v in g[u]} :: u in g && v in g[u] ==> v in g && u in g[v]
  }

  ghost predicate WalksBack<T>(g: Graph<T>, u: T, v: T) {
    u in g && v in g[u] ==> v in g && u in g[v]
  }

  lemma SymmetricIf<T(!new)>(g: Graph<T>)
    requires forall u, v {:trigger WalksBack(g, u, v)} :: WalksBack(g, u, v)
    ensures Symmetric(g)
  {
    forall u, v | u in g && v in g[u]
      ensures v in g && u in g[v]
    {
      assert WalksBack(g, u, v);
    }
  }

  ghost predicate IsPath<T>(g: Graph<T>, p: seq<T>) {
    && 0 < |p|
    && (forall i :: 0 <= i < |p| ==> p[i] in g)
    && (forall i, j :: 0 <= i && j == i + 1 && j < |p| ==> p[j] in g[p[i]])
  }

  ghost predicate Joins<T>(g: Graph<T>, p: seq<T>, u: T, v: T) {
    IsPath(g, p) && p[0] == u && p[|p| - 1] == v
  }

  ghost predicate Connected<T(!new)>(g: Graph<T>, u: T, v: T) {
    exists p :: Joins(g, p, u, v)
  }

  /** The nodes that can be reached from u. */
  ghost function Component<T(!new)>(g: Graph<T>, u: T): set<T> {
    set v | v in g && Connected(g, u, v)
  }

  lemma Reflexive<T(!new)>(g: Graph<T>, u: T)
    requires u in g
    ensures Connected(g, u, u) && u in Component(g, u)
  {
    assert Joins(g, [u], u, u);
  }

  lemma Edge<T(!new)>(g: Graph<T>, u: T, v: T)
    requires u in g && v in g && v in g[u]
    ensures Connected(g, u, v) && v in Component(g, u)
  {
    assert Joins(g, [u, v], u, v);
  }

  lemma Transitive<T(!new)>(g: Graph<T>, u: T, v: T, w: T)
    requires Connected(g, u, v) && Connected(g, v, w)
    ensures Connected(g, u, w)
  {
    var p :| Joins(g, p, u, v);
    var q :| Joins(g, q, v, w);
    var r := p + q[1..];
    forall i, j | 0 <= i && j == i + 1 && j < |r|
      ensures r[j] in g[r[i]]
    {
      if i >= |p| - 1 {
        var k := i - (|p| - 1);
        assert r[i] == q[k] && r[j] == q[k + 1];
      }
    }
    assert Joins(g, r, u, w);
  }

  lemma {:induction false} Reversed<T(!new)>(g: Graph<T>, p: seq<T>, u: T, v: T)
    requires Symmetric(g) && Joins(g, p, u, v)
    ensures Connected(g, v, u)
    decreases |p|
  {
    if |p| == 1 {
      Reflexive(g, u);
    } else {
      var rest := p[1..];
      assert IsPath(g, rest) by {
        forall i, j | 0 <= i && j == i + 1 && j < |rest|
          ensures rest[j] in g[rest[i]]
        {
          assert rest[j] == p[j + 1] && rest[i] == p[i + 1];
        }
      }
      assert p[1] in g[p[0]];
      Reversed(g, rest, p[1], v);
      Edge(g, p[1], u);
      Transitive(g, v, p[1], u);
    }
  }

  lemma Back<T(!new)>(g: Graph<T>, u: T, v: T)
    requires Symmetric(g) && Connected(g, u, v)
    ensures Connected(g, v, u)
  {
    var p :| Joins(g, p, u, v);
    Reversed(g, p, u, v);
  }

  /** Connected nodes have the same class. */
  lemma SameComponent<T(!new)>(g: Graph<T>, u: T, v: T)
    requires Symmetric(g) && v in Component(g, u)
    ensures Component(g, u) == Component(g, v)
  {
    Back(g, u, v);
    forall w
      ensures w in Component(g, u) <==> w in Component(g, v)
    {
      if w in g {
        if Connected(g, u, w) { Transitive(g, v, u, w); }
        if Connected(g, v, w) { Transitive(g, u, v, w); }
      }
    }
  }

  /** Classes are equal or disjoint. */
  lemma Partition<T(!new)>(g: Graph<T>, u: T, v: T)
    requires Symmetric(g) && u in g && v in g
    ensures v in Component(g, u) ==> Component(g, u) == Component(g, v)
    ensures v !in Component(g, u) ==> Component(g, u) !! Component(g, v)
  {
    if v in Component(g, u) {
      SameComponent(g, u, v);
    } else if w :| w in Component(g, u) && w in Component(g, v) {
      SameComponent(g, u, w);
      SameComponent(g, v, w);
      Reflexive(g, v);
    }
  }

  /** A set that contains u and is closed under edges contains everything reachable from u. */
  lemma {:induction false} PathStays<T(!new)>(g: Graph<T>, p: seq<T>, s: set<T>)
    requires IsPath(g, p) && p[0] in s
    requires forall x :: x in s && x in g ==> g[x] <= s
    ensures p[|p| - 1] in s
    decreases |p|
  {
    if |p| > 1 {
      PathStays(g, p[..|p| - 1], s);
      assert p[|p| - 1] in g[p[|p| - 2]];
    }
  }

  lemma Least<T(!new)>(g: Graph<T>, u: T, s: set<T>)
    requires u in s && forall x :: x in s && x in g ==> g[x] <= s
    ensures Component(g, u) <= s
  {
    forall v | v in Component(g, u)
      ensures v in s
    {
      var p :| Joins(g, p, u, v);
      PathStays(g, p, s);
    }
  }

  /** A class is closed under edges. */
  lemma ComponentClosed<T(!new)>(g: Graph<T>, u: T, x: T)
    requires Symmetric(g) && x in Component(g, u)
    ensures g[x] <= Component(g, u)
  {
    forall y | y in g[x]
      ensures y in Component(g, u)
    {
      Edge(g, x, y);
      Transitive(g, u, x, y);
    }
  }

  /** Changing a symmetric graph outside a class of u, without touching that class, keeps the class. */
  lemma ComponentFrame<T(!new)>(g: Graph<T>, h: Graph<T>, u: T)
    requires Symmetric(g) && Symmetric(h) && u in g
    requires forall x :: x in Component(g, u) ==> x in h && h[x] == g[x]
    ensures Component(h, u) == Component(g, u)
  {
    Reflexive(g, u);
    forall x | x in Component(g, u) && x in h
      ensures h[x] <= Component(g, u)
    {
      ComponentClosed(g, u, x);
    }
    Least(h, u, Component(g, u));
    Reflexive(h, u);
    forall x | x in Component(h, u) && x in g
      ensures g[x] <= Component(h, u)
    {
      ComponentClosed(h, u, x);
    }
    Least(g, u, Component(h, u));
  }

  /** The graph with one more undirected edge. */
  ghost function Linked<T>(g: Graph<T>, a: T, b: T): Graph<T>
    requires a in g && b in g
  {
    var h := g[a := g[a] + {b}];
    h[b := h[b] + {a}]
  }

  /** Adding an edge merges the classes of its ends and leaves every other class alone. */
  lemma LinkedComponent<T(!new)>(g: Graph<T>, a: T, b: T, u: T)
    requires Symmetric(g) && a in g && b in g && u in g
    ensures Symmetric(Linked(g, a, b))
    ensures Component(Linked(g, a, b), u) ==
            if u in Component(g, a) + Component(g, b) then Component(g, a) + Component(g, b) else Component(g, u)
  {
    var h := Linked(g, a, b);
    var merged := Component(g, a) + Component(g, b);
    Reflexive(g, a);
    Reflexive(g, b);
    assert forall x :: x in g ==> x in h && g[x] <= h[x];
    if u in merged {
      forall x | x in merged && x in h
        ensures h[x] <= merged
      {
        if x in Component(g, a) { ComponentClosed(g, a, x); } else { ComponentClosed(g, b, x); }
      }
      Least(h, u, merged);
      Lifts(g, h, a);
      Lifts(g, h, b);
      Edge(h, a, b);
      Edge(h, b, a);
      SameComponent(h, a, b);
      SameComponent(h, a, u);
    } else {
      Partition(g, u, a);
      Partition(g, u, b);
      if a in Component(g, u) { Back(g, u, a); }
      if b in Component(g, u) { Back(g, u, b); }
      ComponentFrame(g, h, u);
    }
  }

  /** More edges only enlarge a class. */
  lemma Lifts<T(!new)>(g: Graph<T>, h: Graph<T>, u: T)
    requires Symmetric(h) && u in g
    requires forall x :: x in g ==> x in h && g[x] <= h[x]
    ensures Component(g, u) <= Component(h, u)
  {
    Reflexive(h, u);
    forall x | x in Component(h, u) && x in g
      ensures g[x] <= Component(h, u)
    {
      ComponentClosed(h, u, x);
    }
    Least(g, u, Component(h, u));
  }
}

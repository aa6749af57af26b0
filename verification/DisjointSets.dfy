/** The union-find structure behind the field graph: path compression, union by size. */
module DisjointSets {
  import opened Tiles
  import opened Graphs
  import opened Powers

  /** x hangs below its root: ranks strictly grow along parent links. */
  ghost predicate Hangs<T>(parent: map<T, T>, root: map<T, T>, rank: map<T, nat>, x: T) {
    && x in parent && x in root && x in rank
    && parent[x] in parent && parent[x] in root && parent[x] in rank
    && root[x] in parent && root[x] in rank
    && parent[root[x]] == root[x] && root[parent[x]] == root[x]
    && rank[x] <= rank[root[x]]
    && (if parent[x] == x then root[x] == x else rank[x] < rank[parent[x]])
  }

  /** Parent links form trees, and root names the root of each element. */
  ghost predicate Forest<T(!new)>(parent: map<T, T>, root: map<T, T>, rank: map<T, nat>) {
    && root.Keys == parent.Keys && rank.Keys == parent.Keys
    && forall x {:trigger Hangs(parent, root, rank, x)} :: x in parent ==> Hangs(parent, root, rank, x)
  }

  ghost function Members<T>(root: map<T, T>, r: T): set<T> {
    set x | x in root && root[x] == r
  }

  /** The size of a root counts its tree; a tree of rank k has at least 2^k elements. */
  ghost predicate Counted<T>(root: map<T, T>, rank: map<T, nat>, size: map<T, nat>, r: T) {
    r in size && r in rank && size[r] == |Members(root, r)| && Pow2(rank[r]) <= size[r]
  }

  /** size has exactly the roots as keys. */
  ghost predicate Sizes<T(!new)>(parent: map<T, T>, root: map<T, T>, rank: map<T, nat>, size: map<T, nat>) {
    && (forall r :: r in size <==> r in parent && parent[r] == r)
    && (forall r {:trigger Counted(root, rank, size, r)} :: r in size ==> Counted(root, rank, size, r))
  }

  ghost predicate Joined<T(!new)>(root: map<T, T>, links: Graph<T>, x: T) {
    x in root && Component(links, x) == Members(root, root[x])
  }

  /** Two elements are in one tree exactly when a chain of unions joins them. */
  ghost predicate Agrees<T(!new)>(root: map<T, T>, links: Graph<T>) {
    && links.Keys == root.Keys && Symmetric(links)
    && forall x {:trigger Joined(root, links, x)} :: x in root ==> Joined(root, links, x)
  }

  ghost function Hops<T(!new)>(parent: map<T, T>, root: map<T, T>, rank: map<T, nat>, x: T): nat
    requires Forest(parent, root, rank) && x in parent
    decreases assert Hangs(parent, root, rank, x); rank[root[x]] - rank[x]
  {
    assert Hangs(parent, root, rank, x);
    assert Hangs(parent, root, rank, parent[x]);
    if parent[x] == x then 0 else 1 + Hops(parent, root, rank, parent[x])
  }

  /** The number of parent steps find takes is at most log2 of the size of the tree. */
  lemma {:induction false} HopsLogarithmic<T(!new)>(parent: map<T, T>, root: map<T, T>, rank: map<T, nat>,
                                                    size: map<T, nat>, x: T)
    requires Forest(parent, root, rank) && Sizes(parent, root, rank, size) && x in parent
    ensures Pow2(Hops(parent, root, rank, x)) <= |Members(root, root[x])|
  {
    assert Hangs(parent, root, rank, x);
    HopsBelowRank(parent, root, rank, x);
    Pow2Monotonic(Hops(parent, root, rank, x), rank[root[x]]);
    assert Hangs(parent, root, rank, root[x]);
    assert Counted(root, rank, size, root[x]);
  }

  lemma {:induction false} HopsBelowRank<T(!new)>(parent: map<T, T>, root: map<T, T>, rank: map<T, nat>, x: T)
    requires Forest(parent, root, rank) && x in parent
    ensures rank[x] + Hops(parent, root, rank, x) <= rank[root[x]]
    decreases assert Hangs(parent, root, rank, x); rank[root[x]] - rank[x]
  {
    assert Hangs(parent, root, rank, x);
    assert Hangs(parent, root, rank, parent[x]);
    if parent[x] != x { HopsBelowRank(parent, root, rank, parent[x]); }
  }

  /** The graph with one more isolated node. */
  ghost function WithNode<T>(g: Graph<T>, x: T): Graph<T> {
    if x in g then g else g[x := {}]
  }

  lemma WithNodeComponents<T(!new)>(g: Graph<T>, x: T, y: T)
    requires Symmetric(g) && x !in g && y in WithNode(g, x)
    ensures Symmetric(WithNode(g, x))
    ensures Component(WithNode(g, x), y) == if y == x then {x} else Component(g, y)
  {
    var h := WithNode(g, x);
    Reflexive(h, y);
    if y == x {
      Least(h, x, {x});
    } else {
      ComponentFrame(g, h, y);
    }
  }

  lemma AddedForest<T(!new)>(parent: map<T, T>, root: map<T, T>, rank: map<T, nat>, size: map<T, nat>, x: T)
    requires Forest(parent, root, rank) && Sizes(parent, root, rank, size) && x !in parent
    ensures Forest(parent[x := x], root[x := x], rank[x := 0])
    ensures Sizes(parent[x := x], root[x := x], rank[x := 0], size[x := 1])
  {
    var parent' := parent[x := x];
    forall y | y in parent'
      ensures Hangs(parent[x := x], root[x := x], rank[x := 0], y)
    {
      assert y != x ==> Hangs(parent, root, rank, y);
    }
    var size' := size[x := 1];
    forall y | y in root
      ensures root[y] != x
    {
      assert Hangs(parent, root, rank, y);
    }
    assert Members(root[x := x], x) == {x};
    forall r | r in size'
      ensures Counted(root[x := x], rank[x := 0], size', r)
    {
      if r != x {
        assert Counted(root, rank, size, r);
        assert Members(root[x := x], r) == Members(root, r);
      }
    }
  }

  lemma AddedAgrees<T(!new)>(root: map<T, T>, links: Graph<T>, x: T)
    requires Agrees(root, links) && x !in root && forall y :: y in root ==> root[y] != x
    ensures Agrees(root[x := x], WithNode(links, x))
  {
    var root' := root[x := x];
    forall y | y in root'
      ensures Joined(root', WithNode(links, x), y)
    {
      WithNodeComponents(links, x, y);
      assert y != x ==> Joined(root, links, y);
      assert Members(root[x := x], root[x := x][y]) == if y == x then {x} else Members(root, root[y]);
    }
    WithNodeComponents(links, x, x);
  }

  /** Hanging the tree of root s below root r. */
  ghost function Rerooted<T>(root: map<T, T>, r: T, s: T): map<T, T> {
    map x | x in root :: if root[x] == s then r else root[x]
  }

  ghost function Raised<T>(rank: map<T, nat>, r: T, s: T): map<T, nat>
    requires r in rank && s in rank
  {
    rank[r := if rank[r] <= rank[s] then rank[s] + 1 else rank[r]]
  }

  lemma RerootedHangs<T>(parent: map<T, T>, root: map<T, T>, rank: map<T, nat>, r: T, s: T, x: T)
    requires root.Keys == parent.Keys && rank.Keys == parent.Keys
    requires r in parent && s in parent && r != s && parent[r] == r && parent[s] == s
    requires Hangs(parent, root, rank, r) && Hangs(parent, root, rank, s) && Hangs(parent, root, rank, x)
    ensures Hangs(parent[s := r], Rerooted(root, r, s), Raised(rank, r, s), x)
  {
    var root' := Rerooted(root, r, s);
    assert root'[r] == r && root'[s] == r;
    assert root'[x] == if root[x] == s then r else root[x];
    assert x != s ==> root'[parent[x]] == root'[x];
  }

  lemma RerootedForest<T(!new)>(parent: map<T, T>, root: map<T, T>, rank: map<T, nat>, r: T, s: T)
    requires Forest(parent, root, rank) && r in parent && s in parent && r != s && parent[r] == r && parent[s] == s
    ensures Forest(parent[s := r], Rerooted(root, r, s), Raised(rank, r, s))
  {
    assert Hangs(parent, root, rank, r) && Hangs(parent, root, rank, s);
    forall x | x in parent
      ensures Hangs(parent[s := r], Rerooted(root, r, s), Raised(rank, r, s), x)
    {
      assert Hangs(parent, root, rank, x);
      RerootedHangs(parent, root, rank, r, s, x);
    }
  }

  /** Pointing an element straight at its root keeps the forest. */
  lemma Compressed<T(!new)>(parent: map<T, T>, root: map<T, T>, rank: map<T, nat>, x: T)
    requires Forest(parent, root, rank) && x in parent && parent[x] != x
    ensures Forest(parent[x := root[x]], root, rank)
  {
    assert Hangs(parent, root, rank, x);
    assert Hangs(parent, root, rank, parent[x]);
    assert Hangs(parent, root, rank, root[x]);
    forall y | y in parent
      ensures Hangs(parent[x := root[x]], root, rank, y)
    {
      assert Hangs(parent, root, rank, y);
    }
  }

  lemma RerootedSizes<T(!new)>(parent: map<T, T>, root: map<T, T>, rank: map<T, nat>, size: map<T, nat>, r: T, s: T)
    requires Forest(parent, root, rank) && Sizes(parent, root, rank, size)
    requires r in size && s in size && r != s && size[s] <= size[r]
    ensures Forest(parent[s := r], Rerooted(root, r, s), Raised(rank, r, s))
    ensures Sizes(parent[s := r], Rerooted(root, r, s), Raised(rank, r, s), size[r := size[r] + size[s]] - {s})
  {
    RerootedForest(parent, root, rank, r, s);
    var root' := Rerooted(root, r, s);
    assert Members(root', r) == Members(root, r) + Members(root, s);
    assert Members(root, r) !! Members(root, s);
    assert Counted(root, rank, size, r) && Counted(root, rank, size, s);
    var size' := size[r := size[r] + size[s]] - {s};
    forall t | t in size'
      ensures Counted(root', Raised(rank, r, s), size', t)
    {
      assert Counted(root, rank, size, t);
      if t != r {
        assert Members(root', t) == Members(root, t);
      }
    }
  }

  lemma RerootedAgrees<T(!new)>(root: map<T, T>, links: Graph<T>, a: T, b: T, r: T, s: T)
    requires Agrees(root, links) && a in root && b in root
    requires (root[a] == r && root[b] == s) || (root[a] == s && root[b] == r)
    ensures Agrees(Rerooted(root, r, s), Linked(links, a, b))
  {
    var root' := Rerooted(root, r, s);
    var merged := Component(links, a) + Component(links, b);
    assert Joined(root, links, a) && Joined(root, links, b);
    assert merged == Members(root, r) + Members(root, s) == Members(root', r);
    LinkedComponent(links, a, b, a);
    forall x | x in root
      ensures Joined(root', Linked(links, a, b), x)
    {
      LinkedComponent(links, a, b, x);
      assert Joined(root, links, x);
      if x !in merged {
        assert Members(root', root[x]) == Members(root, root[x]);
      }
    }
  }

  /** After any history of additions, lookups and unions, two elements have one root
      exactly when the unions made so far connect them. */
  lemma SameTree<T(!new)>(root: map<T, T>, links: Graph<T>, x: T, y: T)
    requires Agrees(root, links) && x in root && y in root
    ensures root[x] == root[y] <==> Connected(links, x, y)
  {
    assert Joined(root, links, x);
    assert y in Members(root, root[x]) <==> y in Component(links, x);
  }

  class DisjointSet<T(==, !new)> {
    var parent: map<T, T>
    var size: map<T, nat>
    ghost var root: map<T, T>
    ghost var rank: map<T, nat>
    ghost var links: Graph<T>

    ghost predicate Valid()
      reads this
    {
      && Forest(parent, root, rank)
      && Sizes(parent, root, rank, size)
      && Agrees(root, links)
    }

    constructor ()
      ensures Valid() && links == map[]
    {
      parent, size := map[], map[];
      root, rank, links := map[], map[], map[];
    }

    method Add(x: T)
      requires Valid()
      modifies this
      ensures Valid() && links == WithNode(old(links), x)
    {
      if x in parent {
        return;
      }
      AddedForest(parent, root, rank, size, x);
      forall y | y in root
        ensures root[y] != x
      {
        assert Hangs(parent, root, rank, y);
      }
      AddedAgrees(root, links, x);
      parent, size := parent[x := x], size[x := 1];
      root, rank, links := root[x := x], rank[x := 0], links[x := {}];
    }

    /** Finds the root and compresses the path; the classes stay as they are. */
    method Find(x: T) returns (r: Option<T>)
      requires Valid()
      modifies this`parent
      ensures Valid() && parent.Keys == old(parent.Keys)
      ensures r == if x in root then Some(root[x]) else None
      ensures forall y :: y in parent ==> parent[y] == old(parent[y]) || parent[y] == root[y]
      decreases if x in root && x in rank && root[x] in rank then rank[root[x]] as int - rank[x] as int else 0
    {
      if x !in parent {
        return None;
      }
      assert Hangs(parent, root, rank, x);
      var p := parent[x];
      if p == x {
        return Some(x);
      }
      assert Hangs(parent, root, rank, p);
      var found := Find(p);
      Compressed(parent, root, rank, x);
      parent := parent[x := found.value];
      return found;
    }

    /** Merges the classes of a and b, adding them first when they are new. */
    method Union(a: T, b: T)
      requires Valid()
      modifies this
      ensures Valid() && links == Linked(WithNode(WithNode(old(links), a), b), a, b)
    {
      Add(a);
      Add(b);
      assert Hangs(parent, root, rank, a) && Hangs(parent, root, rank, b);
      var rootA := Find(a);
      var rootB := Find(b);
      Merge(rootA.value, rootB.value, a, b);
    }

    method Merge(r: T, s: T, ghost a: T, ghost b: T)
      requires Valid() && r in size && s in size && a in root && b in root && root[a] == r && root[b] == s
      modifies this
      ensures Valid() && links == Linked(old(links), a, b)
    {
      if r == s {
        RerootedAgrees(root, links, a, b, r, s);
        assert Rerooted(root, r, s) == root;
        links := Linked(links, a, b);
      } else if size[r] < size[s] {
        Attach(s, r, a, b);
      } else {
        Attach(r, s, a, b);
      }
    }

    /** Hangs the smaller tree s below r and records that a and b are now joined. */
    method Attach(r: T, s: T, ghost a: T, ghost b: T)
      requires Valid() && r in size && s in size && r != s && size[s] <= size[r] && a in root && b in root
      requires (root[a] == r && root[b] == s) || (root[a] == s && root[b] == r)
      modifies this
      ensures Valid() && links == Linked(old(links), a, b)
    {
      RerootedSizes(parent, root, rank, size, r, s);
      RerootedAgrees(root, links, a, b, r, s);
      parent := parent[s := r];
      size := size[r := size[r] + size[s]] - {s};
      rank := Raised(rank, r, s);
      root, links := Rerooted(root, r, s), Linked(links, a, b);
    }
  }
}

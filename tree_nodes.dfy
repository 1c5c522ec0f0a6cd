/**
 * The value layer of the generic tree (src/main/collection/Tree.js): a node
 * carries a datum and its children in insertion order. A node's identity is
 * its path, the child indexes that lead to it from the node a search starts
 * at; its parent is the node at the path without its last index.
 * Lookups compare data by value equality.
 */
module TreeNodes {
  import opened Wrappers

  /**
   * TreeNode: the datum, the children in insertion order, and whether the
   * node's `parent` reference is set. The synthetic root never has one, and
   * `remove` clears it on the node it found, which may stay in the tree.
   */
  datatype Node<T> = Node(data: T, children: seq<Node<T>>, linked: bool)

  /** The child indexes leading from a node to one of its descendants (or to itself, []). */
  type Path = seq<nat>

  // -----------------------------------------------------------------------
  // Navigation

  predicate ValidPath<T>(n: Node<T>, p: Path)
    decreases p
  {
    p == [] || (p[0] < |n.children| && ValidPath(n.children[p[0]], p[1..]))
  }

  /** The node a path leads to. */
  function At<T>(n: Node<T>, p: Path): Node<T>
    requires ValidPath(n, p)
    decreases p
  {
    if p == [] then n else At(n.children[p[0]], p[1..])
  }

  /** Following `p` and then `s` is following `p + s`. */
  lemma {:induction false} AtConcat<T>(n: Node<T>, p: Path, s: Path)
    ensures ValidPath(n, p + s) <==> ValidPath(n, p) && ValidPath(At(n, p), s)
    ensures ValidPath(n, p + s) ==> ValidPath(n, p) && At(n, p + s) == At(At(n, p), s)
    decreases p
  {
    if p == [] {
      assert p + s == s;
    } else if p[0] >= |n.children| {
      assert (p + s)[0] == p[0];
    } else {
      assert (p + s)[0] == p[0];
      assert (p + s)[1..] == p[1..] + s;
      AtConcat(n.children[p[0]], p[1..], s);
    }
  }

  /** The parent of a node other than the start node is at the path without its last index. */
  lemma ParentPath<T>(n: Node<T>, p: Path)
    requires ValidPath(n, p) && p != []
    ensures ValidPath(n, p[..|p| - 1])
    ensures p[|p| - 1] < |At(n, p[..|p| - 1]).children|
    ensures At(n, p[..|p| - 1]).children[p[|p| - 1]] == At(n, p)
  {
    var pp, i := p[..|p| - 1], p[|p| - 1];
    assert p == pp + [i];
    AtConcat(n, pp, [i]);
  }

  // -----------------------------------------------------------------------
  // find / findAux

  /** findAux(data, node): the node itself if its datum matches, else the first hit among its children. */
  function FindAux<T(==)>(v: T, n: Node<T>): (r: Option<Path>)
    ensures r.Some? ==> ValidPath(n, r.value) && At(n, r.value).data == v
    decreases n, 1
  {
    if n.data == v then Some([]) else FindAmong(v, n, 0)
  }

  /** The loop of findAux from child `i` on: the first child whose subtree holds a hit. */
  function FindAmong<T(==)>(v: T, n: Node<T>, i: nat): (r: Option<Path>)
    ensures r.Some? ==> r.value != [] && i <= r.value[0] && ValidPath(n, r.value) && At(n, r.value).data == v
    decreases n, 0, |n.children| - i
  {
    if i >= |n.children| then None
    else match FindAux(v, n.children[i])
      case Some(q) => Some([i] + q)
      case None => FindAmong(v, n, i + 1)
  }

  /** A search for the start node's own datum (the root's 'root') returns the start node. */
  lemma FindOwnDatum<T>(n: Node<T>)
    ensures FindAux(n.data, n) == Some([])
  {
  }

  /** If some node of the tree carries `v`, findAux finds a node. */
  lemma {:induction false} FindComplete<T>(v: T, n: Node<T>, q: Path)
    requires ValidPath(n, q) && At(n, q).data == v
    ensures FindAux(v, n).Some?
    decreases q
  {
    if q != [] && n.data != v {
      FindComplete(v, n.children[q[0]], q[1..]);
      FindAmongReaches(v, n, 0, q[0]);
    }
  }

  /** The loop of findAux reaches every child from `k` on whose subtree holds a hit. */
  lemma {:induction false} FindAmongReaches<T>(v: T, n: Node<T>, k: nat, i: nat)
    requires k <= i < |n.children| && FindAux(v, n.children[i]).Some?
    ensures FindAmong(v, n, k).Some?
    decreases i - k
  {
    if k < i && FindAux(v, n.children[k]).None? {
      FindAmongReaches(v, n, k + 1, i);
    }
  }

  // -----------------------------------------------------------------------
  // Pre-order: the independent reference for find and listDescendants

  /** The paths below `n` with `i` prepended. */
  function Prefixed(i: nat, ps: seq<Path>): (r: seq<Path>)
    ensures |r| == |ps|
    ensures forall k :: 0 <= k < |ps| ==> r[k] == [i] + ps[k]
  {
    if ps == [] then [] else [[i] + ps[0]] + Prefixed(i, ps[1..])
  }

  /** Every node of the tree, as a path, in depth-first pre-order (the node itself first). */
  function Paths<T>(n: Node<T>): seq<Path>
    decreases n, 1
  {
    [[]] + ChildPaths(n, 0)
  }

  /** The pre-order paths of the subtrees of children `i`, `i + 1`, ... */
  function ChildPaths<T>(n: Node<T>, i: nat): seq<Path>
    decreases n, 0, |n.children| - i
  {
    if i >= |n.children| then []
    else Prefixed(i, Paths(n.children[i])) + ChildPaths(n, i + 1)
  }

  /** The first of the given paths that leads to a node carrying `v`. */
  function FirstMatch<T(==)>(v: T, n: Node<T>, ps: seq<Path>): (r: Option<Path>)
    ensures r.Some? ==> r.value in ps && ValidPath(n, r.value) && At(n, r.value).data == v
  {
    if ps == [] then None
    else if ValidPath(n, ps[0]) && At(n, ps[0]).data == v then Some(ps[0])
    else FirstMatch(v, n, ps[1..])
  }

  /** The first match in a concatenation comes from the first part if it has one. */
  lemma {:induction false} FirstMatchConcat<T>(v: T, n: Node<T>, a: seq<Path>, b: seq<Path>)
    ensures FirstMatch(v, n, a + b) == if FirstMatch(v, n, a).Some? then FirstMatch(v, n, a) else FirstMatch(v, n, b)
  {
    if a == [] {
      assert a + b == b;
    } else {
      assert (a + b)[0] == a[0];
      assert (a + b)[1..] == a[1..] + b;
      FirstMatchConcat(v, n, a[1..], b);
    }
  }

  /** Searching the paths of child `i`'s subtree from `n` is searching them from the child. */
  lemma {:induction false} FirstMatchPrefixed<T>(v: T, n: Node<T>, i: nat, ps: seq<Path>)
    requires i < |n.children|
    ensures FirstMatch(v, n, Prefixed(i, ps)) ==
      match FirstMatch(v, n.children[i], ps)
      case Some(q) => Some([i] + q)
      case None => None
  {
    if ps != [] {
      var q := ps[0];
      assert ([i] + q)[0] == i && ([i] + q)[1..] == q;
      assert Prefixed(i, ps)[1..] == Prefixed(i, ps[1..]);
      FirstMatchPrefixed(v, n, i, ps[1..]);
    }
  }

  /** find returns the first node in depth-first pre-order whose datum equals the query. */
  lemma {:induction false} FindIsFirstInPreOrder<T>(v: T, n: Node<T>)
    ensures FindAux(v, n) == FirstMatch(v, n, Paths(n))
    decreases n, 1
  {
    var ps := Paths(n);
    assert ps[0] == [] && ps[1..] == ChildPaths(n, 0);
    FindAmongIsFirstMatch(v, n, 0);
  }

  lemma {:induction false} FindAmongIsFirstMatch<T>(v: T, n: Node<T>, i: nat)
    ensures FindAmong(v, n, i) == FirstMatch(v, n, ChildPaths(n, i))
    decreases n, 0, |n.children| - i
  {
    if i < |n.children| {
      var c := n.children[i];
      FirstMatchConcat(v, n, Prefixed(i, Paths(c)), ChildPaths(n, i + 1));
      FirstMatchPrefixed(v, n, i, Paths(c));
      FindIsFirstInPreOrder(v, c);
      FindAmongIsFirstMatch(v, n, i + 1);
    }
  }

  // -----------------------------------------------------------------------
  // listDescendants

  /** The subtree of `n` in depth-first pre-order, without `n` itself. */
  function Descendants<T>(n: Node<T>): seq<Node<T>>
    decreases n, 1
  {
    DescendantsFrom(n, 0)
  }

  /** The loop of listDescendantsAux from child `i` on: each child, then its own descendants. */
  function DescendantsFrom<T>(n: Node<T>, i: nat): seq<Node<T>>
    decreases n, 0, |n.children| - i
  {
    if i >= |n.children| then []
    else [n.children[i]] + Descendants(n.children[i]) + DescendantsFrom(n, i + 1)
  }

  /**
   * The descendants list is the pre-order path list without its first entry,
   * read through At: entry k is the node at pre-order path k + 1.
   */
  lemma {:induction false} DescendantsArePreOrder<T>(n: Node<T>)
    ensures |Paths(n)| == |Descendants(n)| + 1
    ensures forall k :: 0 <= k < |Descendants(n)| ==>
      ValidPath(n, Paths(n)[k + 1]) && At(n, Paths(n)[k + 1]) == Descendants(n)[k]
    decreases n, 1
  {
    ChildPathsMatchDescendants(n, 0);
    assert Paths(n)[1..] == ChildPaths(n, 0);
  }

  lemma {:induction false} ChildPathsMatchDescendants<T>(n: Node<T>, i: nat)
    ensures |ChildPaths(n, i)| == |DescendantsFrom(n, i)|
    ensures forall k :: 0 <= k < |ChildPaths(n, i)| ==>
      ValidPath(n, ChildPaths(n, i)[k]) && At(n, ChildPaths(n, i)[k]) == DescendantsFrom(n, i)[k]
    decreases n, 0, |n.children| - i
  {
    if i < |n.children| {
      var c := n.children[i];
      DescendantsArePreOrder(c);
      ChildPathsMatchDescendants(n, i + 1);
      var own := Prefixed(i, Paths(c));
      var rest := ChildPaths(n, i + 1);
      var ds := [c] + Descendants(c);
      assert DescendantsFrom(n, i) == ds + DescendantsFrom(n, i + 1);
      assert |own| == |ds|;
      forall k | 0 <= k < |own + rest|
        ensures ValidPath(n, (own + rest)[k]) && At(n, (own + rest)[k]) == (ds + DescendantsFrom(n, i + 1))[k]
      {
        if k < |own| {
          var q := Paths(c)[k];
          assert (own + rest)[k] == [i] + q;
          assert ([i] + q)[0] == i && ([i] + q)[1..] == q;
          if k == 0 {
            assert q == [];
          } else {
            var k' := k - 1;
            assert k' < |Descendants(c)|;
            var d := Descendants(c)[k'];
            assert ValidPath(c, Paths(c)[k' + 1]) && At(c, Paths(c)[k' + 1]) == d;
          }
        } else {
          assert (own + rest)[k] == rest[k - |own|];
        }
      }
    }
  }

  // -----------------------------------------------------------------------
  // Counting nodes

  /** The number of nodes of the tree, weighing each node's datum with `f`. */
  function Weigh<T>(f: T -> nat, n: Node<T>): nat
    decreases n
  {
    f(n.data) + WeighAll(f, n.children)
  }

  function WeighAll<T>(f: T -> nat, cs: seq<Node<T>>): nat
    decreases cs
  {
    if cs == [] then 0 else Weigh(f, cs[0]) + WeighAll(f, cs[1..])
  }

  function CountOne<T>(d: T): nat { 1 }

  /** The number of nodes. */
  function Size<T>(n: Node<T>): nat
  {
    Weigh(CountOne, n)
  }

  /** A node without children is one node. */
  lemma LeafSize<T>(n: Node<T>)
    requires n.children == []
    ensures Size(n) == 1
  {
    assert Weigh(CountOne, n) == CountOne(n.data) + WeighAll(CountOne, n.children);
  }

  /** The number of nodes whose datum equals `v`. */
  function Count<T(==)>(v: T, n: Node<T>): nat
  {
    Weigh(d => if d == v then 1 else 0, n)
  }

  lemma {:induction false} WeighAllConcat<T>(f: T -> nat, a: seq<Node<T>>, b: seq<Node<T>>)
    ensures WeighAll(f, a + b) == WeighAll(f, a) + WeighAll(f, b)
  {
    if a != [] {
      assert (a + b)[0] == a[0];
      assert (a + b)[1..] == a[1..] + b;
      WeighAllConcat(f, a[1..], b);
    } else {
      assert a + b == b;
    }
  }

  /** The weight of a forest split around child `i`. */
  lemma WeighAllSplit<T>(f: T -> nat, cs: seq<Node<T>>, i: nat)
    requires i < |cs|
    ensures WeighAll(f, cs) == WeighAll(f, cs[..i]) + Weigh(f, cs[i]) + WeighAll(f, cs[i + 1..])
  {
    assert cs == cs[..i] + [cs[i]] + cs[i + 1..];
    WeighAllConcat(f, cs[..i] + [cs[i]], cs[i + 1..]);
    WeighAllConcat(f, cs[..i], [cs[i]]);
    assert [cs[i]][1..] == [];
  }

  /** A subtree weighs no more than the tree around it. */
  lemma {:induction false} WeighAt<T>(f: T -> nat, n: Node<T>, q: Path)
    requires ValidPath(n, q)
    ensures Weigh(f, At(n, q)) <= Weigh(f, n)
    decreases q
  {
    if q != [] {
      WeighAt(f, n.children[q[0]], q[1..]);
      WeighAllSplit(f, n.children, q[0]);
    }
  }

  /** Some node carries `v` exactly when the count of `v` is positive. */
  lemma CountPositive<T>(v: T, n: Node<T>, q: Path)
    requires ValidPath(n, q) && At(n, q).data == v
    ensures Count(v, n) >= 1
  {
    WeighAt(d => if d == v then 1 else 0, n, q);
  }

  /** listDescendants returns one entry per node other than the start node. */
  lemma {:induction false} DescendantsCount<T>(n: Node<T>)
    ensures |Descendants(n)| == Size(n) - 1
    decreases n, 1
  {
    DescendantsFromCount(n, 0);
    assert n.children[0..] == n.children;
  }

  lemma {:induction false} DescendantsFromCount<T>(n: Node<T>, i: nat)
    requires i <= |n.children|
    ensures |DescendantsFrom(n, i)| == WeighAll(CountOne, n.children[i..])
    decreases n, 0, |n.children| - i
  {
    if i < |n.children| {
      DescendantsCount(n.children[i]);
      DescendantsFromCount(n, i + 1);
      assert n.children[i..][0] == n.children[i];
      assert n.children[i..][1..] == n.children[i + 1..];
    } else {
      assert n.children[i..] == [];
    }
  }

  // -----------------------------------------------------------------------
  // Replacing a subtree

  /** The tree with the subtree at `p` replaced by `m`. */
  function Graft<T>(n: Node<T>, p: Path, m: Node<T>): (r: Node<T>)
    requires ValidPath(n, p)
    ensures ValidPath(r, p) && At(r, p) == m
    decreases p
  {
    if p == [] then m
    else
      var c := Graft(n.children[p[0]], p[1..], m);
      var r := n.(children := n.children[p[0] := c]);
      assert r.children[p[0]] == c;
      r
  }

  /** Grafting changes the weight by the difference between the new and the old subtree. */
  lemma {:induction false} GraftWeight<T>(f: T -> nat, n: Node<T>, p: Path, m: Node<T>)
    requires ValidPath(n, p)
    ensures Weigh(f, Graft(n, p, m)) + Weigh(f, At(n, p)) == Weigh(f, n) + Weigh(f, m)
    decreases p
  {
    if p != [] {
      var i := p[0];
      var cs := n.children;
      var c := Graft(cs[i], p[1..], m);
      GraftWeight(f, cs[i], p[1..], m);
      WeighAllSplit(f, cs, i);
      WeighAllSplit(f, cs[i := c], i);
      assert cs[i := c][..i] == cs[..i];
      assert cs[i := c][i + 1..] == cs[i + 1..];
    }
  }

  /**
   * What grafting at `p` leaves alone: every node off the path to `p` keeps its
   * whole subtree, and every node strictly above `p` keeps its datum, its
   * parent reference and its number of children.
   */
  lemma {:induction false} GraftElsewhere<T>(n: Node<T>, p: Path, m: Node<T>, q: Path)
    requires ValidPath(n, p) && ValidPath(n, q)
    ensures !(q <= p) && !(p <= q) ==> ValidPath(Graft(n, p, m), q) && At(Graft(n, p, m), q) == At(n, q)
    ensures q < p ==>
      (ValidPath(Graft(n, p, m), q)
       && At(Graft(n, p, m), q).data == At(n, q).data
       && At(Graft(n, p, m), q).linked == At(n, q).linked
       && |At(Graft(n, p, m), q).children| == |At(n, q).children|)
    decreases q
  {
    if p != [] && q != [] {
      var r := Graft(n, p, m);
      var i, j := p[0], q[0];
      assert r.children[j] == if i == j then Graft(n.children[i], p[1..], m) else n.children[j];
      if i == j {
        assert q <= p <==> q[1..] <= p[1..];
        assert p <= q <==> p[1..] <= q[1..];
        assert q < p <==> q[1..] < p[1..];
        GraftElsewhere(n.children[i], p[1..], m, q[1..]);
      } else {
        assert !(q <= p) && !(p <= q);
      }
    }
  }
}

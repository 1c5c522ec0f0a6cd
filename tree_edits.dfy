/**
 * What `put` and `remove` of src/main/collection/Tree.js do to a tree,
 * stated on tree values: the node that receives or loses a child is found
 * with `find`, and the change is grafted back at its path.
 */
module TreeEdits {
  import opened Wrappers
  import opened TreeNodes

  // -----------------------------------------------------------------------
  // put

  /** The node `put` attaches to: the first node carrying `parent`, or the root when `parent` is falsy or absent. */
  function InsertionPoint<T(==)>(parent: Option<T>, n: Node<T>): (p: Path)
    ensures ValidPath(n, p)
    ensures parent.Some? && FindAux(parent.value, n).Some? ==> At(n, p).data == parent.value
  {
    if parent.Some? && FindAux(parent.value, n).Some? then FindAux(parent.value, n).value else []
  }

  /** The tree after `put(v, parent)`: a new leaf carrying `v` becomes the last child of the insertion point. */
  function Inserted<T(==)>(v: T, parent: Option<T>, n: Node<T>): Node<T>
  {
    var p := InsertionPoint(parent, n);
    var host := At(n, p);
    Graft(n, p, host.(children := host.children + [Node(v, [], true)]))
  }

  /**
   * put adds exactly one node, a leaf carrying `v` with its parent set, as the
   * last child of the insertion point; that node keeps its datum, its parent
   * reference and its earlier children in order; no node off the path to it
   * changes, and the nodes above it keep their data and numbers of children.
   */
  lemma PutShape<T>(v: T, parent: Option<T>, n: Node<T>, q: Path)
    requires ValidPath(n, q)
    ensures var p := InsertionPoint(parent, n);
      var r := Inserted(v, parent, n);
      ValidPath(r, p)
      && At(r, p).data == At(n, p).data
      && At(r, p).linked == At(n, p).linked
      && At(r, p).children == At(n, p).children + [Node(v, [], true)]
    ensures var p := InsertionPoint(parent, n);
      var r := Inserted(v, parent, n);
      !(q <= p) && !(p <= q) ==> ValidPath(r, q) && At(r, q) == At(n, q)
    ensures var p := InsertionPoint(parent, n);
      var r := Inserted(v, parent, n);
      q < p ==> ValidPath(r, q) && At(r, q).data == At(n, q).data && |At(r, q).children| == |At(n, q).children|
  {
    var p := InsertionPoint(parent, n);
    var host := At(n, p);
    GraftElsewhere(n, p, host.(children := host.children + [Node(v, [], true)]), q);
  }

  /** put performs no duplicate check: every call adds one node, and one more node carrying `v`. */
  lemma PutCounts<T>(v: T, parent: Option<T>, n: Node<T>)
    ensures Size(Inserted(v, parent, n)) == Size(n) + 1
    ensures Count(v, Inserted(v, parent, n)) == Count(v, n) + 1
  {
    var p := InsertionPoint(parent, n);
    var host := At(n, p);
    var leaf := Node(v, [], true);
    var m := host.(children := host.children + [leaf]);
    var isV := d => if d == v then 1 else 0;
    GraftWeight(CountOne, n, p, m);
    GraftWeight(isV, n, p, m);
    WeighAllConcat(CountOne, host.children, [leaf]);
    WeighAllConcat(isV, host.children, [leaf]);
    assert [leaf][1..] == [];
  }

  /** With a falsy or absent parent the new node becomes the root's last child. */
  lemma PutFallsBackToRoot<T>(v: T, parent: Option<T>, n: Node<T>)
    requires parent.None? || FindAux(parent.value, n).None?
    ensures Inserted(v, parent, n) == n.(children := n.children + [Node(v, [], true)])
  {
  }

  // -----------------------------------------------------------------------
  // remove

  /** The `index` the sibling loop of remove ends with: the last child whose datum is `v`, or -1. */
  function LastIndexOf<T(==)>(v: T, cs: seq<Node<T>>): (j: int)
    ensures -1 <= j < |cs|
    ensures j >= 0 ==> cs[j].data == v
    ensures forall k :: j < k < |cs| ==> cs[k].data != v
  {
    if cs == [] then -1
    else if cs[|cs| - 1].data == v then |cs| - 1
    else LastIndexOf(v, cs[..|cs| - 1])
  }

  /**
   * The parent's children after remove found its child `i`: the last child
   * carrying `v` (index j) is spliced out, and child `i`, when it is not the
   * one spliced out, stays with its children and parent reference cleared.
   */
  function Spliced<T(==)>(v: T, cs: seq<Node<T>>, i: nat): seq<Node<T>>
    requires i < |cs| && cs[i].data == v
  {
    var j := LastIndexOf(v, cs);
    var es := cs[i := Node(v, [], false)];
    es[..j] + es[j + 1..]
  }

  /** The splice keeps the other siblings in their relative order. */
  lemma SplicedShape<T>(v: T, cs: seq<Node<T>>, i: nat)
    requires i < |cs| && cs[i].data == v
    ensures var r, j := Spliced(v, cs, i), LastIndexOf(v, cs);
      i <= j
      && |r| == |cs| - 1
      && r[..i] == cs[..i]
      && (i < j ==> r[i] == Node(v, [], false) && r[i + 1..j] == cs[i + 1..j])
      && r[j..] == cs[j + 1..]
  {
    var j := LastIndexOf(v, cs);
    var es := cs[i := Node(v, [], false)];
    var r := es[..j] + es[j + 1..];
    assert r[..i] == cs[..i];
    assert r[j..] == cs[j + 1..];
    if i < j {
      assert r[i + 1..j] == cs[i + 1..j];
    }
  }

  /**
   * The tree after `remove(v)`, or None when remove throws. Not found: unchanged.
   * Found at a node without a parent reference (the synthetic root, or a node
   * an earlier remove left behind): the dereference of its parent throws
   * before anything changes. Otherwise the parent's children are spliced.
   */
  function Removed<T(==)>(v: T, n: Node<T>): Option<Node<T>>
  {
    match FindAux(v, n)
    case None => Some(n)
    case Some(p) =>
      if p == [] || !At(n, p).linked then None
      else
        ParentPath(n, p);
        var pp := p[..|p| - 1];
        var par := At(n, pp);
        Some(Graft(n, pp, par.(children := Spliced(v, par.children, p[|p| - 1]))))
  }

  /** remove of a value not in the tree leaves it unchanged. */
  lemma RemoveAbsent<T>(v: T, n: Node<T>)
    requires forall q :: ValidPath(n, q) ==> At(n, q).data != v
    ensures Removed(v, n) == Some(n)
  {
  }

  /** remove throws exactly when the node find returns has no parent reference; the root is such a node. */
  lemma RemoveThrows<T>(v: T, n: Node<T>)
    ensures Removed(v, n).None? <==>
      FindAux(v, n).Some? && (FindAux(v, n).value == [] || !At(n, FindAux(v, n).value).linked)
    ensures n.data == v && !n.linked ==> Removed(v, n).None?
  {
  }

  /**
   * remove of a found node with a parent reference: the parent keeps its
   * datum and parent reference and its children are spliced (see
   * SplicedShape); every node off the path to the parent is unchanged.
   */
  lemma RemoveShape<T>(v: T, n: Node<T>, q: Path)
    requires FindAux(v, n).Some? && Removed(v, n).Some? && ValidPath(n, q)
    ensures FindAux(v, n).value != []
    ensures var p := FindAux(v, n).value;
      var pp := p[..|p| - 1];
      ValidPath(n, pp) && p[|p| - 1] < |At(n, pp).children| && At(n, pp).children[p[|p| - 1]].data == v
    ensures var p := FindAux(v, n).value;
      var pp := p[..|p| - 1];
      var r := Removed(v, n).value;
      ValidPath(r, pp) && At(r, pp) == At(n, pp).(children := Spliced(v, At(n, pp).children, p[|p| - 1]))
    ensures var p := FindAux(v, n).value;
      var pp := p[..|p| - 1];
      var r := Removed(v, n).value;
      !(q <= pp) && !(pp <= q) ==> ValidPath(r, q) && At(r, q) == At(n, q)
  {
    var p := FindAux(v, n).value;
    ParentPath(n, p);
    var pp := p[..|p| - 1];
    var par := At(n, pp);
    var m := par.(children := Spliced(v, par.children, p[|p| - 1]));
    RemovedIsGraft(v, n);
    GraftElsewhere(n, pp, m, q);
  }

  lemma RemovedIsGraft<T>(v: T, n: Node<T>)
    requires FindAux(v, n).Some? && Removed(v, n).Some?
    ensures var p := FindAux(v, n).value;
      p != [] && ValidPath(n, p[..|p| - 1]) && p[|p| - 1] < |At(n, p[..|p| - 1]).children|
      && At(n, p[..|p| - 1]).children[p[|p| - 1]].data == v
      && Removed(v, n).value == Graft(n, p[..|p| - 1],
           At(n, p[..|p| - 1]).(children := Spliced(v, At(n, p[..|p| - 1]).children, p[|p| - 1])))
  {
    ParentPath(n, FindAux(v, n).value);
  }

  /** The concrete quirk: with two equal siblings, remove deletes the later one and empties the earlier. */
  lemma RemoveSplicesLastEqualSibling()
    ensures var x, y := Node("x", [], true), Node("y", [], true);
      var a1, b, a2 := Node("a", [x], true), Node("b", [], true), Node("a", [y], true);
      Removed("a", Node("root", [a1, b, a2], false))
        == Some(Node("root", [Node("a", [], false), b], false))
  {
    var x, y := Node("x", [], true), Node("y", [], true);
    var a1, b, a2 := Node("a", [x], true), Node("b", [], true), Node("a", [y], true);
    var n := Node("root", [a1, b, a2], false);
    assert FindAux("a", a1) == Some([]);
    assert [0] + [] == [0];
    assert FindAmong("a", n, 0) == Some([0]);
    assert FindAux("a", n) == Some([0]);
    assert LastIndexOf("a", n.children) == 2;
    var es := n.children[0 := Node("a", [], false)];
    assert es[..2] + es[3..] == [Node("a", [], false), b];
  }

  /**
   * When `v` occurs exactly once, remove detaches that node's whole subtree:
   * the size drops by the subtree's size and `v` can no longer be found.
   */
  lemma RemoveUnique<T>(v: T, n: Node<T>)
    requires Count(v, n) == 1 && Removed(v, n).Some?
    ensures FindAux(v, Removed(v, n).value).None?
    ensures FindAux(v, n).Some? ==> Size(Removed(v, n).value) == Size(n) - Size(At(n, FindAux(v, n).value))
  {
    if FindAux(v, n).Some? {
      var p := FindAux(v, n).value;
      ParentPath(n, p);
      var pp, i := p[..|p| - 1], p[|p| - 1];
      var par := At(n, pp);
      var j := LastIndexOf(v, par.children);
      var m := par.(children := Spliced(v, par.children, i));
      var r := Removed(v, n).value;
      var isV := d => if d == v then 1 else 0;
      // the found node is the only one carrying v, so it is also the last equal sibling
      if i != j {
        OtherSiblingCounts(v, n, pp, i, j);
      }
      assert i == j;
      assert m.children == par.children[..i] + par.children[i + 1..];
      RemoveChildWeight(isV, par, i);
      RemoveChildWeight(CountOne, par, i);
      GraftWeight(isV, n, pp, m);
      GraftWeight(CountOne, n, pp, m);
      WeighAt(isV, n, p);
      CountPositive(v, par.children[i], []);
      if FindAux(v, r).Some? {
        CountPositive(v, r, FindAux(v, r).value);
      }
    }
  }

  /** Dropping child i of a node takes that child's weight off the node's. */
  lemma RemoveChildWeight<T>(f: T -> nat, par: Node<T>, i: nat)
    requires i < |par.children|
    ensures Weigh(f, par.(children := par.children[..i] + par.children[i + 1..])) == Weigh(f, par) - Weigh(f, par.children[i])
  {
    WeighAllSplit(f, par.children, i);
    WeighAllConcat(f, par.children[..i], par.children[i + 1..]);
  }

  /** Two distinct siblings carrying `v` make the count of `v` at least two. */
  lemma OtherSiblingCounts<T>(v: T, n: Node<T>, pp: Path, i: nat, j: nat)
    requires ValidPath(n, pp) && i < j < |At(n, pp).children|
    requires At(n, pp).children[i].data == v && At(n, pp).children[j].data == v
    ensures Count(v, n) >= 2
  {
    var isV := d => if d == v then 1 else 0;
    var par := At(n, pp);
    var cs := par.children;
    WeighAt(isV, n, pp);
    assert cs == cs[..j] + [cs[j]] + cs[j + 1..];
    WeighAllSplit(isV, cs, j);
    WeighAllSplit(isV, cs[..j], i);
    assert cs[..j][i] == cs[i];
  }
}

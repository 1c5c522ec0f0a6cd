/**
 * The Tree object of src/main/collection/Tree.js: a synthetic root node whose
 * children arrays `put`, `remove` and `clear` change in place. The tree is
 * held as one node value; the node a method receives or returns is named by
 * its path from the root.
 */
module TreeCollection {
  import opened Wrappers
  import opened TreeNodes
  import opened TreeEdits

  /** findAux: the early-return loop over the children, recursing into each. */
  method SearchFrom<T(==)>(v: T, n: Node<T>) returns (r: Option<Path>)
    ensures r == FindAux(v, n)
    decreases n
  {
    if n.data == v {
      return Some([]);
    }
    var i := 0;
    while i < |n.children|
      invariant i <= |n.children|
      invariant FindAmong(v, n, 0) == FindAmong(v, n, i)
    {
      var result := SearchFrom(v, n.children[i]);
      if result.Some? {
        return Some([i] + result.value);
      }
      i := i + 1;
    }
    return None;
  }

  /** listDescendantsAux: pushes each child, then the child's own descendants, onto `acc`. */
  method CollectDescendants<T>(n: Node<T>, acc: seq<Node<T>>) returns (r: seq<Node<T>>)
    ensures r == acc + Descendants(n)
    decreases n
  {
    r := acc;
    var i := 0;
    while i < |n.children|
      invariant i <= |n.children|
      invariant r + DescendantsFrom(n, i) == acc + Descendants(n)
    {
      var c := n.children[i];
      r := r + [c];
      r := CollectDescendants(c, r);
      i := i + 1;
    }
  }

  /** The `index` loop of remove: the last child carrying `v`; -1 stands for `undefined`. */
  method LastEqualSibling<T(==)>(v: T, cs: seq<Node<T>>) returns (index: int)
    ensures index == LastIndexOf(v, cs)
  {
    index := -1;
    var i := 0;
    while i < |cs|
      invariant i <= |cs|
      invariant index == LastIndexOf(v, cs[..i])
    {
      assert cs[..i + 1][..i] == cs[..i];
      if cs[i].data == v {
        index := i;
      }
      i := i + 1;
    }
    assert cs[..i] == cs;
  }

  class Tree<T(==)> {
    var root: Node<T>

    /** A tree holding only the synthetic root, whose datum is `rootData` ('root' in the source). */
    constructor(rootData: T)
      ensures root == Node(rootData, [], false)
      ensures Size(root) == 1
    {
      LeafSize(Node(rootData, [], false));
      root := Node(rootData, [], false);
    }

    /**
     * find(data, startNode): the first node in pre-order below `start` (the
     * root when absent) carrying `v`, as a path from the root; None when no
     * node there carries `v`.
     */
    method Find(v: T, start: Option<Path>) returns (r: Option<Path>)
      requires start.Some? ==> ValidPath(root, start.value)
      ensures var s := start.GetOr([]);
        r.Some? ==> s <= r.value && ValidPath(root, r.value) && At(root, r.value).data == v
      ensures var s := start.GetOr([]);
        r.None? <==> forall q :: ValidPath(root, s + q) ==> At(root, s + q).data != v
      ensures var s := start.GetOr([]);
        r.Some? ==> FirstMatch(v, At(root, s), Paths(At(root, s))) == Some(r.value[|s|..])
    {
      var s := start.GetOr([]);
      var sub := At(root, s);
      var hit := SearchFrom(v, sub);
      FindIsFirstInPreOrder(v, sub);
      forall q | ValidPath(root, s + q)
        ensures ValidPath(sub, q) && At(root, s + q) == At(sub, q)
      {
        AtConcat(root, s, q);
      }
      if hit.None? {
        forall q | ValidPath(sub, q)
          ensures At(sub, q).data != v
        {
          if At(sub, q).data == v {
            FindComplete(v, sub, q);
          }
        }
        return None;
      }
      var q := hit.value;
      AtConcat(root, s, q);
      assert (s + q)[|s|..] == q;
      return Some(s + q);
    }

    /** put(data, parent): appends a new leaf to the first node carrying `parent`, or to the root. */
    method Put(v: T, parent: Option<T>)
      modifies this
      ensures root == Inserted(v, parent, old(root))
      ensures Size(root) == Size(old(root)) + 1
    {
      var p: Path := [];
      if parent.Some? {
        var found := SearchFrom(parent.value, root);
        if found.Some? {
          p := found.value;
        }
      }
      var host := At(root, p);
      PutCounts(v, parent, root);
      root := Graft(root, p, host.(children := host.children + [Node(v, [], true)]));
    }

    /**
     * remove(data): `thrown` when the found node has no parent reference, and
     * then nothing changes; otherwise the parent's last child carrying `v` is
     * spliced out and the found node loses its children and parent reference.
     */
    method Remove(v: T) returns (thrown: bool)
      modifies this
      ensures thrown <==> Removed(v, old(root)).None?
      ensures thrown ==> root == old(root)
      ensures !thrown ==> root == Removed(v, old(root)).value
    {
      var found := SearchFrom(v, root);
      if found.None? {
        return false;
      }
      var p := found.value;
      if p == [] || !At(root, p).linked {
        return true;
      }
      ParentPath(root, p);
      var pp, i := p[..|p| - 1], p[|p| - 1];
      var par := At(root, pp);
      var index := LastEqualSibling(v, par.children);
      SplicedShape(v, par.children, i);
      // splice(index, 1), then clear the found node if it is still among the siblings
      var cs := par.children[..index] + par.children[index + 1..];
      if i < index {
        cs := cs[i := Node(v, [], false)];
      }
      assert cs == Spliced(v, par.children, i);
      root := Graft(root, pp, par.(children := cs));
      return false;
    }

    /** clear(): the root loses all its children. */
    method Clear()
      modifies this
      ensures root == old(root).(children := [])
      ensures Size(root) == 1
    {
      root := root.(children := []);
      LeafSize(root);
    }

    /** listChildren(data): the children of the first node carrying `v`, or None when there is none. */
    method ListChildren(v: T) returns (r: Option<seq<Node<T>>>)
      ensures r.None? <==> forall q :: ValidPath(root, q) ==> At(root, q).data != v
      ensures r.None? <==> FindAux(v, root).None?
      ensures r.Some? ==> r.value == At(root, FindAux(v, root).value).children
      ensures r.Some? ==> exists q :: ValidPath(root, q) && At(root, q).data == v && At(root, q).children == r.value
    {
      var found := SearchFrom(v, root);
      if found.None? {
        forall q | ValidPath(root, q)
          ensures At(root, q).data != v
        {
          if At(root, q).data == v {
            FindComplete(v, root, q);
          }
        }
        return None;
      }
      assert ValidPath(root, found.value) && At(root, found.value).data == v;
      return Some(At(root, found.value).children);
    }

    /**
     * listDescendants(data): the subtree of the first node carrying `v`, in
     * pre-order without the node itself; None when no node carries `v`.
     */
    method ListDescendants(v: T) returns (r: Option<seq<Node<T>>>)
      ensures r.None? <==> FindAux(v, root).None?
      ensures r.Some? ==> r.value == Descendants(At(root, FindAux(v, root).value))
      ensures r.Some? ==> |r.value| == Size(At(root, FindAux(v, root).value)) - 1
    {
      var found := SearchFrom(v, root);
      if found.None? {
        return None;
      }
      var node := At(root, found.value);
      var list := CollectDescendants(node, []);
      DescendantsCount(node);
      return Some(list);
    }

    /** toArray(): every node but the root, in pre-order (see the finding on ToArrayAsWritten). */
    method ToArray() returns (r: seq<Node<T>>)
      ensures r == Descendants(root)
      ensures |r| == Size(root) - 1
    {
      r := CollectDescendants(root, []);
      DescendantsCount(root);
    }
  }

  // -----------------------------------------------------------------------
  // toArray as written: it passes the root node itself, not its datum, to
  // listDescendants, so find compares a node object with every datum.

  /**
   * Common.equals between a node object and a datum. Common.equals is not
   * part of this model; it is taken to compare by value, under which a node
   * object never equals a datum. This predicate is that assumption and
   * nothing more, so it is false for every input. NodeQueryMisses and
   * ToArrayAsWrittenIsNull rest on it.
   */
  predicate NodeEqualsDatum<T>(query: Node<T>, d: T)
  {
    false
  }

  /** findAux searching for a node object instead of a datum. */
  function FindNodeQuery<T>(query: Node<T>, n: Node<T>): (r: Option<Path>)
    ensures r.Some? ==> ValidPath(n, r.value)
    decreases n, 1
  {
    if NodeEqualsDatum(query, n.data) then Some([]) else FindNodeQueryAmong(query, n, 0)
  }

  function FindNodeQueryAmong<T>(query: Node<T>, n: Node<T>, i: nat): (r: Option<Path>)
    ensures r.Some? ==> r.value != [] && ValidPath(n, r.value)
    decreases n, 0, |n.children| - i
  {
    if i >= |n.children| then None
    else match FindNodeQuery(query, n.children[i])
      case Some(q) => Some([i] + q)
      case None => FindNodeQueryAmong(query, n, i + 1)
  }

  /** toArray as written: listDescendants(this.root). */
  function ToArrayAsWritten<T>(root: Node<T>): Option<seq<Node<T>>>
  {
    match FindNodeQuery(root, root)
    case None => None
    case Some(p) => Some(Descendants(At(root, p)))
  }

  /** As written, toArray returns null on every tree, even one with many nodes. */
  lemma ToArrayAsWrittenIsNull<T>(root: Node<T>)
    ensures ToArrayAsWritten(root) == None
  {
    NodeQueryMisses(root, root);
  }

  lemma {:induction false} NodeQueryMisses<T>(query: Node<T>, n: Node<T>)
    ensures FindNodeQuery(query, n) == None
    decreases n, 1
  {
    NodeQueryMissesAmong(query, n, 0);
  }

  lemma {:induction false} NodeQueryMissesAmong<T>(query: Node<T>, n: Node<T>, i: nat)
    ensures FindNodeQueryAmong(query, n, i) == None
    decreases n, 0, |n.children| - i
  {
    if i < |n.children| {
      NodeQueryMisses(query, n.children[i]);
      NodeQueryMissesAmong(query, n, i + 1);
    }
  }
}

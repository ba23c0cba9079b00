/** Trees over the nodes 0..n-1 whose subtrees are intervals of node numbers.

    Every parent has a smaller number than its children and serves them in ascending order
    (src/cliser.c:387-393 and 449-475).  `end(j)` is one past the last node of j's subtree.
 */
module OrderedTree {
  import opened Topology

  datatype Tree = Tree(n: nat, parent: nat -> nat)

  /** Every node but 0 hangs below a smaller node. */
  ghost predicate Rooted(t: Tree) {
    t.n >= 1 && forall x: nat :: 0 < x < t.n ==> t.parent(x) < x
  }

  ghost predicate Inside(end: nat -> nat, j: nat, x: nat) {
    j < x < end(j)
  }

  /** Subtrees are the intervals [j, end(j)): a node lies inside its parent's interval, and
      what lies strictly inside j's interval has its parent and its own interval there. */
  ghost predicate Contiguous(t: Tree, end: nat -> nat) {
    && Rooted(t)
    && end(0) == t.n
    && (forall x: nat {:trigger end(x)} :: x < t.n ==> x < end(x) <= t.n)
    && (forall x: nat {:trigger Inside(end, t.parent(x), x)} :: 0 < x < t.n ==> Inside(end, t.parent(x), x))
    && (forall j: nat, x: nat {:trigger Inside(end, j, x)} :: j < t.n && Inside(end, j, x) ==>
      j <= t.parent(x) && end(x) <= end(j))
  }

  /** The children of j among lo..n-1, ascending. */
  function ChildrenFrom(t: Tree, j: nat, lo: nat): (cs: seq<nat>)
    ensures forall i :: 0 <= i < |cs| ==> lo <= cs[i] < t.n && t.parent(cs[i]) == j
    decreases t.n - lo
  {
    if lo >= t.n then [] else (if t.parent(lo) == j then [lo] else []) + ChildrenFrom(t, j, lo + 1)
  }

  function Children(t: Tree, j: nat): (cs: seq<nat>)
    ensures forall i :: 0 <= i < |cs| ==> j < cs[i] < t.n && t.parent(cs[i]) == j
  {
    ChildrenFrom(t, j, j + 1)
  }

  /** The list is ascending and complete. */
  lemma {:induction false} ChildrenAscend(t: Tree, j: nat, lo: nat)
    ensures forall i, k :: 0 <= i < k < |ChildrenFrom(t, j, lo)| ==>
            ChildrenFrom(t, j, lo)[i] < ChildrenFrom(t, j, lo)[k]
    ensures forall x: nat :: lo <= x < t.n && t.parent(x) == j ==> x in ChildrenFrom(t, j, lo)
    decreases t.n - lo
  {
    if lo < t.n {
      ChildrenAscend(t, j, lo + 1);
    }
  }

  lemma ChildrenAre(t: Tree, j: nat, cs: seq<nat>)
    requires cs == Children(t, j)
    ensures forall x: nat :: x in cs <==> j < x < t.n && t.parent(x) == j
    ensures forall m :: 0 <= m < |cs| ==> cs[m] !in cs[..m] && cs[m] !in cs[m + 1..]
  {
    ChildrenAscend(t, j, j + 1);
  }

  /** The intervals of cs lie side by side and fill [lo, hi). */
  ghost predicate Tiles(end: nat -> nat, cs: seq<nat>, lo: nat, hi: nat) {
    if |cs| == 0 then lo == hi else cs[0] == lo && Tiles(end, cs[1..], end(lo), hi)
  }

  /** The children of j tile the rest of j's interval: the first starts at j + 1 and each next
      one starts where the one before it ends. */
  lemma ChildrenTile(t: Tree, end: nat -> nat, j: nat)
    requires Contiguous(t, end) && j < t.n
    ensures Tiles(end, Children(t, j), j + 1, end(j))
  {
    if j + 1 < end(j) {
      assert Inside(end, j, j + 1);
      TileFrom(t, end, j, j + 1);
    } else {
      NoChildrenAfter(t, end, j);
    }
  }

  lemma {:induction false} NoChildren(t: Tree, j: nat, lo: nat, hi: nat)
    requires lo <= hi <= t.n
    requires forall x: nat :: lo <= x < hi ==> t.parent(x) != j
    ensures ChildrenFrom(t, j, lo) == ChildrenFrom(t, j, hi)
    decreases hi - lo
  {
    if lo < hi {
      assert ChildrenFrom(t, j, lo) == ChildrenFrom(t, j, lo + 1) by { assert t.parent(lo) != j; }
      NoChildren(t, j, lo + 1, hi);
    }
  }

  lemma NoChildrenAfter(t: Tree, end: nat -> nat, j: nat)
    requires Contiguous(t, end) && j < t.n
    ensures ChildrenFrom(t, j, end(j)) == []
  {
    forall x: nat | end(j) <= x < t.n
      ensures t.parent(x) != j
    {
      assert Inside(end, t.parent(x), x);
    }
    NoChildren(t, j, end(j), t.n);
  }

  lemma {:induction false} TileFrom(t: Tree, end: nat -> nat, j: nat, c: nat)
    requires Contiguous(t, end) && j < c < end(j) <= t.n && t.parent(c) == j
    ensures Tiles(end, ChildrenFrom(t, j, c), c, end(j))
    decreases t.n - c
  {
    var e := end(c);
    assert Inside(end, j, c);
    forall x: nat | c + 1 <= x < e
      ensures t.parent(x) != j
    {
      assert Inside(end, c, x);
    }
    NoChildren(t, j, c + 1, e);
    assert ChildrenFrom(t, j, c) == [c] + ChildrenFrom(t, j, e);
    assert ChildrenFrom(t, j, c)[1..] == ChildrenFrom(t, j, e);
    if e < end(j) {
      NextSibling(t, end, j, c);
      TileFrom(t, end, j, e);
    } else {
      NoChildrenAfter(t, end, j);
    }
  }

  /** Where one child's interval ends inside j's, the next child of j begins. */
  lemma NextSibling(t: Tree, end: nat -> nat, j: nat, c: nat)
    requires Contiguous(t, end) && j < c < end(j) <= t.n && t.parent(c) == j && end(c) < end(j)
    ensures t.parent(end(c)) == j
  {
    var e := end(c);
    var p: nat := t.parent(e);
    assert Inside(end, j, e);
    assert Inside(end, c, p) <==> c < p;
    assert Inside(end, p, e);
    assert j < p < c ==> Inside(end, p, c);
  }

  /** Where the k-th child of a tiled list starts. */
  ghost function StartOf(cs: seq<nat>, hi: nat, k: nat): nat
    requires k <= |cs|
  {
    if k < |cs| then cs[k] else hi
  }

  lemma {:induction false} TilesAt(end: nat -> nat, cs: seq<nat>, lo: nat, hi: nat, k: nat)
    requires Tiles(end, cs, lo, hi) && k <= |cs|
    ensures k == 0 ==> StartOf(cs, hi, 0) == lo
    ensures k > 0 ==> end(cs[k - 1]) == StartOf(cs, hi, k)
    decreases |cs|
  {
    if |cs| > 0 && k > 0 {
      TilesAt(end, cs[1..], end(lo), hi, k - 1);
    }
  }

  /** The k-th child's interval goes from itself to the next child. */
  lemma NextChild(t: Tree, end: nat -> nat, p: nat, k: nat, q: nat)
    requires Contiguous(t, end) && p < t.n && k < |Children(t, p)| && q == Children(t, p)[k]
    ensures p < q < end(q) <= end(p) <= t.n
    ensures StartOf(Children(t, p), end(p), k) == q && StartOf(Children(t, p), end(p), k + 1) == end(q)
  {
    var cs := Children(t, p);
    ChildrenTile(t, end, p);
    TilesAt(end, cs, p + 1, end(p), k + 1);
    assert Inside(end, t.parent(q), q);
  }

  // ----- the binary tree -----

  function BinaryTree(n: nat): Tree {
    Tree(n, (x: nat) => if x == 0 then 0 else x - LowBit(x))
  }

  function BinaryEnd(n: nat): nat -> nat {
    (x: nat) => if x == 0 || x + LowBit(x) > n then n else x + LowBit(x)
  }

  /** Below the lowest set bit of j, adding j changes no low bit. */
  lemma {:induction false} LowBitOfSum(j: nat, y: nat)
    requires j > 0 && 0 < y < LowBit(j)
    ensures LowBit(j + y) == LowBit(y)
    ensures y + LowBit(y) <= LowBit(j)
  {
    if y % 2 == 0 {
      LowBitOfSum(j / 2, y / 2);
      assert (j + y) / 2 == j / 2 + y / 2;
    }
  }

  /** Clearing the lowest set bit leaves a higher one, if any. */
  lemma {:induction false} NextBitIsHigher(x: nat)
    requires x > 0 && x != LowBit(x)
    ensures LowBit(x - LowBit(x)) > LowBit(x)
  {
    if x % 2 == 0 {
      NextBitIsHigher(x / 2);
      assert (x - LowBit(x)) / 2 == x / 2 - LowBit(x / 2);
    }
  }

  lemma BinaryIsContiguous(n: nat)
    requires n >= 1
    ensures Contiguous(BinaryTree(n), BinaryEnd(n))
  {
    var t, end := BinaryTree(n), BinaryEnd(n);
    forall x: nat | 0 < x < n
      ensures t.parent(x) < x && Inside(end, t.parent(x), x)
    {
      BinaryParentHolds(n, x);
    }
    forall j: nat, x: nat | j < n && Inside(end, j, x)
      ensures j <= t.parent(x) && end(x) <= end(j)
    {
      BinaryNests(n, j, x);
    }
  }

  lemma BinaryParentHolds(n: nat, x: nat)
    requires 0 < x < n
    ensures BinaryTree(n).parent(x) < x && Inside(BinaryEnd(n), BinaryTree(n).parent(x), x)
  {
    if x != LowBit(x) {
      NextBitIsHigher(x);
    }
  }

  lemma BinaryNests(n: nat, j: nat, x: nat)
    requires j < n && Inside(BinaryEnd(n), j, x)
    ensures j <= BinaryTree(n).parent(x) && BinaryEnd(n)(x) <= BinaryEnd(n)(j)
  {
    if j > 0 {
      LowBitOfSum(j, x - j);
    }
  }

  // ----- the trees of wider bases -----

  /** Base b with at most 2 * b nodes: one group of b nodes, whose first node also leads a second. */
  function WideTree(b: nat, n: nat): Tree {
    Tree(n, (x: nat) => if x <= b then 0 else b)
  }

  function WideEnd(b: nat, n: nat): nat -> nat {
    (x: nat) => if x == 0 || x == b || x + 1 > n then n else x + 1
  }

  lemma WideIsContiguous(b: nat, n: nat)
    requires b > 0 && 1 <= n <= 2 * b
    ensures Contiguous(WideTree(b, n), WideEnd(b, n))
  {
  }
}

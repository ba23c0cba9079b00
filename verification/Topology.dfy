/** The link generator of lua/Tree.lua (lines 4-22).

    `Pairs` is `rcsvAllPairs` with the links it hands to its callback collected in order.
    Nodes are numbered from 1 in the source; "node x" below is the 0-based number, so it is
    `x + 1` in an edge.
 */
module Topology {
  import opened Arithmetic
  import Sequences

  /** The callback's arguments: `from` connects to `to`. */
  datatype Edge = Edge(to: nat, from: nat, depth: nat)

  function Keep(numNodes: nat, a: nat, b: nat, depth: nat): seq<Edge> {
    if a <= numNodes && b <= numNodes then [Edge(a, b, depth)] else []
  }

  /** for j = lo, hi do link(index + 1, j, 0) end */
  function Fan(numNodes: nat, index: nat, lo: nat, hi: nat): seq<Edge>
    decreases hi + 1 - lo
  {
    if lo > hi then [] else Keep(numNodes, index + 1, lo, 0) + Fan(numNodes, index, lo + 1, hi)
  }

  function Pairs(base: nat, numNodes: nat, index: nat, depth: nat): seq<Edge>
    decreases depth, base + 1
  {
    if depth == 0 then Fan(numNodes, index, index + 2, index + Pow(base, depth + 1))
    else
      var skip := Pow(base, depth);
      Keep(numNodes, index + 1, index + skip + 1, depth) + Blocks(base, numNodes, index, depth, skip, 0)
  }

  /** for c = c, base - 1 do rcsvAllPairs(base, numNodes, index + c * skip, depth - 1) end */
  function Blocks(base: nat, numNodes: nat, index: nat, depth: nat, skip: nat, c: nat): seq<Edge>
    requires depth > 0
    decreases depth, base - c
  {
    if c >= base then []
    else Pairs(base, numNodes, index + c * skip, depth - 1) + Blocks(base, numNodes, index, depth, skip, c + 1)
  }

  /** Every `to` that node x was told to connect to, in emission order. */
  function ConnectsTo(es: seq<Edge>, x: nat): seq<nat> {
    if |es| == 0 then []
    else (if es[0].from == x + 1 then [es[0].to] else []) + ConnectsTo(es[1..], x)
  }

  lemma {:induction false} ConnectsToConcat(es: seq<Edge>, fs: seq<Edge>, x: nat)
    ensures ConnectsTo(es + fs, x) == ConnectsTo(es, x) + ConnectsTo(fs, x)
  {
    if |es| == 0 {
      assert es + fs == fs;
    } else {
      assert (es + fs)[1..] == es[1..] + fs;
      ConnectsToConcat(es[1..], fs, x);
      Sequences.Regroup(if es[0].from == x + 1 then [es[0].to] else [], ConnectsTo(es[1..], x), ConnectsTo(fs, x));
    }
  }

  // ----- which nodes are linked, and to whom, read off the digits of the node number -----

  /** The lowest nonzero base-b digit of y is 1. */
  predicate LowestDigitIsOne(b: nat, y: nat)
    requires b >= 2 && y > 0
  {
    DivShrinks(b, y);
    if y % b != 0 then y % b == 1 else LowestDigitIsOne(b, y / b)
  }

  /** y with its lowest nonzero base-b digit lowered by one. */
  function LowerLowestDigit(b: nat, y: nat): nat
    requires b >= 2 && y > 0
  {
    DivShrinks(b, y);
    if y % b != 0 then y - 1 else b * LowerLowestDigit(b, y / b)
  }

  /** Node x > 0 gets a link: it is inside a block of b, or it heads the second block at its level. */
  predicate Linked(b: nat, x: nat)
    requires b >= 2 && x > 0
  {
    x % b != 0 || LowestDigitIsOne(b, x / b)
  }

  /** The node that a linked node x > 0 connects to. */
  function Parent(b: nat, x: nat): nat
    requires b >= 2 && x > 0
  {
    if x % b != 0 then x - x % b else b * LowerLowestDigit(b, x / b)
  }

  lemma DigitShift(b: nat, y: nat)
    requires b >= 2 && y > 0
    ensures b * y > 0 && (b * y) % b == 0 && (b * y) / b == y
    ensures LowestDigitIsOne(b, b * y) == LowestDigitIsOne(b, y)
    ensures LowerLowestDigit(b, b * y) == b * LowerLowestDigit(b, y)
  {
    DivMod(b, y, 0);
  }

  lemma {:induction false} DigitOfMultiple(b: nat, k: nat, m: nat)
    requires b >= 2 && m > 0 && m % b != 0
    ensures m * Pow(b, k) > 0
    ensures LowestDigitIsOne(b, m * Pow(b, k)) <==> m % b == 1
    ensures LowerLowestDigit(b, m * Pow(b, k)) == (m - 1) * Pow(b, k)
  {
    if k == 0 {
      assert Pow(b, k) == 1 && m * 1 == m && (m - 1) * 1 == m - 1;
    } else {
      var p := Pow(b, k - 1);
      DigitOfMultiple(b, k - 1, m);
      DigitShift(b, m * p);
      MulPow(b, k - 1, m);
      MulPow(b, k - 1, m - 1);
      assert m * Pow(b, k) == b * (m * p) && (m - 1) * Pow(b, k) == b * ((m - 1) * p);
    }
  }

  /** A multiple of b^k with k > 0 is linked exactly when its next digit is 1. */
  lemma BlockHead(b: nat, k: nat, m: nat)
    requires b >= 2 && k > 0 && m > 0 && m % b != 0
    ensures m * Pow(b, k) > 0
    ensures Linked(b, m * Pow(b, k)) <==> m % b == 1
    ensures Parent(b, m * Pow(b, k)) == (m - 1) * Pow(b, k)
  {
    DigitOfMultiple(b, k - 1, m);
    DigitShift(b, m * Pow(b, k - 1));
    MulPow(b, k - 1, m);
    MulPow(b, k - 1, m - 1);
  }

  // ----- what the generator emits -----

  /** What node x is told to connect to when it must lie in (lo, hi). */
  ghost function Expected(b: nat, numNodes: nat, lo: nat, hi: nat, x: nat): seq<nat>
    requires b >= 2
  {
    if lo < x < hi && x < numNodes && Linked(b, x) then [Parent(b, x) + 1] else []
  }

  lemma {:induction false} FanEmits(numNodes: nat, index: nat, lo: nat, hi: nat, x: nat)
    requires index + 1 < lo
    ensures ConnectsTo(Fan(numNodes, index, lo, hi), x) ==
            if lo <= x + 1 <= hi && x < numNodes then [index + 1] else []
    decreases hi + 1 - lo
  {
    if lo <= hi {
      ConnectsToConcat(Keep(numNodes, index + 1, lo, 0), Fan(numNodes, index, lo + 1, hi), x);
      FanEmits(numNodes, index, lo + 1, hi, x);
    }
  }

  lemma StarEmits(b: nat, numNodes: nat, q: nat, x: nat)
    requires b >= 2
    ensures ConnectsTo(Pairs(b, numNodes, b * q, 0), x) == Expected(b, numNodes, b * q, b * q + b, x)
  {
    assert Pow(b, 1) == b by { assert b * Pow(b, 0) == b; }
    FanEmits(numNodes, b * q, b * q + 2, b * q + b, x);
    if b * q < x < b * q + b {
      DivMod(b, q, x - b * q);
    }
  }

  /** The sub-block heads of a block, as multiples of the sub-block size. */
  lemma HeadAsMultiple(b: nat, skip: nat, q: nat, x: nat)
    requires b >= 2 && skip > 0
    requires q * (b * skip) < x < q * (b * skip) + b * skip && x % skip == 0
    ensures var m := x / skip; m > 0 && x == m * skip && m % b != 0
    ensures var m := x / skip; m % b == 1 <==> x == q * (b * skip) + skip
    ensures var m := x / skip; m % b == 1 ==> (m - 1) * skip == q * (b * skip)
  {
    var m, u := x / skip, b * q;
    assert x == skip * m;
    assert q * (b * skip) == skip * u;
    assert q * (b * skip) + b * skip == skip * (u + b) by { assert skip * (u + b) == skip * u + skip * b; }
    assert u < m < u + b by {
      MulCancels(skip, u, m);
      MulCancels(skip, m, u + b);
    }
    DivMod(b, q, m - u);
    assert skip * (u + 1) == skip * u + skip;
    MulCancels(skip, m, u + 1);
  }

  /** Among the sub-block heads of a block, exactly the second one is linked, to the first. */
  lemma HeadsOfBlock(b: nat, depth: nat, skip: nat, q: nat, x: nat)
    requires b >= 2 && depth > 0 && skip == Pow(b, depth)
    requires q * (b * skip) < x < q * (b * skip) + b * skip && x % skip == 0
    ensures Linked(b, x) <==> x == q * (b * skip) + skip
    ensures Linked(b, x) ==> Parent(b, x) == q * (b * skip)
  {
    HeadAsMultiple(b, skip, q, x);
    BlockHead(b, depth, x / skip);
  }

  lemma SecondHead(b: nat, skip: nat, q: nat)
    requires b >= 2 && skip > 0
    ensures (q * (b * skip) + skip) % skip == 0
    ensures skip < b * skip
  {
    assert q * (b * skip) + skip == skip * (b * q + 1);
    DivMod(skip, b * q + 1, 0);
    assert b * skip >= 2 * skip by { assert (b - 2) * skip >= 0; }
  }

  /** A block that starts at a multiple of its size links exactly its linked members, each once,
      each to its parent. */
  lemma {:induction false} PairsEmits(b: nat, numNodes: nat, q: nat, depth: nat, size: nat, x: nat)
    requires b >= 2 && size == Pow(b, depth + 1)
    ensures ConnectsTo(Pairs(b, numNodes, q * size, depth), x) == Expected(b, numNodes, q * size, q * size + size, x)
    decreases depth, b + 1
  {
    if depth == 0 {
      assert size == b by { assert b * Pow(b, 0) == b; }
      StarEmits(b, numNodes, q, x);
      assert q * b == b * q;
    } else {
      var skip := Pow(b, depth);
      LevelEmits(b, numNodes, q, depth, skip, x);
    }
  }

  lemma {:induction false} LevelEmits(b: nat, numNodes: nat, q: nat, depth: nat, skip: nat, x: nat)
    requires b >= 2 && depth > 0 && skip == Pow(b, depth)
    ensures ConnectsTo(Pairs(b, numNodes, q * (b * skip), depth), x) ==
            Expected(b, numNodes, q * (b * skip), q * (b * skip) + b * skip, x)
    decreases depth, b, 1
  {
    var index := q * (b * skip);
    BlocksEmits(b, numNodes, q, depth, skip, 0, index, index, index + b * skip, x);
    LevelHeads(b, depth, skip, q, x);
    LevelSplits(b, numNodes, q * (b * skip), depth, skip, b * skip, x);
  }

  lemma LevelHeads(b: nat, depth: nat, skip: nat, q: nat, x: nat)
    requires b >= 2 && depth > 0 && skip == Pow(b, depth)
    ensures skip < b * skip && (q * (b * skip) + skip) % skip == 0
    ensures q * (b * skip) < x < q * (b * skip) + b * skip && x % skip == 0 ==>
              (Linked(b, x) <==> x == q * (b * skip) + skip) && (Linked(b, x) ==> Parent(b, x) == q * (b * skip))
  {
    SecondHead(b, skip, q);
    if q * (b * skip) < x < q * (b * skip) + b * skip && x % skip == 0 {
      HeadsOfBlock(b, depth, skip, q, x);
    }
  }

  /** One level emits its single cross link and then its sub-blocks. */
  lemma LevelSplits(b: nat, numNodes: nat, index: nat, depth: nat, skip: nat, size: nat, x: nat)
    requires b >= 2 && depth > 0 && skip == Pow(b, depth) && skip < size && (index + skip) % skip == 0
    requires index < x < index + size && x % skip == 0 ==>
               (Linked(b, x) <==> x == index + skip) && (Linked(b, x) ==> Parent(b, x) == index)
    requires ConnectsTo(Blocks(b, numNodes, index, depth, skip, 0), x) ==
             if x % skip == 0 then [] else Expected(b, numNodes, index, index + size, x)
    ensures ConnectsTo(Pairs(b, numNodes, index, depth), x) == Expected(b, numNodes, index, index + size, x)
  {
    var cross, rest := Keep(numNodes, index + 1, index + skip + 1, depth), Blocks(b, numNodes, index, depth, skip, 0);
    assert Pairs(b, numNodes, index, depth) == cross + rest;
    ConnectsToConcat(cross, rest, x);
  }

  /** Where sub-block c of a block lies. */
  lemma SubBlock(b: nat, skip: nat, q: nat, c: nat, start: nat, x: nat)
    requires b >= 2 && skip > 0 && c < b && start == q * (b * skip) + c * skip
    ensures start == (b * q + c) * skip
    ensures start + skip == q * (b * skip) + (c + 1) * skip <= q * (b * skip) + b * skip
    ensures start < x < start + skip ==> x % skip != 0
    ensures x % skip != 0 ==> x != start + skip
  {
    BlockNumber(b, skip, q, c);
    MulMonotone(skip, c + 1, b);
    InsideBlock(skip, b * q + c, start, x);
  }

  lemma BlockNumber(b: nat, skip: nat, q: nat, c: nat)
    ensures q * (b * skip) + c * skip == (b * q + c) * skip == skip * (b * q + c)
    ensures (c + 1) * skip == c * skip + skip == skip * (c + 1) && b * skip == skip * b
  {
    var m := b * q;
    assert q * (b * skip) == m * skip;
    assert (m + c) * skip == m * skip + c * skip;
  }

  lemma InsideBlock(skip: nat, m: nat, start: nat, x: nat)
    requires skip > 0 && start == skip * m
    ensures start < x < start + skip ==> x % skip != 0
    ensures x % skip != 0 ==> x != start + skip
  {
    assert start + skip == skip * (m + 1) + 0;
    DivMod(skip, m + 1, 0);
    BlockOf(skip, m, x);
  }

  lemma {:induction false} BlocksEmits(
    b: nat, numNodes: nat, q: nat, depth: nat, skip: nat, c: nat, index: nat, start: nat, hi: nat, x: nat)
    requires b >= 2 && depth > 0 && c <= b && skip == Pow(b, depth)
    requires index == q * (b * skip) && start == index + c * skip && hi == index + b * skip
    ensures ConnectsTo(Blocks(b, numNodes, index, depth, skip, c), x) ==
            if x % skip == 0 then [] else Expected(b, numNodes, start, hi, x)
    decreases depth, b - c, 0
  {
    if c < b {
      SubBlock(b, skip, q, c, start, x);
      ConnectsToConcat(Pairs(b, numNodes, start, depth - 1), Blocks(b, numNodes, index, depth, skip, c + 1), x);
      PairsEmits(b, numNodes, b * q + c, depth - 1, skip, x);
      BlocksEmits(b, numNodes, q, depth, skip, c + 1, index, start + skip, hi, x);
      NextBlock(b, numNodes, start, start + skip, hi, x, x % skip == 0);
    }
  }

  /** What two neighbouring ranges expect, given that only x at a head is between them. */
  lemma NextBlock(b: nat, numNodes: nat, lo: nat, mid: nat, hi: nat, x: nat, isHead: bool)
    requires b >= 2 && lo <= mid <= hi && (isHead ==> !(lo < x < mid)) && (!isHead ==> x != mid)
    ensures Expected(b, numNodes, lo, mid, x) + (if isHead then [] else Expected(b, numNodes, mid, hi, x)) ==
            if isHead then [] else Expected(b, numNodes, lo, hi, x)
  {
  }

  /** The whole generator, for any depth that covers the nodes: a node is told to connect
      exactly when its lowest nonzero digit allows it, then once, and to its parent. */
  lemma LinksOfEveryBase(b: nat, numNodes: nat, depth: nat, x: nat)
    requires b >= 2 && Pow(b, depth + 1) >= numNodes
    ensures ConnectsTo(Pairs(b, numNodes, 0, depth), x) ==
            if 0 < x < numNodes && Linked(b, x) then [Parent(b, x) + 1] else []
  {
    PairsEmits(b, numNodes, 0, depth, Pow(b, depth + 1), x);
  }

  // ----- starting anywhere -----

  /** The links es, all nodes moved up by d. */
  function Moved(es: seq<Edge>, d: nat): (r: seq<Edge>)
    ensures |r| == |es|
  {
    seq(|es|, k requires 0 <= k < |es| => Edge(es[k].to + d, es[k].from + d, es[k].depth))
  }

  lemma MovedConcat(a: seq<Edge>, b: seq<Edge>, d: nat)
    ensures Moved(a + b, d) == Moved(a, d) + Moved(b, d)
  {
  }

  lemma {:induction false} FanMoves(numNodes: nat, index: nat, lo: nat, hi: nat, d: nat)
    ensures Fan(numNodes + d, index + d, lo + d, hi + d) == Moved(Fan(numNodes, index, lo, hi), d)
    decreases hi + 1 - lo
  {
    if lo > hi {
    } else {
      FanMoves(numNodes, index, lo + 1, hi, d);
      MovedConcat(Keep(numNodes, index + 1, lo, 0), Fan(numNodes, index, lo + 1, hi), d);
    }
  }

  /** The generator does not care where it starts: with as many nodes from there on, it emits the
      same links, moved. */
  lemma {:induction false} PairsMove(b: nat, numNodes: nat, index: nat, depth: nat, d: nat)
    ensures Pairs(b, numNodes + d, index + d, depth) == Moved(Pairs(b, numNodes, index, depth), d)
    decreases depth, b + 1
  {
    if depth == 0 {
      FanMoves(numNodes, index, index + 2, index + Pow(b, depth + 1), d);
    } else {
      var skip := Pow(b, depth);
      BlocksMove(b, numNodes, index, depth, skip, 0, d);
      MovedConcat(Keep(numNodes, index + 1, index + skip + 1, depth), Blocks(b, numNodes, index, depth, skip, 0), d);
    }
  }

  lemma {:induction false} BlocksMove(b: nat, numNodes: nat, index: nat, depth: nat, skip: nat, c: nat, d: nat)
    requires depth > 0
    ensures Blocks(b, numNodes + d, index + d, depth, skip, c) == Moved(Blocks(b, numNodes, index, depth, skip, c), d)
    decreases depth, b - c
  {
    if c >= b {
    } else {
      var at := index + c * skip;
      BlocksStep(b, numNodes, index, depth, skip, c, at);
      BlocksStep(b, numNodes + d, index + d, depth, skip, c, at + d);
      PairsMove(b, numNodes, at, depth - 1, d);
      BlocksMove(b, numNodes, index, depth, skip, c + 1, d);
      MovedConcat(Pairs(b, numNodes, at, depth - 1), Blocks(b, numNodes, index, depth, skip, c + 1), d);
    }
  }

  lemma BlocksStep(b: nat, numNodes: nat, index: nat, depth: nat, skip: nat, c: nat, at: nat)
    requires depth > 0 && c < b && at == index + c * skip
    ensures Blocks(b, numNodes, index, depth, skip, c) ==
            Pairs(b, numNodes, at, depth - 1) + Blocks(b, numNodes, index, depth, skip, c + 1)
  {
  }

  lemma {:induction false} ConnectsMoved(es: seq<Edge>, d: nat, x: nat, to: nat)
    requires ConnectsTo(es, x) == [to]
    ensures ConnectsTo(Moved(es, d), x + d) == [to + d]
  {
    var rest := ConnectsTo(es[1..], x);
    assert Moved(es, d)[1..] == Moved(es[1..], d);
    if es[0].from == x + 1 {
      assert ConnectsTo(es, x)[0] == es[0].to && |rest| == 0;
      NotConnected(es[1..], d, x);
    } else {
      ConnectsMoved(es[1..], d, x, to);
    }
  }

  lemma {:induction false} NotConnected(es: seq<Edge>, d: nat, x: nat)
    requires ConnectsTo(es, x) == []
    ensures ConnectsTo(Moved(es, d), x + d) == []
  {
    if |es| == 0 {
    } else {
      assert Moved(es, d)[1..] == Moved(es[1..], d);
      NotConnected(es[1..], d, x);
    }
  }

  /** Every link from any start index. */
  lemma LinksFromAnywhere(b: nat, numNodes: nat, index: nat, depth: nat, x: nat)
    requires b >= 2 && Pow(b, depth + 1) >= numNodes
    ensures ConnectsTo(Pairs(b, numNodes + index, index, depth), x + index) ==
            if 0 < x < numNodes && Linked(b, x) then [Parent(b, x) + 1 + index] else []
  {
    var es := Pairs(b, numNodes, 0, depth);
    PairsMove(b, numNodes, 0, depth, index);
    LinksOfEveryBase(b, numNodes, depth, x);
    if 0 < x < numNodes && Linked(b, x) {
      ConnectsMoved(es, index, x, Parent(b, x) + 1);
    } else {
      NotConnected(es, index, x);
    }
  }

  /** The links make a tree rooted at node 0 of exactly the nodes below numNodes: node 0
      connects to nobody and every other node once, to a smaller one. */
  ghost predicate Spans(es: seq<Edge>, numNodes: nat) {
    && ConnectsTo(es, 0) == []
    && forall x: nat :: 0 < x < numNodes ==> |ConnectsTo(es, x)| == 1 && 1 <= ConnectsTo(es, x)[0] <= x
  }

  // ----- base 2 -----

  /** The lowest set bit of x. */
  function LowBit(x: nat): (r: nat)
    requires x > 0
    ensures 0 < r <= x
  {
    if x % 2 == 1 then 1 else 2 * LowBit(x / 2)
  }

  lemma {:induction false} LowerIsClearing(y: nat)
    requires y > 0
    ensures LowestDigitIsOne(2, y)
    ensures LowerLowestDigit(2, y) == y - LowBit(y)
  {
    if y % 2 == 0 {
      LowerIsClearing(y / 2);
    }
  }

  /** Base 2: every node but the root is linked, to itself with its lowest set bit cleared. */
  lemma BinaryParent(x: nat)
    requires x > 0
    ensures Linked(2, x)
    ensures Parent(2, x) == x - LowBit(x)
  {
    if x % 2 == 0 {
      LowerIsClearing(x / 2);
    }
  }

  /** Base 2 spans for every number of nodes and every depth that covers them. */
  lemma BinaryTreeSpans(numNodes: nat, depth: nat)
    requires Pow(2, depth + 1) >= numNodes
    ensures Spans(Pairs(2, numNodes, 0, depth), numNodes)
    ensures forall x: nat :: ConnectsTo(Pairs(2, numNodes, 0, depth), x) ==
                             if 0 < x < numNodes then [x - LowBit(x) + 1] else []
  {
    forall x: nat
      ensures ConnectsTo(Pairs(2, numNodes, 0, depth), x) == if 0 < x < numNodes then [x - LowBit(x) + 1] else []
    {
      LinksOfEveryBase(2, numNodes, depth, x);
      if x > 0 {
        BinaryParent(x);
      }
    }
  }

  // ----- larger bases -----

  lemma WideLink(b: nat, x: nat)
    requires b >= 2 && 0 < x < 2 * b
    ensures Linked(b, x) && Parent(b, x) == if x <= b then 0 else b
  {
    if x == b {
      DivMod(b, 1, 0);
      DivMod(b, 0, 1);
    } else if x < b {
      DivMod(b, 0, x);
    } else {
      DivMod(b, 1, x - b);
    }
  }

  /** For a base above 2 only one sub-block head per level is linked, so the links span
      exactly when there are at most two blocks. */
  lemma WideTreeSpans(b: nat, numNodes: nat, depth: nat)
    requires b > 2 && Pow(b, depth + 1) >= numNodes
    ensures Spans(Pairs(b, numNodes, 0, depth), numNodes) <==> numNodes <= 2 * b
    ensures numNodes > 2 * b ==> ConnectsTo(Pairs(b, numNodes, 0, depth), 2 * b) == []
  {
    var es := Pairs(b, numNodes, 0, depth);
    LinksOfEveryBase(b, numNodes, depth, 0);
    if numNodes <= 2 * b {
      forall x: nat | 0 < x < numNodes
        ensures |ConnectsTo(es, x)| == 1 && 1 <= ConnectsTo(es, x)[0] <= x
      {
        LinksOfEveryBase(b, numNodes, depth, x);
        WideLink(b, x);
      }
    } else {
      LinksOfEveryBase(b, numNodes, depth, 2 * b);
      DivMod(b, 2, 0);
      DivMod(b, 0, 2);
    }
  }
}

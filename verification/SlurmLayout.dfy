/** The two-level layout of lua/SlurmTree.lua (lines 36-69): a binary tree between the tasks of
    each host, and one between the first tasks of the hosts. */
module SlurmLayout {
  import opened Arithmetic
  import opened Topology
  import opened OrderedTree
  import opened HandshakeFacts
  import Network
  import Handshake
  import HandshakeRun
  import HandshakeProof

  // ----- hosts and the tasks on them -----

  lemma {:induction false} TimesGrows(size: nat, g: nat, h: nat)
    requires g <= h
    ensures Times(size, g) <= Times(size, h)
    ensures g < h ==> Times(size, g) + size <= Times(size, h)
  {
    if g < h { TimesGrows(size, g, h - 1); }
  }

  /** No two nodes share host and task number. */
  lemma SameNode(size: nat, g: nat, k: nat, h: nat, l: nat)
    requires k < size && l < size
    ensures Times(size, g) + k == Times(size, h) + l <==> g == h && k == l
  {
    if g < h { TimesGrows(size, g, h); }
    if h < g { TimesGrows(size, h, g); }
  }

  // ----- the links -----

  /** The local loop over hosts: linkFunc(startIdx + to, startIdx + from), startIdx growing by
      `tasks` from host to host. */
  function OnHosts(e: Edge, tasks: nat, startIdx: nat, numHosts: nat): seq<Edge>
    decreases numHosts
  {
    if numHosts == 0 then []
    else [Edge(startIdx + e.to, startIdx + e.from, e.depth)] + OnHosts(e, tasks, startIdx + tasks, numHosts - 1)
  }

  function LocalLinks(es: seq<Edge>, tasks: nat, numHosts: nat): seq<Edge> {
    if |es| == 0 then [] else OnHosts(es[0], tasks, 0, numHosts) + LocalLinks(es[1..], tasks, numHosts)
  }

  /** linkFunc((to - 1) * tasks + 1, (from - 1) * tasks + 1) */
  function HeadLink(e: Edge, tasks: nat): seq<Edge> {
    if e.to >= 1 && e.from >= 1 then [Edge(Times(tasks, e.to - 1) + 1, Times(tasks, e.from - 1) + 1, e.depth)] else []
  }

  function HeadLinks(es: seq<Edge>, tasks: nat): seq<Edge> {
    if |es| == 0 then [] else HeadLink(es[0], tasks) + HeadLinks(es[1..], tasks)
  }

  /** math.ceil(numNodes / tasks) */
  function NumHosts(numNodes: nat, tasks: nat): nat
    requires tasks > 0
  {
    (numNodes + tasks - 1) / tasks
  }

  function BuildTree(base: nat, numNodes: nat, tasks: nat, depth: nat): seq<Edge>
    requires tasks > 0
  {
    var numHosts := NumHosts(numNodes, tasks);
    LocalLinks(Pairs(base, tasks, 0, depth), tasks, numHosts) + HeadLinks(Pairs(base, numHosts, 0, depth), tasks)
  }

  // ----- two trees, one inside the nodes of the other -----

  function Compose(outer: Tree, inner: Tree): Tree {
    Tree(inner.n * outer.n,
         (x: nat) => if inner.n == 0 then 0
                     else if x % inner.n > 0 then inner.n * (x / inner.n) + inner.parent(x % inner.n)
                     else inner.n * outer.parent(x / inner.n))
  }

  function ComposeEnd(oe: nat -> nat, ie: nat -> nat, size: nat): nat -> nat {
    (x: nat) => if size == 0 then 0
                else if x % size > 0 then size * (x / size) + ie(x % size)
                else size * oe(x / size)
  }

  /** Node l of host h. */
  lemma AtHost(outer: Tree, inner: Tree, oe: nat -> nat, ie: nat -> nat, h: nat, l: nat)
    requires l < inner.n
    ensures var s := inner.n; var x := s * h + l;
            && Compose(outer, inner).parent(x) == (if l > 0 then s * h + inner.parent(l) else s * outer.parent(h))
            && ComposeEnd(oe, ie, s)(x) == (if l > 0 then s * h + ie(l) else s * oe(h))
  {
    DivMod(inner.n, h, l);
  }

  /** Node x is number l of host h. */
  lemma Coordinates(size: nat, hosts: nat, x: nat) returns (h: nat, l: nat)
    requires size > 0
    ensures x == size * h + l && l < size
    ensures x < size * hosts <==> h < hosts
  {
    h, l := x / size, x % size;
    if h < hosts {
      MulMonotone(size, h + 1, hosts);
      assert size * (h + 1) == size * h + size;
    } else {
      MulMonotone(size, hosts, h);
    }
  }

  /** A host's nodes lie inside its interval. */
  lemma HostSpan(size: nat, h: nat, l: nat, k: nat)
    requires l < size && h < k
    ensures size * h + l < size * h + size <= size * k
  {
    MulMonotone(size, h + 1, k);
    assert size * (h + 1) == size * h + size;
  }

  lemma ParentInside(outer: Tree, inner: Tree, oe: nat -> nat, ie: nat -> nat, h: nat, l: nat)
    requires Contiguous(outer, oe) && Contiguous(inner, ie) && h < outer.n && l < inner.n && h + l > 0
    ensures var x := inner.n * h + l; var p := Compose(outer, inner).parent(x);
            p < x && Inside(ComposeEnd(oe, ie, inner.n), p, x)
  {
    var s := inner.n;
    AtHost(outer, inner, oe, ie, h, l);
    if l > 0 {
      assert Inside(ie, inner.parent(l), l);
      AtHost(outer, inner, oe, ie, h, inner.parent(l));
      HostSpan(s, h, l, oe(h));
    } else {
      assert Inside(oe, outer.parent(h), h);
      AtHost(outer, inner, oe, ie, outer.parent(h), 0);
      MulCancels(s, outer.parent(h), h);
      MulCancels(s, h, oe(outer.parent(h)));
    }
  }

  /** The same for a task that is not the host's first, when the host's nodes begin at start. */
  lemma AtTask(outer: Tree, inner: Tree, oe: nat -> nat, ie: nat -> nat, h: nat, l: nat, start: nat)
    requires 0 < l < inner.n && start == inner.n * h
    ensures Compose(outer, inner).parent(start + l) == start + inner.parent(l)
    ensures ComposeEnd(oe, ie, inner.n)(start + l) == start + ie(l)
  {
    AtHost(outer, inner, oe, ie, h, l);
  }

  lemma LaminarInHost(outer: Tree, inner: Tree, oe: nat -> nat, ie: nat -> nat, h: nat, j: nat, x: nat)
    requires Contiguous(inner, ie) && h < outer.n && 0 < j < inner.n
    requires Inside(ComposeEnd(oe, ie, inner.n), inner.n * h + j, x)
    ensures inner.n * h + j <= Compose(outer, inner).parent(x)
    ensures ComposeEnd(oe, ie, inner.n)(x) <= ComposeEnd(oe, ie, inner.n)(inner.n * h + j)
  {
    var start := inner.n * h;
    AtTask(outer, inner, oe, ie, h, j, start);
    var l := x - start;
    LaminarTask(inner, ie, j, l);
    AtTask(outer, inner, oe, ie, h, l, start);
  }

  lemma LaminarTask(inner: Tree, ie: nat -> nat, j: nat, l: nat)
    requires Contiguous(inner, ie) && j < inner.n && j < l < ie(j)
    ensures l < inner.n && j <= inner.parent(l) && ie(l) <= ie(j)
  {
    assert Inside(ie, j, l);
  }

  lemma LaminarAcrossHosts(outer: Tree, inner: Tree, oe: nat -> nat, ie: nat -> nat, h: nat, g: nat, l: nat)
    requires Contiguous(outer, oe) && Contiguous(inner, ie) && h < outer.n && l < inner.n
    requires h <= g < oe(h) && (g > h || l > 0)
    ensures inner.n * h <= Compose(outer, inner).parent(inner.n * g + l)
    ensures ComposeEnd(oe, ie, inner.n)(inner.n * g + l) <= inner.n * oe(h)
  {
    var s := inner.n;
    AtHost(outer, inner, oe, ie, g, l);
    if l > 0 {
      MulMonotone(s, h, g);
      HostSpan(s, g, l, oe(h));
    } else {
      assert Inside(oe, h, g);
      MulMonotone(s, h, outer.parent(g));
      MulMonotone(s, oe(g), oe(h));
    }
  }

  /** From a host's first node to the end of its interval there are only that host and later ones. */
  lemma HostsBetween(size: nat, h: nat, e: nat, x: nat) returns (g: nat, l: nat)
    requires size > 0 && size * h < x < size * e
    ensures h <= g < e && l < size && x == size * g + l && (g > h || l > 0)
  {
    g, l := Coordinates(size, e, x);
    assert size * (g + 1) == size * g + size;
    MulCancels(size, h, g + 1);
  }

  lemma LaminarFromHead(outer: Tree, inner: Tree, oe: nat -> nat, ie: nat -> nat, h: nat, x: nat)
    requires Contiguous(outer, oe) && Contiguous(inner, ie) && h < outer.n
    requires Inside(ComposeEnd(oe, ie, inner.n), inner.n * h + 0, x)
    ensures inner.n * h <= Compose(outer, inner).parent(x)
    ensures ComposeEnd(oe, ie, inner.n)(x) <= ComposeEnd(oe, ie, inner.n)(inner.n * h + 0)
  {
    AtHost(outer, inner, oe, ie, h, 0);
    var g, l := HostsBetween(inner.n, h, oe(h), x);
    LaminarAcrossHosts(outer, inner, oe, ie, h, g, l);
  }

  lemma Laminar(outer: Tree, inner: Tree, oe: nat -> nat, ie: nat -> nat, j: nat, x: nat)
    requires Contiguous(outer, oe) && Contiguous(inner, ie) && j < inner.n * outer.n
    requires Inside(ComposeEnd(oe, ie, inner.n), j, x)
    ensures j <= Compose(outer, inner).parent(x)
    ensures ComposeEnd(oe, ie, inner.n)(x) <= ComposeEnd(oe, ie, inner.n)(j)
  {
    var h, l := Coordinates(inner.n, outer.n, j);
    if l > 0 {
      LaminarInHost(outer, inner, oe, ie, h, l, x);
    } else {
      LaminarFromHead(outer, inner, oe, ie, h, x);
    }
  }

  lemma EndBounds(outer: Tree, inner: Tree, oe: nat -> nat, ie: nat -> nat, x: nat)
    requires Contiguous(outer, oe) && Contiguous(inner, ie) && x < inner.n * outer.n
    ensures x < ComposeEnd(oe, ie, inner.n)(x) <= inner.n * outer.n
  {
    var h, l := Coordinates(inner.n, outer.n, x);
    AtHost(outer, inner, oe, ie, h, l);
    HostSpan(inner.n, h, l, outer.n);
    if l == 0 {
      MulCancels(inner.n, h, oe(h));
      MulMonotone(inner.n, oe(h), outer.n);
    }
  }

  lemma RootOfAll(outer: Tree, inner: Tree, oe: nat -> nat, ie: nat -> nat)
    requires Contiguous(outer, oe) && Contiguous(inner, ie)
    ensures inner.n * outer.n >= 1 && ComposeEnd(oe, ie, inner.n)(0) == inner.n * outer.n
  {
    MulMonotone(inner.n, 1, outer.n);
    AtHost(outer, inner, oe, ie, 0, 0);
  }

  /** Subtrees stay intervals. */
  lemma ComposeIsContiguous(outer: Tree, inner: Tree, oe: nat -> nat, ie: nat -> nat)
    requires Contiguous(outer, oe) && Contiguous(inner, ie)
    ensures Contiguous(Compose(outer, inner), ComposeEnd(oe, ie, inner.n))
  {
    var t, end := Compose(outer, inner), ComposeEnd(oe, ie, inner.n);
    RootOfAll(outer, inner, oe, ie);
    forall x: nat | x < t.n
      ensures x < end(x) <= t.n
    {
      EndBounds(outer, inner, oe, ie, x);
    }
    forall x: nat | 0 < x < t.n
      ensures t.parent(x) < x && Inside(end, t.parent(x), x)
    {
      var h, l := Coordinates(inner.n, outer.n, x);
      ParentInside(outer, inner, oe, ie, h, l);
    }
    forall j: nat, x: nat | j < t.n && Inside(end, j, x)
      ensures j <= t.parent(x) && end(x) <= end(j)
    {
      Laminar(outer, inner, oe, ie, j, x);
    }
  }

  // ----- what the links say -----

  /** Each entry of `tos` moved to the host that starts at `start`. */
  function Shift(tos: seq<nat>, start: nat): seq<nat> {
    seq(|tos|, i requires 0 <= i < |tos| => start + tos[i])
  }

  /** The same for a host of its own: node x is number l of the host `k` further on. */
  lemma {:induction false} OnHostsConnects(e: Edge, tasks: nat, startIdx: nat, numHosts: nat, k: nat, l: nat)
    requires 1 <= e.from <= tasks && l < tasks && k < numHosts
    ensures ConnectsTo(OnHosts(e, tasks, startIdx, numHosts), startIdx + Times(tasks, k) + l) ==
            if e.from == l + 1 then [startIdx + Times(tasks, k) + e.to] else []
    decreases numHosts
  {
    var x := startIdx + Times(tasks, k) + l;
    var edge := Edge(startIdx + e.to, startIdx + e.from, e.depth);
    var rest := OnHosts(e, tasks, startIdx + tasks, numHosts - 1);
    ConnectsToConcat([edge], rest, x);
    if k == 0 {
      LaterHosts(e, tasks, startIdx + tasks, numHosts - 1, x);
    } else {
      OnHostsConnects(e, tasks, startIdx + tasks, numHosts - 1, k - 1, l);
      TimesGrows(tasks, 1, k);
    }
  }

  lemma {:induction false} LaterHosts(e: Edge, tasks: nat, startIdx: nat, numHosts: nat, x: nat)
    requires 1 <= e.from && x < startIdx
    ensures ConnectsTo(OnHosts(e, tasks, startIdx, numHosts), x) == []
    decreases numHosts
  {
    if numHosts == 0 {
    } else {
      var edge := Edge(startIdx + e.to, startIdx + e.from, e.depth);
      var rest := OnHosts(e, tasks, startIdx + tasks, numHosts - 1);
      ConnectsToConcat([edge], rest, x);
      LaterHosts(e, tasks, startIdx + tasks, numHosts - 1, x);
    }
  }

  lemma {:induction false} LocalConnects(es: seq<Edge>, tasks: nat, numHosts: nat, h: nat, l: nat)
    requires InRange(es, tasks) && l < tasks && h < numHosts
    ensures ConnectsTo(LocalLinks(es, tasks, numHosts), Times(tasks, h) + l) ==
            Shift(ConnectsTo(es, l), Times(tasks, h))
  {
    if |es| == 0 {
    } else {
      InRangeTail(es, tasks);
      var start := Times(tasks, h);
      var here, rest := OnHosts(es[0], tasks, 0, numHosts), LocalLinks(es[1..], tasks, numHosts);
      OnHostsConnects(es[0], tasks, 0, numHosts, h, l);
      LocalConnects(es[1..], tasks, numHosts, h, l);
      OneMore(es, here, rest, start, l, start + l);
    }
  }

  lemma OneMore(es: seq<Edge>, here: seq<Edge>, rest: seq<Edge>, start: nat, l: nat, x: nat)
    requires |es| > 0 && ConnectsTo(here, x) == (if es[0].from == l + 1 then [start + es[0].to] else [])
    requires ConnectsTo(rest, x) == Shift(ConnectsTo(es[1..], l), start)
    ensures ConnectsTo(here + rest, x) == Shift(ConnectsTo(es, l), start)
  {
    ConnectsToConcat(here, rest, x);
    var first := if es[0].from == l + 1 then [es[0].to] else [];
    assert ConnectsTo(es, l) == first + ConnectsTo(es[1..], l);
    assert Shift(first, start) == ConnectsTo(here, x);
    ShiftConcat(first, ConnectsTo(es[1..], l), start);
  }

  lemma ShiftConcat(a: seq<nat>, b: seq<nat>, start: nat)
    ensures Shift(a + b, start) == Shift(a, start) + Shift(b, start)
  {
  }

  lemma InRangeTail(es: seq<Edge>, n: nat)
    requires |es| > 0 && InRange(es, n)
    ensures InRange(es[1..], n) && 1 <= es[0].from <= n && 1 <= es[0].to <= n
  {
    assert es[0] in es && forall e :: e in es[1..] ==> e in es;
  }

  /** The hosts' links, moved to the first task of each host. */
  function Spread(tos: seq<nat>, tasks: nat): seq<nat> {
    seq(|tos|, i requires 0 <= i < |tos| => if tos[i] >= 1 then Times(tasks, tos[i] - 1) + 1 else 0)
  }

  lemma {:induction false} HeadConnects(es: seq<Edge>, tasks: nat, numHosts: nat, h: nat, l: nat)
    requires InRange(es, numHosts) && l < tasks
    ensures ConnectsTo(HeadLinks(es, tasks), Times(tasks, h) + l) == if l == 0 then Spread(ConnectsTo(es, h), tasks)
            else []
  {
    if |es| == 0 {
    } else {
      assert es[0] in es && forall e :: e in es[1..] ==> e in es;
      HeadConnects(es[1..], tasks, numHosts, h, l);
      SameNode(tasks, es[0].from - 1, 0, h, l);
      OneMoreHead(es, tasks, h, l, Times(tasks, h) + l);
    }
  }

  lemma OneMoreHead(es: seq<Edge>, tasks: nat, h: nat, l: nat, x: nat)
    requires |es| > 0 && es[0].from >= 1 && es[0].to >= 1
    requires Times(tasks, es[0].from - 1) == x <==> l == 0 && es[0].from == h + 1
    requires ConnectsTo(HeadLinks(es[1..], tasks), x) == if l == 0 then Spread(ConnectsTo(es[1..], h), tasks) else []
    ensures ConnectsTo(HeadLinks(es, tasks), x) == if l == 0 then Spread(ConnectsTo(es, h), tasks) else []
  {
    var e := es[0];
    ConnectsToConcat(HeadLink(e, tasks), HeadLinks(es[1..], tasks), x);
    HeadLinkConnects(e, tasks, x);
    if l == 0 {
      SpreadMore(es, tasks, h);
    }
  }

  lemma HeadLinkConnects(e: Edge, tasks: nat, x: nat)
    requires e.from >= 1 && e.to >= 1
    ensures ConnectsTo(HeadLink(e, tasks), x) == if Times(tasks, e.from - 1) == x then [Times(tasks, e.to - 1) + 1]
            else []
  {
  }

  lemma SpreadMore(es: seq<Edge>, tasks: nat, h: nat)
    requires |es| > 0 && es[0].to >= 1
    ensures Spread(ConnectsTo(es, h), tasks) ==
            (if es[0].from == h + 1 then [Times(tasks, es[0].to - 1) + 1] else []) +
              Spread(ConnectsTo(es[1..], h), tasks)
  {
    var first, rest := if es[0].from == h + 1 then [es[0].to] else [], ConnectsTo(es[1..], h);
    assert ConnectsTo(es, h) == first + rest;
    assert Spread(first + rest, tasks) == Spread(first, tasks) + Spread(rest, tasks);
    assert Spread(first, tasks) == if es[0].from == h + 1 then [Times(tasks, es[0].to - 1) + 1] else [];
  }

  // ----- the links stay among the nodes exactly when every host is full -----

  lemma {:induction false} NoneBeyond(es: seq<Edge>, n: nat, x: nat)
    requires InRange(es, n) && x >= n
    ensures ConnectsTo(es, x) == []
  {
    if |es| == 0 {
    } else {
      assert es[0] in es && forall e :: e in es[1..] ==> e in es;
      NoneBeyond(es[1..], n, x);
    }
  }

  lemma {:induction false} OnHostsInRange(e: Edge, tasks: nat, startIdx: nat, numHosts: nat)
    requires 1 <= e.from <= tasks && 1 <= e.to <= tasks
    ensures InRange(OnHosts(e, tasks, startIdx, numHosts), startIdx + Times(tasks, numHosts))
    decreases numHosts
  {
    if numHosts == 0 {
    } else {
      OnHostsInRange(e, tasks, startIdx + tasks, numHosts - 1);
    }
  }

  lemma {:induction false} LocalInRange(es: seq<Edge>, tasks: nat, numHosts: nat)
    requires InRange(es, tasks)
    ensures InRange(LocalLinks(es, tasks, numHosts), Times(tasks, numHosts))
  {
    if |es| == 0 {
    } else {
      assert es[0] in es && forall e :: e in es[1..] ==> e in es;
      OnHostsInRange(es[0], tasks, 0, numHosts);
      LocalInRange(es[1..], tasks, numHosts);
    }
  }

  lemma {:induction false} HeadsInRange(es: seq<Edge>, tasks: nat, numHosts: nat)
    requires InRange(es, numHosts) && tasks > 0
    ensures InRange(HeadLinks(es, tasks), Times(tasks, numHosts))
  {
    if |es| == 0 {
    } else {
      InRangeTail(es, numHosts);
      HeadsInRange(es[1..], tasks, numHosts);
      TimesGrows(tasks, es[0].from - 1, numHosts);
      TimesGrows(tasks, es[0].to - 1, numHosts);
    }
  }

  lemma LinksInRange(base: nat, numNodes: nat, tasks: nat, depth: nat)
    requires tasks > 0
    ensures InRange(BuildTree(base, numNodes, tasks, depth), Times(tasks, NumHosts(numNodes, tasks)))
  {
    var numHosts := NumHosts(numNodes, tasks);
    HandshakeProof.PairsInRange(base, tasks, 0, depth);
    HandshakeProof.PairsInRange(base, numHosts, 0, depth);
    LocalInRange(Pairs(base, tasks, 0, depth), tasks, numHosts);
    HeadsInRange(Pairs(base, numHosts, 0, depth), tasks, numHosts);
  }

  lemma BinaryLink(n: nat, depth: nat, x: nat, es: seq<Edge>)
    requires Pow(2, depth + 1) >= n && es == Pairs(2, n, 0, depth)
    ensures ConnectsTo(es, x) == if 0 < x < n then [x - LowBit(x) + 1] else []
  {
    BinaryTreeSpans(n, depth);
  }

  lemma LocalLinksOf(tasks: nat, depth: nat, numHosts: nat, h: nat, l: nat)
    requires h < numHosts && l < tasks && Pow(2, depth + 1) >= tasks
    ensures ConnectsTo(LocalLinks(Pairs(2, tasks, 0, depth), tasks, numHosts), Times(tasks, h) + l) ==
            if l > 0 then [Times(tasks, h) + (l - LowBit(l) + 1)] else []
  {
    var es := Pairs(2, tasks, 0, depth);
    HandshakeProof.PairsInRange(2, tasks, 0, depth);
    BinaryLink(tasks, depth, l, es);
    LocalLinksAt(es, tasks, numHosts, h, l, Times(tasks, h));
  }

  lemma LocalLinksAt(es: seq<Edge>, tasks: nat, numHosts: nat, h: nat, l: nat, start: nat)
    requires InRange(es, tasks) && l < tasks && h < numHosts && start == Times(tasks, h)
    requires ConnectsTo(es, l) == if l > 0 then [l - LowBit(l) + 1] else []
    ensures ConnectsTo(LocalLinks(es, tasks, numHosts), start + l) == if l > 0 then [start + (l - LowBit(l) + 1)]
            else []
  {
    LocalConnects(es, tasks, numHosts, h, l);
    if l > 0 {
      ShiftOne(l - LowBit(l) + 1, start);
    }
  }

  lemma ShiftOne(to: nat, start: nat)
    ensures Shift([to], start) == [start + to]
  {
  }

  lemma HeadLinksOf(tasks: nat, depth: nat, numHosts: nat, h: nat, l: nat)
    requires h < numHosts && l < tasks && Pow(2, depth + 1) >= numHosts
    ensures ConnectsTo(HeadLinks(Pairs(2, numHosts, 0, depth), tasks), Times(tasks, h) + l) ==
            if l == 0 && h > 0 then [Times(tasks, h - LowBit(h)) + 1] else []
  {
    var es := Pairs(2, numHosts, 0, depth);
    HandshakeProof.PairsInRange(2, numHosts, 0, depth);
    HeadConnects(es, tasks, numHosts, h, l);
    BinaryLink(numHosts, depth, h, es);
  }

  /** Every link of task l on host h, whatever the number of nodes. */
  lemma LinksOf(numNodes: nat, tasks: nat, depth: nat, numHosts: nat, h: nat, l: nat)
    requires tasks > 0 && numHosts == NumHosts(numNodes, tasks) && h < numHosts && l < tasks
    requires Pow(2, depth + 1) >= tasks && Pow(2, depth + 1) >= numHosts
    ensures ConnectsTo(BuildTree(2, numNodes, tasks, depth), Times(tasks, h) + l) ==
            if l > 0 then [Times(tasks, h) + (l - LowBit(l) + 1)]
            else if h > 0 then [Times(tasks, h - LowBit(h)) + 1]
            else []
  {
    LocalLinksOf(tasks, depth, numHosts, h, l);
    HeadLinksOf(tasks, depth, numHosts, h, l);
    ConnectsToConcat(LocalLinks(Pairs(2, tasks, 0, depth), tasks, numHosts),
      HeadLinks(Pairs(2, numHosts, 0, depth), tasks), Times(tasks, h) + l);
  }

  lemma FullHosts(tasks: nat, hosts: nat)
    requires tasks > 0
    ensures NumHosts(tasks * hosts, tasks) == hosts
  {
    DivMod(tasks, hosts, tasks - 1);
  }

  lemma PartHosts(numNodes: nat, tasks: nat)
    requires tasks > 0
    ensures numNodes <= tasks * NumHosts(numNodes, tasks) < numNodes + tasks
    ensures numNodes % tasks == 0 <==> numNodes == tasks * NumHosts(numNodes, tasks)
  {
    var h := NumHosts(numNodes, tasks);
    var r := (numNodes + tasks - 1) % tasks;
    assert numNodes + tasks - 1 == tasks * h + r;
    if numNodes % tasks == 0 {
      FullHosts(tasks, numNodes / tasks);
    } else if numNodes == tasks * h {
      DivMod(tasks, h, 0);
    }
  }

  /** With a host that is not full, a link names a node that does not exist (and its parent
      would wait for it); with full hosts, no link does. */
  lemma LinksExactWhenHostsFull(numNodes: nat, tasks: nat, depth: nat)
    requires tasks > 0 && numNodes > 0 && Pow(2, depth + 1) >= numNodes && Pow(2, depth + 1) >= tasks
    ensures InRange(BuildTree(2, numNodes, tasks, depth), numNodes) <==> numNodes % tasks == 0
  {
    var hosts := NumHosts(numNodes, tasks);
    var es := BuildTree(2, numNodes, tasks, depth);
    PartHosts(numNodes, tasks);
    TimesIsProduct(tasks, hosts);
    LinksInRange(2, numNodes, tasks, depth);
    if numNodes % tasks != 0 && InRange(es, numNodes) {
      assert hosts > 0 && hosts <= numNodes by { MulMonotone(hosts, 1, tasks); assert tasks * 0 == 0;
        FewerHosts(numNodes, tasks, hosts); }
      LinksOf(numNodes, tasks, depth, hosts, hosts - 1, tasks - 1);
      NoneBeyond(es, numNodes, Times(tasks, hosts - 1) + (tasks - 1));
    }
  }

  /** Three nodes with two tasks to a host: the links make up a fourth node, and tell it to connect
      to the third. */
  lemma LastHostHalfEmpty(n: nat, tasks: nat, depth: nat)
    requires n == 3 && tasks == 2 && depth == 1
    ensures ConnectsTo(BuildTree(2, n, tasks, depth), 3) == [3] && !InRange(BuildTree(2, n, tasks, depth), n)
  {
    var host, task := 1, 1;
    FourIsEnough(depth);
    TimesIsProduct(tasks, host);
    LinksOf(n, tasks, depth, NumHosts(n, tasks), host, task);
    LinksExactWhenHostsFull(n, tasks, depth);
  }

  lemma FourIsEnough(depth: nat)
    requires depth == 1
    ensures Pow(2, depth + 1) == 4
  {
    assert Pow(2, depth + 1) == 2 * Pow(2, depth) && Pow(2, depth) == 2 * Pow(2, depth - 1);
  }

  lemma FewerHosts(numNodes: nat, tasks: nat, hosts: nat)
    requires tasks > 0 && numNodes > 0 && tasks * hosts < numNodes + tasks
    ensures hosts <= numNodes
  {
    if hosts > numNodes {
      MulMonotone(tasks, numNodes + 1, hosts);
      assert tasks * (numNodes + 1) == tasks * numNodes + tasks;
      assert tasks * numNodes >= numNodes by { assert (tasks - 1) * numNodes >= 0; }
    }
  }

  /** With full hosts the links are the two-level tree: node l > 0 of a host hangs below its
      binary parent on that host, the first node of a host below the first node of its binary
      parent host. */
  lemma SlurmLinksDraw(hosts: nat, tasks: nat, depth: nat, numNodes: nat)
    requires hosts >= 1 && tasks >= 1 && numNodes == tasks * hosts >= 2 && Pow(2, depth + 1) >= numNodes
    ensures Draws(BuildTree(2, numNodes, tasks, depth), Compose(BinaryTree(hosts), BinaryTree(tasks)))
    ensures Contiguous(Compose(BinaryTree(hosts), BinaryTree(tasks)),
            ComposeEnd(BinaryEnd(hosts), BinaryEnd(tasks), tasks))
  {
    var outer, inner := BinaryTree(hosts), BinaryTree(tasks);
    var es, t := BuildTree(2, numNodes, tasks, depth), Compose(outer, inner);
    BinaryIsContiguous(hosts);
    BinaryIsContiguous(tasks);
    ComposeIsContiguous(outer, inner, BinaryEnd(hosts), BinaryEnd(tasks));
    FullHosts(tasks, hosts);
    LinksInRange(2, numNodes, tasks, depth);
    TimesIsProduct(tasks, hosts);
    AtLeast(tasks, hosts);
    forall x: nat
      ensures ConnectsTo(es, x) == if 0 < x < t.n then [t.parent(x) + 1] else []
    {
      LinkOrNone(hosts, tasks, depth, numNodes, x, es, t);
    }
    HandshakeProof.DrawsTree(es, t);
  }

  lemma LinkOrNone(hosts: nat, tasks: nat, depth: nat, numNodes: nat, x: nat, es: seq<Edge>, t: Tree)
    requires hosts >= 1 && tasks >= 1 && numNodes == tasks * hosts == t.n && Pow(2, depth + 1) >= numNodes
    requires Pow(2, depth + 1) >= tasks && Pow(2, depth + 1) >= hosts
    requires es == BuildTree(2, numNodes, tasks, depth) && t == Compose(BinaryTree(hosts), BinaryTree(tasks))
             && InRange(es, numNodes)
    ensures ConnectsTo(es, x) == if 0 < x < t.n then [t.parent(x) + 1] else []
  {
    if x < numNodes {
      SlurmLinkOf(hosts, tasks, depth, numNodes, x);
    } else {
      NoneBeyond(es, numNodes, x);
    }
  }

  /** So the handshake establishes it, in every run. */
  lemma SlurmHandshakeCompletes(s: Handshake.Setup, hosts: nat, tasks: nat, depth: nat)
    returns (total: nat, e: HandshakeRun.Nodes)
    requires hosts >= 1 && tasks >= 1 && s.n == tasks * hosts >= 2 && Pow(2, depth + 1) >= s.n
    requires s.edges == BuildTree(2, s.n, tasks, depth) && HandshakeRun.RootMeetsAll(s)
    requires forall p: nat :: 0 < p < s.n ==>
             HandshakeRun.MeetsChildren(s, Compose(BinaryTree(hosts), BinaryTree(tasks)), p)
    ensures Network.AlwaysEnds(Handshake.Processes(s), Handshake.Initial(s), e, total)
    ensures HandshakeProof.Established(Compose(BinaryTree(hosts), BinaryTree(tasks)), e)
  {
    SlurmLinksDraw(hosts, tasks, depth, s.n);
    total, e := HandshakeProof.HandshakeCompletes(
      s, Compose(BinaryTree(hosts), BinaryTree(tasks)), ComposeEnd(BinaryEnd(hosts), BinaryEnd(tasks), tasks));
  }

  lemma AtLeast(a: nat, b: nat)
    requires a >= 1 && b >= 1
    ensures a * b >= a && a * b >= b
  {
    assert a * (b - 1) >= 0 && (a - 1) * b >= 0;
  }

  lemma SlurmLinkOf(hosts: nat, tasks: nat, depth: nat, numNodes: nat, x: nat)
    requires hosts >= 1 && tasks >= 1 && x < numNodes == tasks * hosts
    requires Pow(2, depth + 1) >= tasks && Pow(2, depth + 1) >= hosts
    ensures ConnectsTo(BuildTree(2, numNodes, tasks, depth), x) ==
            if 0 < x then [Compose(BinaryTree(hosts), BinaryTree(tasks)).parent(x) + 1] else []
  {
    var h, l := Coordinates(tasks, hosts, x);
    FullHosts(tasks, hosts);
    LinksOf(numNodes, tasks, depth, hosts, h, l);
    TimesIsProduct(tasks, h);
    ParentAt(hosts, tasks, h, l, x);
  }

  lemma ParentAt(hosts: nat, tasks: nat, h: nat, l: nat, x: nat)
    requires l < tasks && x == Times(tasks, h) + l
    ensures var parent := Compose(BinaryTree(hosts), BinaryTree(tasks)).parent(x);
            && (l > 0 ==> 0 < x && parent == Times(tasks, h) + (l - LowBit(l)))
            && (l == 0 && h > 0 ==> 0 < x && parent == Times(tasks, h - LowBit(h)))
            && (l == 0 && h == 0 ==> x == 0)
  {
    TimesIsProduct(tasks, h);
    AtHost(BinaryTree(hosts), BinaryTree(tasks), BinaryEnd(hosts), BinaryEnd(tasks), h, l);
    if h > 0 {
      TimesIsProduct(tasks, h - LowBit(h));
    }
  }

  // ----- links between hosts -----

  /** The nodes whose link leaves their host, in a tree given by parents and a root. */
  ghost function Crossing(parent: nat -> nat, root: nat, n: nat, tasks: nat): set<nat>
    requires tasks > 0
  {
    set x: nat | x < n && x != root && parent(x) / tasks != x / tasks
  }

  ghost function FirstTasks(tasks: nat, hosts: nat): set<nat> {
    if hosts <= 1 then {} else FirstTasks(tasks, hosts - 1) + {tasks * (hosts - 1)}
  }

  lemma IsFirstTask(tasks: nat, h: nat, x: nat)
    requires tasks > 0
    ensures x == tasks * h <==> x % tasks == 0 && x / tasks == h
  {
    assert x == tasks * (x / tasks) + x % tasks;
    DivMod(tasks, h, 0);
  }

  lemma {:induction false} FirstTasksAre(tasks: nat, hosts: nat)
    requires tasks > 0 && hosts >= 1
    ensures |FirstTasks(tasks, hosts)| == hosts - 1
    ensures forall x: nat :: x in FirstTasks(tasks, hosts) <==> x % tasks == 0 && 0 < x / tasks < hosts
  {
    if hosts > 1 {
      FirstTasksAre(tasks, hosts - 1);
      var last := tasks * (hosts - 1);
      forall x: nat
        ensures x == last <==> x % tasks == 0 && x / tasks == hosts - 1
      {
        IsFirstTask(tasks, hosts - 1, x);
      }
      assert last !in FirstTasks(tasks, hosts - 1);
    }
  }

  lemma CrossesWhenFirst(outer: Tree, inner: Tree, x: nat)
    requires Rooted(outer) && Rooted(inner) && 0 < x < inner.n * outer.n
    ensures Compose(outer, inner).parent(x) / inner.n != x / inner.n <==> x % inner.n == 0
  {
    var h, l := Coordinates(inner.n, outer.n, x);
    DivMod(inner.n, h, l);
    if l > 0 {
      DivMod(inner.n, h, inner.parent(l));
    } else {
      DivMod(inner.n, outer.parent(h), 0);
    }
  }

  lemma CrossingIsFirst(outer: Tree, inner: Tree, x: nat)
    requires Rooted(outer) && Rooted(inner)
    ensures x in Crossing(Compose(outer, inner).parent, 0, inner.n * outer.n, inner.n) <==>
            x in FirstTasks(inner.n, outer.n)
  {
    var size, n := inner.n, inner.n * outer.n;
    FirstTasksAre(size, outer.n);
    FirstTaskBounds(size, outer.n, n, x);
    if 0 < x < n {
      CrossesWhenFirst(outer, inner, x);
    }
  }

  lemma FirstTaskBounds(size: nat, hosts: nat, n: nat, x: nat)
    requires size > 0 && n == size * hosts
    ensures x % size == 0 && 0 < x / size < hosts <==> x % size == 0 && 0 < x < n
  {
    var h, l := Coordinates(size, hosts, x);
    DivMod(size, h, l);
    if h == 0 {
      assert size * h == 0;
    }
  }

  /** The layout crosses hosts hosts - 1 times. */
  lemma LayoutCrossings(outer: Tree, inner: Tree)
    requires Rooted(outer) && Rooted(inner)
    ensures |Crossing(Compose(outer, inner).parent, 0, inner.n * outer.n, inner.n)| == outer.n - 1
  {
    var t := Compose(outer, inner);
    FirstTasksAre(inner.n, outer.n);
    forall x: nat
      ensures x in Crossing(t.parent, 0, inner.n * outer.n, inner.n) <==> x in FirstTasks(inner.n, outer.n)
    {
      CrossingIsFirst(outer, inner, x);
    }
    assert Crossing(t.parent, 0, inner.n * outer.n, inner.n) == FirstTasks(inner.n, outer.n);
  }

  /** Any tree on the nodes: every node but the root has a parent closer to the root. */
  ghost predicate AnyTree(parent: nat -> nat, rank: nat -> nat, root: nat, n: nat) {
    root < n && forall x: nat :: x < n && x != root ==> parent(x) < n && rank(parent(x)) < rank(x)
  }

  /** Walking up from a host that is not the root's, some step leaves the host. */
  lemma {:induction false} SomeoneLeaves(parent: nat -> nat, rank: nat -> nat, root: nat, n: nat, tasks: nat, x: nat)
    returns (y: nat)
    requires AnyTree(parent, rank, root, n) && tasks > 0 && x < n && x / tasks != root / tasks
    ensures y / tasks == x / tasks && y in Crossing(parent, root, n, tasks)
    decreases rank(x)
  {
    if parent(x) / tasks == x / tasks {
      y := SomeoneLeaves(parent, rank, root, n, tasks, parent(x));
    } else {
      y := x;
    }
  }

  ghost function CrossingBelow(parent: nat -> nat, root: nat, n: nat, tasks: nat, k: nat): set<nat>
    requires tasks > 0
  {
    set x: nat | x in Crossing(parent, root, n, tasks) && x / tasks < k
  }

  lemma {:induction false} CrossingsOfHosts(
    parent: nat -> nat, rank: nat -> nat, root: nat, tasks: nat, hosts: nat, k: nat)
    requires tasks > 0 && k <= hosts && AnyTree(parent, rank, root, tasks * hosts)
    ensures |CrossingBelow(parent, root, tasks * hosts, tasks, k)| + (if root / tasks < k then 1 else 0) >= k
  {
    var n := tasks * hosts;
    if k == 0 {
    } else {
      CrossingsOfHosts(parent, rank, root, tasks, hosts, k - 1);
      var before, now := CrossingBelow(parent, root, n, tasks, k - 1), CrossingBelow(parent, root, n, tasks, k);
      assert before <= now;
      if root / tasks != k - 1 {
        var y := LeavesHost(parent, rank, root, tasks, hosts, k - 1);
        assert y !in before && before + {y} <= now;
        Subsets(before + {y}, now);
      } else {
        Subsets(before, now);
      }
    }
  }

  lemma LeavesHost(parent: nat -> nat, rank: nat -> nat, root: nat, tasks: nat, hosts: nat, k: nat) returns (y: nat)
    requires tasks > 0 && k < hosts && AnyTree(parent, rank, root, tasks * hosts) && root / tasks != k
    ensures y / tasks == k && y in Crossing(parent, root, tasks * hosts, tasks)
  {
    DivMod(tasks, k, 0);
    MulCancels(tasks, k, hosts);
    y := SomeoneLeaves(parent, rank, root, tasks * hosts, tasks, tasks * k);
  }

  lemma {:induction false} Subsets(a: set<nat>, b: set<nat>)
    requires a <= b
    ensures |a| <= |b|
  {
    if a != {} {
      var x :| x in a;
      Subsets(a - {x}, b - {x});
    }
  }

  /** No spanning tree crosses hosts less often than the layout does. */
  lemma LayoutCrossesLeast(parent: nat -> nat, rank: nat -> nat, root: nat, tasks: nat, hosts: nat)
    requires tasks > 0 && hosts >= 1 && AnyTree(parent, rank, root, tasks * hosts)
    ensures |Crossing(Compose(BinaryTree(hosts), BinaryTree(tasks)).parent, 0, tasks * hosts, tasks)| == hosts - 1
    ensures |Crossing(parent, root, tasks * hosts, tasks)| >= hosts - 1
  {
    BinaryIsContiguous(hosts);
    BinaryIsContiguous(tasks);
    LayoutCrossings(BinaryTree(hosts), BinaryTree(tasks));
    CrossingsOfHosts(parent, rank, root, tasks, hosts, hosts);
    Subsets(CrossingBelow(parent, root, tasks * hosts, tasks, hosts), Crossing(parent, root, tasks * hosts, tasks));
  }
}

/** One complete schedule of the handshake. */
module HandshakeRun {
  import opened Wrappers
  import Sequences
  import opened Network
  import opened OrderedTree
  import opened Handshake
  import opened HandshakeFacts

  type Nodes = Config<Local, Msg>

  /** Every node but 0, in some order. */
  ghost predicate AllButRoot(order: seq<nat>, n: nat) {
    Distinct(order) && forall x: nat :: x in order <==> 0 < x < n
  }

  /** Node 0 deals with every other node, whatever the orders. */
  ghost predicate RootMeetsAll(s: Setup) {
    AllButRoot(AcceptOrder(s, 0), s.n) && AllButRoot(s.first, s.n) && AllButRoot(s.cast, s.n)
      && AllButRoot(ServeOrder(s, 0), s.n)
  }

  /** Any other node deals with its children. */
  ghost predicate MeetsChildren(s: Setup, t: Tree, p: nat) {
    ServesChildren(AcceptOrder(s, p), Children(t, p)) && ServesChildren(ServeOrder(s, p), Children(t, p))
  }

  ghost predicate ValidSetup(s: Setup, t: Tree) {
    && s.n == t.n && Draws(s.edges, t)
    && RootMeetsAll(s) && (forall p: nat :: 0 < p < s.n ==> MeetsChildren(s, t, p))
  }

  ghost predicate ServesChildren(order: seq<nat>, cs: seq<nat>) {
    Distinct(order) && forall x: nat :: x in order <==> x in cs
  }

  // ----- the stages of one node -----

  function NoRow(): Row {
    Row(None, 0)
  }

  ghost function RowOf(t: Tree, p: nat): Row {
    if p == 0 then NoRow() else Row(Some(t.parent(p) + 1), |Children(t, p)|)
  }

  ghost function Kids(s: Setup, t: Tree, p: nat): seq<Kid> {
    KidsNow(AcceptOrder(s, p), ServeOrder(s, p), Keeps(t, p))
  }

  function Met(p: nat): Local {
    Local(AwaitAsk, p + 1, NoRow(), [], Some(0))
  }

  function Known(p: nat): Local {
    Local(AwaitTable, p + 1, NoRow(), [], Some(0))
  }

  ghost function Placed(t: Tree, p: nat): Local {
    AfterTable(Local(AwaitTable, p + 1, RowOf(t, p), [], Some(0)))
  }

  /** Has all its children's ids and has told node 0 that it leaves. */
  ghost function Moving(s: Setup, t: Tree, p: nat): Local {
    Local(Rejoining, p + 1, RowOf(t, p), Kids(s, t, p), None)
  }

  ghost function Joined(s: Setup, t: Tree, p: nat, phase: Phase): Local {
    Local(phase, p + 1, RowOf(t, p), Kids(s, t, p), if p == 0 then None else Some(t.parent(p)))
  }

  function Nothing(): Link -> seq<Msg> {
    (l: Link) => []
  }

  function Root(s: Setup, phase: Phase, kids: seq<Kid>): Local {
    Local(phase, 1, NoRow(), kids, None)
  }

  // ----- addresses -----

  ghost function FirstKids(s: Setup, t: Tree, k: nat): seq<Kid>
    requires k <= |AcceptOrder(s, 0)|
  {
    KidsNow(AcceptOrder(s, 0)[..k], [], Keeps(t, 0))
  }

  ghost function Meeting(s: Setup, t: Tree, k: nat): nat -> Local
    requires k <= |AcceptOrder(s, 0)|
  {
    (i: nat) => if i == 0 then Root(s, if k < s.n - 1 then Accepting(k) else Querying(0), FirstKids(s, t, k))
                else if i in AcceptOrder(s, 0)[..k] then Met(i) else Fresh(i)
  }

  ghost function Introducing(s: Setup, t: Tree, k: nat): nat -> Local
    requires k <= |s.first|
  {
    (i: nat) => if i == 0 then
                  Root(s, if k < |s.first| then Querying(k) else Casting(0), FirstKids(s, t, |AcceptOrder(s, 0)|))
                else if i in s.first[..k] then Known(i) else Met(i)
  }

  ghost function Broadcasting(s: Setup, t: Tree, k: nat): nat -> Local
    requires k <= |s.cast|
  {
    (i: nat) => if i == 0 then
                  Root(s, if k < |s.cast| then Casting(k) else Asking(0), FirstKids(s, t, |AcceptOrder(s, 0)|))
                else if i in s.cast[..k] then Placed(t, i) else Known(i)
  }

  lemma PrefixGrows(order: seq<nat>, k: nat)
    requires k < |order| && Distinct(order)
    ensures order[k] !in order[..k]
    ensures forall x: nat :: x in order[..k + 1] <==> x == order[k] || x in order[..k]
  {
    forall x: nat
      ensures x in order[..k + 1] <==> x == order[k] || x in order[..k]
    {
      Sequences.PrefixMore(order, k, x);
    }
  }

  lemma OrderLength(order: seq<nat>, n: nat)
    requires AllButRoot(order, n) && n >= 1
    ensures |order| == n - 1
    ensures forall k :: 0 <= k < |order| ==> 0 < order[k] < n
  {
    DistinctSize(order);
    Interval(n);
    assert Elements(order) == Below(n);
    assert forall k :: 0 <= k < |order| ==> order[k] in order;
  }

  ghost function Below(n: nat): (r: set<nat>)
    ensures forall x :: x in r <==> 0 < x < n
  {
    if n <= 1 then {} else Below(n - 1) + {n - 1}
  }

  lemma {:induction false} Interval(n: nat)
    requires n >= 1
    ensures |Below(n)| == n - 1
  {
    if n > 1 {
      Interval(n - 1);
    }
  }

  lemma {:induction false} KidsGrow(met: seq<nat>, k: nat, keep: nat -> bool)
    requires k < |met|
    ensures KidsNow(met[..k + 1], [], keep) == KidsNow(met[..k], [], keep) + [Kid(met[k], 0)]
    decreases k
  {
    var now, next := met[..k], met[..k + 1];
    if k > 0 {
      KidsGrow(met[1..], k - 1, keep);
      assert now[1..] == met[1..][..k - 1] && next[1..] == met[1..][..k];
      assert now[0] == next[0] == met[0];
    } else {
      assert next == [met[0]];
      assert next[1..] == [];
    }
  }

  lemma MeetsOne(s: Setup, t: Tree, c: Nodes, k: nat) returns (sched: seq<nat>, d: Nodes)
    requires AllButRoot(AcceptOrder(s, 0), s.n) && k < |AcceptOrder(s, 0)|
    requires At(c, s.n, Meeting(s, t, k), Nothing())
    ensures Reaches(Processes(s), c, sched, d)
    ensures At(d, s.n, Meeting(s, t, k + 1), Nothing())
  {
    var p := AcceptOrder(s, 0)[k];
    assert p in AcceptOrder(s, 0);
    OrderLength(AcceptOrder(s, 0), s.n);
    PrefixGrows(AcceptOrder(s, 0), k);
    KidsGrow(AcceptOrder(s, 0), k, Keeps(t, 0));
    sched := [p, 0];
    d := HandoffAt(Processes(s), c, s.n, Meeting(s, t, k), Meeting(s, t, k + 1), Nothing(), p, 0, Hello);
  }

  /** Between the messages of one introduction: node 0 and p are in these states. */
  ghost function Mid(f: nat -> Local, p: nat, lp: Local, q: nat, lq: Local): nat -> Local {
    (i: nat) => if i == p then lp else if i == q then lq else f(i)
  }

  /** Node 0 asks its k-th client p: what both do, message by message. */
  lemma AddressSteps(s: Setup, root: Local, k: nat, p: nat)
    requires k < |s.first| && p == s.first[k] && root.phase == Querying(k)
    ensures Act(s, 0, root) == Send(p, AskAddress) && Next(s, 0, root, None) == root.(phase := Learning(k))
    ensures Act(s, p, Met(p)) == Recv(0) && Next(s, p, Met(p), Some(AskAddress)) == Met(p).(phase := Replying)
    ensures var root1, met1 := root.(phase := Learning(k)), Met(p).(phase := Replying);
            && Act(s, p, met1) == Send(0, Address(p + 1)) && Next(s, p, met1, None) == Met(p).(phase := AwaitIndex)
            && Act(s, 0, root1) == Recv(p)
            && Next(s, 0, root1, Some(Address(p + 1))) == root.(phase := Naming(k, p + 1))
    ensures var root2, met2 := root.(phase := Naming(k, p + 1)), Met(p).(phase := AwaitIndex);
            && Act(s, 0, root2) == Send(p, ClientIndex(p + 1)) && Act(s, p, met2) == Recv(0)
            && Next(s, 0, root2, None) == root.(phase := if k + 1 < |s.first| then Querying(k + 1) else Casting(0))
            && Next(s, p, met2, Some(ClientIndex(p + 1))) == Known(p)
  {
  }

  lemma IntroducingFrame(s: Setup, t: Tree, k: nat, p: nat)
    requires AllButRoot(s.first, s.n) && k < |s.first| && p == s.first[k]
    ensures 0 < p < s.n && Introducing(s, t, k)(p) == Met(p) && Introducing(s, t, k + 1)(p) == Known(p)
    ensures Introducing(s, t, k)(0).phase == Querying(k)
    ensures Introducing(s, t, k + 1)(0) ==
            Introducing(s, t, k)(0).(phase := if k + 1 < |s.first| then Querying(k + 1) else Casting(0))
    ensures forall i: nat :: i != 0 && i != p ==> Introducing(s, t, k + 1)(i) == Introducing(s, t, k)(i)
  {
    assert p in s.first;
    PrefixGrows(s.first, k);
  }

  lemma IntroducesOne(s: Setup, t: Tree, c: Nodes, k: nat) returns (sched: seq<nat>, d: Nodes)
    requires AllButRoot(s.first, s.n) && k < |s.first|
    requires At(c, s.n, Introducing(s, t, k), Nothing())
    ensures Reaches(Processes(s), c, sched, d)
    ensures At(d, s.n, Introducing(s, t, k + 1), Nothing())
  {
    var p := s.first[k];
    IntroducingFrame(s, t, k, p);
    var f, after := Introducing(s, t, k), Introducing(s, t, k + 1);
    sched, d := Introduces(s, c, k, p, f, after);
  }

  lemma Introduces(s: Setup, c: Nodes, k: nat, p: nat, f: nat -> Local, after: nat -> Local)
    returns (sched: seq<nat>, d: Nodes)
    requires k < |s.first| && p == s.first[k] && 0 < p < s.n && At(c, s.n, f, Nothing())
    requires f(0).phase == Querying(k) && f(p) == Met(p) && after(p) == Known(p)
    requires after(0) == f(0).(phase := if k + 1 < |s.first| then Querying(k + 1) else Casting(0))
    requires forall i: nat :: i != 0 && i != p ==> after(i) == f(i)
    ensures Reaches(Processes(s), c, sched, d) && At(d, s.n, after, Nothing())
  {
    var sys, root := Processes(s), f(0);
    AddressSteps(s, root, k, p);
    var f1 := Mid(f, 0, root.(phase := Learning(k)), p, Met(p).(phase := Replying));
    var f2 := Mid(f, 0, root.(phase := Naming(k, p + 1)), p, Met(p).(phase := AwaitIndex));
    var asked := HandoffAt(sys, c, s.n, f, f1, Nothing(), 0, p, AskAddress);
    var told := HandoffAt(sys, asked, s.n, f1, f2, Nothing(), p, 0, Address(p + 1));
    d := HandoffAt(sys, told, s.n, f2, after, Nothing(), 0, p, ClientIndex(p + 1));
    Then(sys, c, [0, p], asked, [p, 0], told);
    sched := [0, p] + [p, 0] + [0, p];
    Then(sys, c, [0, p] + [p, 0], told, [0, p], d);
  }

  lemma ReadsTable(s: Setup, t: Tree, p: nat)
    requires s.n == t.n && Draws(s.edges, t) && 0 < p < t.n
    ensures Next(s, p, Known(p), Some(Table(Rows(s.n, s.edges)))) == Placed(t, p)
  {
    TableSays(s.edges, t, p);
  }

  lemma BroadcastsOne(s: Setup, t: Tree, c: Nodes, k: nat) returns (sched: seq<nat>, d: Nodes)
    requires s.n == t.n && Draws(s.edges, t) && AllButRoot(s.cast, s.n) && k < |s.cast|
    requires At(c, s.n, Broadcasting(s, t, k), Nothing())
    ensures Reaches(Processes(s), c, sched, d)
    ensures At(d, s.n, Broadcasting(s, t, k + 1), Nothing())
  {
    var p := s.cast[k];
    assert p in s.cast;
    ReadsTable(s, t, p);
    sched, d := BroadcastStep(s, t, c, k, p);
  }

  lemma BroadcastStep(s: Setup, t: Tree, c: Nodes, k: nat, p: nat) returns (sched: seq<nat>, d: Nodes)
    requires Distinct(s.cast) && k < |s.cast| && p == s.cast[k] && 0 < p < s.n
    requires Next(s, p, Known(p), Some(Table(Rows(s.n, s.edges)))) == Placed(t, p)
    requires At(c, s.n, Broadcasting(s, t, k), Nothing())
    ensures Reaches(Processes(s), c, sched, d)
    ensures At(d, s.n, Broadcasting(s, t, k + 1), Nothing())
  {
    PrefixGrows(s.cast, k);
    sched := [0, p];
    d := HandoffAt(Processes(s), c, s.n, Broadcasting(s, t, k), Broadcasting(s, t, k + 1), Nothing(), 0, p,
      Table(Rows(s.n, s.edges)));
  }

  lemma {:induction false} MeetsAll(s: Setup, t: Tree, c: Nodes, k: nat) returns (sched: seq<nat>, d: Nodes)
    requires ValidSetup(s, t) && k <= |AcceptOrder(s, 0)| && At(c, s.n, Meeting(s, t, k), Nothing())
    ensures Reaches(Processes(s), c, sched, d) && At(d, s.n, Meeting(s, t, |AcceptOrder(s, 0)|), Nothing())
    decreases |AcceptOrder(s, 0)| - k
  {
    if k == |AcceptOrder(s, 0)| {
      sched, d := [], c;
    } else {
      var first, mid := MeetsOne(s, t, c, k);
      var rest;
      rest, d := MeetsAll(s, t, mid, k + 1);
      sched := first + rest;
      Then(Processes(s), c, first, mid, rest, d);
    }
  }

  lemma {:induction false} IntroducesAll(s: Setup, t: Tree, c: Nodes, k: nat) returns (sched: seq<nat>, d: Nodes)
    requires ValidSetup(s, t) && k <= |s.first| && At(c, s.n, Introducing(s, t, k), Nothing())
    ensures Reaches(Processes(s), c, sched, d) && At(d, s.n, Introducing(s, t, |s.first|), Nothing())
    decreases |s.first| - k
  {
    if k == |s.first| {
      sched, d := [], c;
    } else {
      var first, mid := IntroducesOne(s, t, c, k);
      var rest;
      rest, d := IntroducesAll(s, t, mid, k + 1);
      sched := first + rest;
      Then(Processes(s), c, first, mid, rest, d);
    }
  }

  lemma {:induction false} BroadcastsAll(s: Setup, t: Tree, c: Nodes, k: nat) returns (sched: seq<nat>, d: Nodes)
    requires ValidSetup(s, t) && k <= |s.cast| && At(c, s.n, Broadcasting(s, t, k), Nothing())
    ensures Reaches(Processes(s), c, sched, d) && At(d, s.n, Broadcasting(s, t, |s.cast|), Nothing())
    decreases |s.cast| - k
  {
    if k == |s.cast| {
      sched, d := [], c;
    } else {
      var first, mid := BroadcastsOne(s, t, c, k);
      var rest;
      rest, d := BroadcastsAll(s, t, mid, k + 1);
      sched := first + rest;
      Then(Processes(s), c, first, mid, rest, d);
    }
  }

  // ----- ids, from the highest node down -----

  /** Nodes p.. have collected their children's ids. */
  ghost function Settled(s: Setup, t: Tree, p: nat, i: nat): Local {
    if t.parent(i) >= p then Joined(s, t, i, AwaitStart)
    else if t.parent(i) == 0 then Joined(s, t, i, AwaitOrder)
    else Moving(s, t, i)
  }

  ghost function Settling(s: Setup, t: Tree, p: nat): nat -> Local {
    (i: nat) => if i == 0 then Root(s, Asking(0), KidsNow(AcceptOrder(s, 0), [], Keeps(t, 0)))
                else if i < p then Placed(t, i) else Settled(s, t, p, i)
  }

  /** Those of them that have moved have told node 0. */
  ghost function Notices(t: Tree, p: nat): Link -> seq<Msg> {
    (l: Link) => if l.to == 0 && p <= l.from < t.n && t.parent(l.from) != 0 then [Closed] else []
  }

  ghost function Collecting(s: Setup, t: Tree, p: nat, phase: Phase, kids: seq<Kid>): Local {
    Local(phase, p + 1, RowOf(t, p), kids, Some(0))
  }

  ghost function Host(s: Setup, t: Tree, p: nat, k: nat): Local
    requires k <= |AcceptOrder(s, p)|
  {
    Collecting(s, t, p, if k < |AcceptOrder(s, p)| then Accepting(k) else Asking(0),
               KidsNow(AcceptOrder(s, p)[..k], [], Keeps(t, p)))
  }

  /** Node p has met k of its children. */
  ghost function Welcoming(s: Setup, t: Tree, p: nat, k: nat): nat -> Local
    requires k <= |AcceptOrder(s, p)|
  {
    (i: nat) => if i == p then Host(s, t, p, k)
                else if i in AcceptOrder(s, p)[..k] then Joined(s, t, i, AwaitOrder) else Settling(s, t, p + 1)(i)
  }

  ghost function Asker(s: Setup, t: Tree, p: nat, k: nat): Local
    requires k <= |ServeOrder(s, p)|
  {
    var l := Collecting(s, t, p, Asking(k), KidsNow(AcceptOrder(s, p), ServeOrder(s, p)[..k], Keeps(t, p)));
    if k < |ServeOrder(s, p)| then l else AfterOrders(l)
  }

  /** Node p has k of its children's ids. */
  ghost function Ordering(s: Setup, t: Tree, p: nat, k: nat): nat -> Local
    requires k <= |ServeOrder(s, p)|
  {
    (i: nat) => if i == p then Asker(s, t, p, k)
                else if i in ServeOrder(s, p)[..k] then Joined(s, t, i, AwaitStart)
                else if i in ServeOrder(s, p) then Joined(s, t, i, AwaitOrder)
                else Settling(s, t, p + 1)(i)
  }

  lemma SameElements(a: seq<nat>, b: seq<nat>)
    requires Distinct(a) && Distinct(b) && forall x: nat :: x in a <==> x in b
    ensures |a| == |b|
  {
    DistinctSize(a);
    DistinctSize(b);
    assert Elements(a) == Elements(b);
  }

  lemma ServeLength(order: seq<nat>, t: Tree, p: nat)
    requires ServesChildren(order, Children(t, p))
    ensures |order| == |Children(t, p)|
  {
    var cs := Children(t, p);
    ChildrenDistinct(t, p, cs);
    SameElements(order, cs);
  }

  /** q = order[k] is a child of p whose turn it is. */
  ghost predicate Turn(s: Setup, t: Tree, order: seq<nat>, p: nat, k: nat, q: nat) {
    && s.n == t.n && 0 < p < q < s.n && t.parent(q) == p
    && k < |order| == |Children(t, p)| && Distinct(order) && order[k] == q
  }

  lemma MoverSteps(s: Setup, t: Tree, q: nat)
    requires q > 0
    ensures Act(s, q, Moving(s, t, q)) == Send(t.parent(q), Hello)
    ensures Next(s, q, Moving(s, t, q), None) == Joined(s, t, q, AwaitOrder)
  {
  }

  lemma HostSteps(s: Setup, t: Tree, p: nat, k: nat, q: nat)
    requires Turn(s, t, AcceptOrder(s, p), p, k, q)
    ensures Act(s, p, Host(s, t, p, k)) == Recv(q)
    ensures Next(s, p, Host(s, t, p, k), Some(Hello)) == Host(s, t, p, k + 1)
  {
    KidsGrow(AcceptOrder(s, p), k, Keeps(t, p));
  }

  lemma WelcomingFrame(s: Setup, t: Tree, p: nat, k: nat, q: nat)
    requires Turn(s, t, AcceptOrder(s, p), p, k, q)
    ensures Welcoming(s, t, p, k)(q) == Moving(s, t, q) && Welcoming(s, t, p, k + 1)(q) == Joined(s, t, q, AwaitOrder)
    ensures forall i: nat :: i != p && i != q ==> Welcoming(s, t, p, k + 1)(i) == Welcoming(s, t, p, k)(i)
  {
    PrefixGrows(AcceptOrder(s, p), k);
  }

  lemma WelcomesOne(s: Setup, t: Tree, c: Nodes, p: nat, k: nat, q: nat) returns (sched: seq<nat>, d: Nodes)
    requires Turn(s, t, AcceptOrder(s, p), p, k, q)
    requires At(c, s.n, Welcoming(s, t, p, k), Notices(t, p + 1))
    ensures Reaches(Processes(s), c, sched, d)
    ensures At(d, s.n, Welcoming(s, t, p, k + 1), Notices(t, p + 1))
  {
    MoverSteps(s, t, q);
    HostSteps(s, t, p, k, q);
    WelcomingFrame(s, t, p, k, q);
    sched := [q, p];
    d := HandoffAt(Processes(s), c, s.n, Welcoming(s, t, p, k), Welcoming(s, t, p, k + 1), Notices(t, p + 1), q, p,
      Hello);
  }

  /** Node p has asked its k-th child q, which is about to answer. */
  ghost function Answering(s: Setup, t: Tree, p: nat, k: nat, q: nat): nat -> Local
    requires k <= |ServeOrder(s, p)|
  {
    Mid(Ordering(s, t, p, k), p, Asker(s, t, p, k).(phase := Hearing(k)), q, Joined(s, t, q, GivingOrder))
  }

  lemma ChildSteps(s: Setup, t: Tree, q: nat)
    requires q > 0
    ensures Act(s, q, Joined(s, t, q, AwaitOrder)) == Recv(t.parent(q))
    ensures Next(s, q, Joined(s, t, q, AwaitOrder), Some(AskOrder)) == Joined(s, t, q, GivingOrder)
    ensures Act(s, q, Joined(s, t, q, GivingOrder)) == Send(t.parent(q), Order(q + 1))
    ensures Next(s, q, Joined(s, t, q, GivingOrder), None) == Joined(s, t, q, AwaitStart)
  {
  }

  lemma AskerSteps(s: Setup, t: Tree, p: nat, k: nat, q: nat)
    requires Turn(s, t, ServeOrder(s, p), p, k, q)
    ensures var l := Asker(s, t, p, k); var h := l.(phase := Hearing(k));
            && Act(s, p, l) == Send(q, AskOrder) && Next(s, p, l, None) == h
            && Act(s, p, h) == Recv(q) && Next(s, p, h, Some(Order(q + 1))) == Asker(s, t, p, k + 1)
  {
    HearKept(AcceptOrder(s, p), ServeOrder(s, p)[..k], Keeps(t, p), q);
    assert ServeOrder(s, p)[..k + 1] == ServeOrder(s, p)[..k] + [q];
  }

  lemma OrderingFrame(s: Setup, t: Tree, p: nat, k: nat, q: nat)
    requires Turn(s, t, ServeOrder(s, p), p, k, q)
    ensures Ordering(s, t, p, k)(q) == Joined(s, t, q, AwaitOrder)
            && Ordering(s, t, p, k + 1)(q) == Joined(s, t, q, AwaitStart)
    ensures forall i: nat :: i != p && i != q ==> Ordering(s, t, p, k + 1)(i) == Ordering(s, t, p, k)(i)
  {
    PrefixGrows(ServeOrder(s, p), k);
  }

  lemma OrdersOne(s: Setup, t: Tree, c: Nodes, p: nat, k: nat, q: nat) returns (sched: seq<nat>, d: Nodes)
    requires Turn(s, t, ServeOrder(s, p), p, k, q)
    requires At(c, s.n, Ordering(s, t, p, k), Notices(t, p + 1))
    ensures Reaches(Processes(s), c, sched, d)
    ensures At(d, s.n, Ordering(s, t, p, k + 1), Notices(t, p + 1))
  {
    ChildSteps(s, t, q);
    AskerSteps(s, t, p, k, q);
    OrderingFrame(s, t, p, k, q);
    var sys, f, g, h := Processes(s), Ordering(s, t, p, k), Answering(s, t, p, k, q), Ordering(s, t, p, k + 1);
    var mid := HandoffAt(sys, c, s.n, f, g, Notices(t, p + 1), p, q, AskOrder);
    d := HandoffAt(sys, mid, s.n, g, h, Notices(t, p + 1), q, p, Order(q + 1));
    sched := [p, q] + [q, p];
    Then(sys, c, [p, q], mid, [q, p], d);
  }

  ghost predicate Serving(s: Setup, t: Tree, p: nat) {
    && s.n == t.n && 0 < p < s.n && Rooted(t)
    && Lists(s, t, AcceptOrder(s, p), p) && Lists(s, t, ServeOrder(s, p), p)
  }

  /** The children of p, each once. */
  ghost predicate Lists(s: Setup, t: Tree, order: seq<nat>, p: nat) {
    && |order| == |Children(t, p)| && Distinct(order)
    && (forall x: nat :: x in order <==> p < x < s.n && t.parent(x) == p)
  }

  lemma {:induction false} WelcomesAll(s: Setup, t: Tree, c: Nodes, p: nat, k: nat) returns (sched: seq<nat>, d: Nodes)
    requires Serving(s, t, p) && k <= |AcceptOrder(s, p)| && At(c, s.n, Welcoming(s, t, p, k), Notices(t, p + 1))
    ensures Reaches(Processes(s), c, sched, d) && At(d, s.n, Welcoming(s, t, p, |AcceptOrder(s, p)|), Notices(t, p + 1))
    decreases |AcceptOrder(s, p)| - k
  {
    if k == |AcceptOrder(s, p)| {
      sched, d := [], c;
    } else {
      assert AcceptOrder(s, p)[k] in AcceptOrder(s, p);
      var first, mid := WelcomesOne(s, t, c, p, k, AcceptOrder(s, p)[k]);
      var rest;
      rest, d := WelcomesAll(s, t, mid, p, k + 1);
      sched := first + rest;
      Then(Processes(s), c, first, mid, rest, d);
    }
  }

  lemma {:induction false} OrdersAll(s: Setup, t: Tree, c: Nodes, p: nat, k: nat) returns (sched: seq<nat>, d: Nodes)
    requires Serving(s, t, p) && k <= |ServeOrder(s, p)| && At(c, s.n, Ordering(s, t, p, k), Notices(t, p + 1))
    ensures Reaches(Processes(s), c, sched, d) && At(d, s.n, Ordering(s, t, p, |ServeOrder(s, p)|), Notices(t, p + 1))
    decreases |ServeOrder(s, p)| - k
  {
    if k == |ServeOrder(s, p)| {
      sched, d := [], c;
    } else {
      assert ServeOrder(s, p)[k] in ServeOrder(s, p);
      var first, mid := OrdersOne(s, t, c, p, k, ServeOrder(s, p)[k]);
      var rest;
      rest, d := OrdersAll(s, t, mid, p, k + 1);
      sched := first + rest;
      Then(Processes(s), c, first, mid, rest, d);
    }
  }

  /** A node that has all ids either waits where it is or leaves node 0. */
  ghost function Collected(s: Setup, t: Tree, p: nat): Local {
    AfterOrders(Collecting(s, t, p, AwaitTable, Kids(s, t, p)))
  }

  ghost function Ready(s: Setup, t: Tree, p: nat): nat -> Local {
    (i: nat) => if i == p then Collected(s, t, p) else Settling(s, t, p)(i)
  }

  lemma WelcomeBegins(s: Setup, t: Tree, p: nat, i: nat)
    requires Serving(s, t, p) && |AcceptOrder(s, p)| > 0
    ensures Settling(s, t, p + 1)(i) == Welcoming(s, t, p, 0)(i)
  {
    assert AcceptOrder(s, p)[..0] == [];
  }

  lemma WelcomeEnds(s: Setup, t: Tree, p: nat, i: nat)
    requires Serving(s, t, p) && |AcceptOrder(s, p)| > 0
    ensures Welcoming(s, t, p, |AcceptOrder(s, p)|)(i) == Ordering(s, t, p, 0)(i)
  {
    assert ServeOrder(s, p)[..0] == [] && AcceptOrder(s, p)[..|AcceptOrder(s, p)|] == AcceptOrder(s, p);
    assert i in AcceptOrder(s, p) <==> i in ServeOrder(s, p);
  }

  lemma OrderingEnds(s: Setup, t: Tree, p: nat, i: nat)
    requires Serving(s, t, p)
    ensures i < s.n ==> Ordering(s, t, p, |ServeOrder(s, p)|)(i) == Ready(s, t, p)(i)
  {
    assert ServeOrder(s, p)[..|ServeOrder(s, p)|] == ServeOrder(s, p);
    if i < s.n && i != p {
      OthersSettled(s, t, p, i);
    }
    assert Asker(s, t, p, |ServeOrder(s, p)|) == Collected(s, t, p);
  }

  lemma OthersSettled(s: Setup, t: Tree, p: nat, i: nat)
    requires Serving(s, t, p) && i < s.n && i != p
    ensures Settling(s, t, p)(i) == if i in ServeOrder(s, p) then Joined(s, t, i, AwaitStart)
            else Settling(s, t, p + 1)(i)
  {
  }

  lemma LeafIsReady(s: Setup, t: Tree, p: nat, i: nat)
    requires Serving(s, t, p) && |ServeOrder(s, p)| == 0
    ensures i < s.n ==> Settling(s, t, p + 1)(i) == Ready(s, t, p)(i)
  {
    if i < s.n && i != p {
      OthersSettled(s, t, p, i);
    }
    assert KidsNow([], [], Keeps(t, p)) == [];
    assert i == p ==> Settling(s, t, p + 1)(i) == Collected(s, t, p);
  }

  lemma BecomesReady(s: Setup, t: Tree, c: Nodes, p: nat) returns (sched: seq<nat>, d: Nodes)
    requires Serving(s, t, p) && At(c, s.n, Settling(s, t, p + 1), Notices(t, p + 1))
    ensures Reaches(Processes(s), c, sched, d) && At(d, s.n, Ready(s, t, p), Notices(t, p + 1))
  {
    if |ServeOrder(s, p)| == 0 {
      sched, d := [], c;
      forall i: nat | i < s.n ensures c.locals[i] == Ready(s, t, p)(i) { LeafIsReady(s, t, p, i); }
    } else {
      forall i: nat | i < s.n ensures c.locals[i] == Welcoming(s, t, p, 0)(i) { WelcomeBegins(s, t, p, i); }
      var first, mid := WelcomesAll(s, t, c, p, 0);
      forall i: nat | i < s.n ensures mid.locals[i] == Ordering(s, t, p, 0)(i) { WelcomeEnds(s, t, p, i); }
      var rest;
      rest, d := OrdersAll(s, t, mid, p, 0);
      forall i: nat | i < s.n ensures d.locals[i] == Ready(s, t, p)(i) { OrderingEnds(s, t, p, i); }
      sched := first + rest;
      Then(Processes(s), c, first, mid, rest, d);
    }
  }

  lemma LeaverSteps(s: Setup, t: Tree, p: nat)
    requires p > 0
    ensures t.parent(p) == 0 ==> Collected(s, t, p) == Settled(s, t, p + 1, p)
    ensures t.parent(p) > 0 ==>
            Act(s, p, Collected(s, t, p)) == Send(0, Closed) && Next(s, p, Collected(s, t, p), None) == Moving(s, t, p)
  {
  }

  lemma SettlesOne(s: Setup, t: Tree, c: Nodes, p: nat) returns (sched: seq<nat>, d: Nodes)
    requires Serving(s, t, p) && At(c, s.n, Settling(s, t, p + 1), Notices(t, p + 1))
    ensures Reaches(Processes(s), c, sched, d) && At(d, s.n, Settling(s, t, p), Notices(t, p))
  {
    var first, mid := BecomesReady(s, t, c, p);
    var rest;
    rest, d := Departs(s, t, mid, p);
    sched := first + rest;
    Then(Processes(s), c, first, mid, rest, d);
  }

  lemma ReadyFrame(s: Setup, t: Tree, p: nat)
    requires s.n == t.n && 0 < p < s.n && t.parent(p) < p
    ensures t.parent(p) == 0 ==> Ready(s, t, p)(p) == Settling(s, t, p)(p)
    ensures t.parent(p) > 0 ==> Settling(s, t, p)(p) == Moving(s, t, p)
    ensures forall i: nat :: i != p ==> Ready(s, t, p)(i) == Settling(s, t, p)(i)
    ensures forall l :: Notices(t, p)(l) == if l == Link(p, 0) && t.parent(p) != 0 then [Closed]
            else Notices(t, p + 1)(l)
  {
    LeaverSteps(s, t, p);
  }

  /** A node that is ready leaves node 0, unless that is its parent. */
  lemma Departs(s: Setup, t: Tree, c: Nodes, p: nat) returns (sched: seq<nat>, d: Nodes)
    requires Serving(s, t, p) && At(c, s.n, Ready(s, t, p), Notices(t, p + 1))
    ensures Reaches(Processes(s), c, sched, d) && At(d, s.n, Settling(s, t, p), Notices(t, p))
  {
    LeaverSteps(s, t, p);
    ReadyFrame(s, t, p);
    if t.parent(p) == 0 {
      sched, d := [], c;
    } else {
      d := SendAt(Processes(s), c, s.n, Ready(s, t, p), Settling(s, t, p), Notices(t, p + 1), Notices(t, p), p, 0,
        Closed);
      sched := [p];
    }
  }

  lemma ServingHolds(s: Setup, t: Tree, p: nat)
    requires ValidSetup(s, t) && 0 < p < s.n
    ensures Serving(s, t, p)
  {
    assert MeetsChildren(s, t, p);
    ListsChildren(s, t, AcceptOrder(s, p), p);
    ListsChildren(s, t, ServeOrder(s, p), p);
  }

  lemma ListsChildren(s: Setup, t: Tree, order: seq<nat>, p: nat)
    requires s.n == t.n && ServesChildren(order, Children(t, p)) && Rooted(t)
    ensures Lists(s, t, order, p)
  {
    ServeLength(order, t, p);
    ChildrenAre(t, p, Children(t, p));
  }

  lemma {:induction false} SettlesFrom(s: Setup, t: Tree, c: Nodes, p: nat) returns (sched: seq<nat>, d: Nodes)
    requires ValidSetup(s, t) && 0 < p <= s.n && At(c, s.n, Settling(s, t, p), Notices(t, p))
    ensures Reaches(Processes(s), c, sched, d) && At(d, s.n, Settling(s, t, 1), Notices(t, 1))
    decreases p
  {
    if p == 1 {
      sched, d := [], c;
    } else {
      ServingHolds(s, t, p - 1);
      var first, mid := SettlesOne(s, t, c, p - 1);
      var rest;
      rest, d := SettlesFrom(s, t, mid, p - 1);
      sched := first + rest;
      Then(Processes(s), c, first, mid, rest, d);
    }
  }
}

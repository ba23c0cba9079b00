/** What every run of the handshake comes to. */
module HandshakeProof {
  import opened Wrappers
  import Arithmetic
  import opened Network
  import opened Topology
  import opened OrderedTree
  import opened Handshake
  import opened HandshakeFacts
  import opened HandshakeRun

  // ----- node 0 hears from everybody -----

  ghost function RootAsker(s: Setup, t: Tree, k: nat): Local
    requires k <= |ServeOrder(s, 0)|
  {
    var l := Root(s, Asking(k), KidsNow(AcceptOrder(s, 0), ServeOrder(s, 0)[..k], Keeps(t, 0)));
    if k < |ServeOrder(s, 0)| then l else BeginStart(0, l)
  }

  /** Node 0 has asked k of its first clients. */
  ghost function Sorting(s: Setup, t: Tree, k: nat): nat -> Local
    requires k <= |ServeOrder(s, 0)|
  {
    (i: nat) => if i == 0 then RootAsker(s, t, k)
                else if t.parent(i) == 0 && i !in ServeOrder(s, 0)[..k] then Joined(s, t, i, AwaitOrder)
                else Joined(s, t, i, AwaitStart)
  }

  /** The notices not yet read, and the questions that went to clients already gone. */
  ghost function Partings(s: Setup, t: Tree, k: nat): Link -> seq<Msg>
    requires k <= |ServeOrder(s, 0)|
  {
    (l: Link) =>
      if l.to == 0 && 1 <= l.from < t.n && t.parent(l.from) != 0 && l.from !in ServeOrder(s, 0)[..k] then [Closed]
      else if l.from == 0 && 1 <= l.to < t.n && t.parent(l.to) != 0 && l.to in ServeOrder(s, 0)[..k] then [AskOrder]
      else []
  }

  ghost predicate RootTurn(s: Setup, t: Tree, k: nat, q: nat) {
    k < |ServeOrder(s, 0)| && ServeOrder(s, 0)[k] == q && Distinct(ServeOrder(s, 0)) && 0 < q < s.n == t.n
  }

  lemma RootSteps(s: Setup, t: Tree, k: nat, q: nat)
    requires RootTurn(s, t, k, q)
    ensures var l := RootAsker(s, t, k); var h := l.(phase := Hearing(k)); var next := RootAsker(s, t, k + 1);
            && Act(s, 0, l) == Send(q, AskOrder) && Next(s, 0, l, None) == h
            && Act(s, 0, h) == Recv(q)
            && (t.parent(q) == 0 ==> Next(s, 0, h, Some(Order(q + 1))) == next)
            && (t.parent(q) != 0 ==> Next(s, 0, h, Some(Closed)) == next)
  {
    assert ServeOrder(s, 0)[..k + 1] == ServeOrder(s, 0)[..k] + [q];
    if t.parent(q) == 0 {
      HearKept(AcceptOrder(s, 0), ServeOrder(s, 0)[..k], Keeps(t, 0), q);
    } else {
      HearGone(AcceptOrder(s, 0), ServeOrder(s, 0)[..k], Keeps(t, 0), q);
    }
  }

  lemma SortingFrame(s: Setup, t: Tree, k: nat, q: nat)
    requires RootTurn(s, t, k, q)
    ensures Sorting(s, t, k)(q) == Joined(s, t, q, if t.parent(q) == 0 then AwaitOrder else AwaitStart)
    ensures Sorting(s, t, k + 1)(q) == Joined(s, t, q, AwaitStart)
    ensures forall i: nat :: i != 0 && i != q ==> Sorting(s, t, k + 1)(i) == Sorting(s, t, k)(i)
    ensures t.parent(q) == 0 ==> forall l :: Partings(s, t, k + 1)(l) == Partings(s, t, k)(l)
  {
    PrefixGrows(ServeOrder(s, 0), k);
  }

  lemma SortsKept(s: Setup, t: Tree, c: Nodes, k: nat, q: nat) returns (sched: seq<nat>, d: Nodes)
    requires RootTurn(s, t, k, q) && t.parent(q) == 0
    requires At(c, s.n, Sorting(s, t, k), Partings(s, t, k))
    ensures Reaches(Processes(s), c, sched, d)
    ensures At(d, s.n, Sorting(s, t, k + 1), Partings(s, t, k + 1))
  {
    ChildSteps(s, t, q);
    RootSteps(s, t, k, q);
    SortingFrame(s, t, k, q);
    var sys, f, h := Processes(s), Sorting(s, t, k), Sorting(s, t, k + 1);
    var g := Mid(f, 0, RootAsker(s, t, k).(phase := Hearing(k)), q, Joined(s, t, q, GivingOrder));
    var mid := HandoffAt(sys, c, s.n, f, g, Partings(s, t, k), 0, q, AskOrder);
    d := HandoffAt(sys, mid, s.n, g, h, Partings(s, t, k), q, 0, Order(q + 1));
    sched := [0, q] + [q, 0];
    Then(sys, c, [0, q], mid, [q, 0], d);
  }

  /** A client that has moved: the question reaches nobody, the notice is already there. */
  ghost function Unanswered(s: Setup, t: Tree, k: nat, q: nat): Link -> seq<Msg>
    requires k <= |ServeOrder(s, 0)|
  {
    (l: Link) => if l == Link(0, q) then Partings(s, t, k)(l) + [AskOrder] else Partings(s, t, k)(l)
  }

  lemma PartingsGrow(s: Setup, t: Tree, k: nat, q: nat)
    requires RootTurn(s, t, k, q) && t.parent(q) != 0
    ensures Unanswered(s, t, k, q)(Link(q, 0)) == [Closed]
    ensures forall l :: Partings(s, t, k + 1)(l) == if l == Link(q, 0) then [] else Unanswered(s, t, k, q)(l)
  {
    PrefixGrows(ServeOrder(s, 0), k);
    var now, next := Partings(s, t, k), Partings(s, t, k + 1);
    assert now(Link(q, 0)) == [Closed] && now(Link(0, q)) == [];
    assert next(Link(q, 0)) == [] && next(Link(0, q)) == [AskOrder];
    forall l
      ensures next(l) == if l == Link(q, 0) then [] else Unanswered(s, t, k, q)(l)
    {
      assert l != Link(q, 0) && l != Link(0, q) ==> next(l) == now(l);
    }
  }

  lemma SortsGone(s: Setup, t: Tree, c: Nodes, k: nat, q: nat) returns (sched: seq<nat>, d: Nodes)
    requires RootTurn(s, t, k, q) && t.parent(q) != 0
    requires At(c, s.n, Sorting(s, t, k), Partings(s, t, k))
    ensures Reaches(Processes(s), c, sched, d)
    ensures At(d, s.n, Sorting(s, t, k + 1), Partings(s, t, k + 1))
  {
    RootSteps(s, t, k, q);
    SortingFrame(s, t, k, q);
    PartingsGrow(s, t, k, q);
    var sys, f, h := Processes(s), Sorting(s, t, k), Sorting(s, t, k + 1);
    var g := Mid(f, 0, RootAsker(s, t, k).(phase := Hearing(k)), 0, RootAsker(s, t, k));
    var mid := SendAt(sys, c, s.n, f, g, Partings(s, t, k), Unanswered(s, t, k, q), 0, q, AskOrder);
    d := RecvAt(sys, mid, s.n, g, h, Unanswered(s, t, k, q), Partings(s, t, k + 1), 0, q, Closed);
    sched := [0] + [0];
    Then(sys, c, [0], mid, [0], d);
  }

  lemma {:induction false} SortsAll(s: Setup, t: Tree, c: Nodes, k: nat) returns (sched: seq<nat>, d: Nodes)
    requires s.n == t.n && AllButRoot(ServeOrder(s, 0), s.n) && k <= |ServeOrder(s, 0)|
    requires At(c, s.n, Sorting(s, t, k), Partings(s, t, k))
    ensures Reaches(Processes(s), c, sched, d)
    ensures At(d, s.n, Sorting(s, t, |ServeOrder(s, 0)|), Partings(s, t, |ServeOrder(s, 0)|))
    decreases |ServeOrder(s, 0)| - k
  {
    if k == |ServeOrder(s, 0)| {
      sched, d := [], c;
    } else {
      var q := ServeOrder(s, 0)[k];
      assert q in ServeOrder(s, 0);
      var first, mid;
      if t.parent(q) == 0 {
        first, mid := SortsKept(s, t, c, k, q);
      } else {
        first, mid := SortsGone(s, t, c, k, q);
      }
      var rest;
      rest, d := SortsAll(s, t, mid, k + 1);
      sched := first + rest;
      Then(Processes(s), c, first, mid, rest, d);
    }
  }

  // ----- start -----

  /** Every server has exactly its children, in ascending order of their node numbers. */
  ghost predicate KidsSorted(s: Setup, t: Tree, p: nat) {
    ById(Kids(s, t, p)) == ChildKids(Children(t, p))
  }

  lemma KidsAreSorted(s: Setup, t: Tree, p: nat)
    requires ValidSetup(s, t) && p < s.n
    ensures KidsSorted(s, t, p)
  {
    var cs := Children(t, p);
    ChildrenAre(t, p, cs);
    if p > 0 {
      ServingHolds(s, t, p);
    }
    ServedInOrder(t, p, AcceptOrder(s, p), ServeOrder(s, p));
  }

  ghost function EndPhase(p: nat): Phase {
    if p == 0 then Started else Reporting
  }

  /** Node p is starting its k-th child, or has started them all. */
  ghost function Begun(s: Setup, t: Tree, p: nat, k: nat): Local {
    Joined(s, t, p, if k < |Children(t, p)| then Starting(k) else EndPhase(p))
  }

  /** The questions node 0 sent to clients already gone: nobody reads them. */
  ghost function Leftover(t: Tree): Link -> seq<Msg> {
    (l: Link) => if l.from == 0 && 1 <= l.to < t.n && t.parent(l.to) != 0 then [AskOrder] else []
  }

  lemma StarterSteps(s: Setup, t: Tree, p: nat, k: nat)
    requires KidsSorted(s, t, p) && k < |Children(t, p)|
    ensures var q := Children(t, p)[k];
            && Act(s, p, Begun(s, t, p, k)) == Send(q, AskStart)
            && Next(s, p, Begun(s, t, p, k), None) == Joined(s, t, p, Confirming(k))
            && Act(s, p, Joined(s, t, p, Confirming(k))) == Recv(q)
            && Next(s, p, Joined(s, t, p, Confirming(k)), Some(Start)) == Begun(s, t, p, k + 1)
  {
    assert |Kids(s, t, p)| == |ChildKids(Children(t, p))|;
  }

  lemma StartedSteps(s: Setup, t: Tree, q: nat)
    requires KidsSorted(s, t, q) && q > 0
    ensures Act(s, q, Joined(s, t, q, AwaitStart)) == Recv(t.parent(q))
    ensures Next(s, q, Joined(s, t, q, AwaitStart), Some(AskStart)) == Begun(s, t, q, 0)
    ensures Act(s, q, Joined(s, t, q, Reporting)) == Send(t.parent(q), Start)
    ensures Next(s, q, Joined(s, t, q, Reporting), None) == Joined(s, t, q, Started)
  {
    assert |Kids(s, t, q)| == |ChildKids(Children(t, q))|;
  }

  ghost predicate Waits(s: Setup, t: Tree, c: Nodes, lo: nat, hi: nat) {
    hi <= |c.locals| && forall i: nat :: lo <= i < hi ==> c.locals[i] == Joined(s, t, i, AwaitStart)
  }

  ghost predicate Runs(s: Setup, t: Tree, c: Nodes, lo: nat, hi: nat) {
    hi <= |c.locals| && forall i: nat :: lo <= i < hi ==> c.locals[i] == Joined(s, t, i, Started)
  }

  /** c and d agree outside p and [lo, hi). */
  ghost predicate SameElsewhere(c: Nodes, d: Nodes, p: nat, lo: nat, hi: nat) {
    && |d.locals| == |c.locals|
    && forall i: nat :: i < |c.locals| && i != p && !(lo <= i < hi) ==> d.locals[i] == c.locals[i]
  }

  ghost predicate Quiet(t: Tree, c: Nodes) {
    forall l :: Get(c.queues, l) == Leftover(t)(l)
  }

  /** p tells its k-th child q to start; q is waiting. */
  lemma TellsStart(s: Setup, t: Tree, c: Nodes, p: nat, k: nat, q: nat) returns (d: Nodes)
    requires |c.locals| == s.n == t.n && p < q < s.n && k < |Children(t, p)| && q == Children(t, p)[k]
             && t.parent(q) == p
    requires KidsSorted(s, t, p) && KidsSorted(s, t, q) && Quiet(t, c)
    requires c.locals[p] == Begun(s, t, p, k) && c.locals[q] == Joined(s, t, q, AwaitStart)
    ensures Reaches(Processes(s), c, [p, q], d) && Quiet(t, d)
    ensures d.locals == c.locals[p := Joined(s, t, p, Confirming(k))][q := Begun(s, t, q, 0)]
  {
    StarterSteps(s, t, p, k);
    StartedSteps(s, t, q);
    d := Handoff(Processes(s), c, p, q, AskStart, Joined(s, t, p, Confirming(k)), Begun(s, t, q, 0));
  }

  lemma ReportsStart(s: Setup, t: Tree, c: Nodes, p: nat, k: nat, q: nat) returns (d: Nodes)
    requires |c.locals| == s.n == t.n && p < q < s.n && k < |Children(t, p)| && q == Children(t, p)[k]
             && t.parent(q) == p
    requires KidsSorted(s, t, p) && KidsSorted(s, t, q) && Quiet(t, c)
    requires c.locals[p] == Joined(s, t, p, Confirming(k)) && c.locals[q] == Joined(s, t, q, Reporting)
    ensures Reaches(Processes(s), c, [q, p], d) && Quiet(t, d)
    ensures d.locals == c.locals[q := Joined(s, t, q, Started)][p := Begun(s, t, p, k + 1)]
  {
    StarterSteps(s, t, p, k);
    StartedSteps(s, t, q);
    d := Handoff(Processes(s), c, q, p, Start, Joined(s, t, q, Started), Begun(s, t, p, k + 1));
  }

  /** The subtrees of p's children from the k-th on start one after the other. */
  lemma {:induction false} StartsFrom(s: Setup, t: Tree, end: nat -> nat, c: Nodes, p: nat, k: nat)
    returns (sched: seq<nat>, d: Nodes)
    requires |c.locals| == s.n == t.n && Contiguous(t, end) && p < s.n && k <= |Children(t, p)|
    requires forall q: nat :: q < s.n ==> KidsSorted(s, t, q)
    requires Quiet(t, c) && c.locals[p] == Begun(s, t, p, k)
    requires Waits(s, t, c, StartOf(Children(t, p), end(p), k), end(p))
    ensures Reaches(Processes(s), c, sched, d) && Quiet(t, d)
    ensures SameElsewhere(c, d, p, StartOf(Children(t, p), end(p), k), end(p))
    ensures d.locals[p] == Joined(s, t, p, EndPhase(p))
    ensures Runs(s, t, d, StartOf(Children(t, p), end(p), k), end(p))
    decreases t.n - p, |Children(t, p)| - k, 2
  {
    if k == |Children(t, p)| {
      sched, d := [], c;
    } else {
      sched, d := StartsMore(s, t, end, c, p, k);
    }
  }

  lemma {:induction false} StartsMore(s: Setup, t: Tree, end: nat -> nat, c: Nodes, p: nat, k: nat)
    returns (sched: seq<nat>, d: Nodes)
    requires |c.locals| == s.n == t.n && Contiguous(t, end) && p < s.n && k < |Children(t, p)|
    requires forall q: nat :: q < s.n ==> KidsSorted(s, t, q)
    requires Quiet(t, c) && c.locals[p] == Begun(s, t, p, k)
    requires Waits(s, t, c, StartOf(Children(t, p), end(p), k), end(p))
    ensures Reaches(Processes(s), c, sched, d) && Quiet(t, d)
    ensures SameElsewhere(c, d, p, StartOf(Children(t, p), end(p), k), end(p))
    ensures d.locals[p] == Joined(s, t, p, EndPhase(p))
    ensures Runs(s, t, d, StartOf(Children(t, p), end(p), k), end(p))
    decreases t.n - p, |Children(t, p)| - k, 1
  {
    var q := Children(t, p)[k];
    NextChild(t, end, p, k, q);
    var sched1, c1 := StartsChild(s, t, end, c, p, k, q);
    var sched2;
    sched2, d := StartsFrom(s, t, end, c1, p, k + 1);
    sched := sched1 + sched2;
    Then(Processes(s), c, sched1, c1, sched2, d);
  }

  lemma {:induction false} StartsChild(s: Setup, t: Tree, end: nat -> nat, c: Nodes, p: nat, k: nat, q: nat)
    returns (sched: seq<nat>, d: Nodes)
    requires |c.locals| == s.n == t.n && Contiguous(t, end) && p < q < s.n && k < |Children(t, p)|
             && q == Children(t, p)[k]
    requires forall q: nat :: q < s.n ==> KidsSorted(s, t, q)
    requires Quiet(t, c) && c.locals[p] == Begun(s, t, p, k) && Waits(s, t, c, q, end(q))
    ensures Reaches(Processes(s), c, sched, d) && Quiet(t, d)
    ensures SameElsewhere(c, d, p, q, end(q)) && d.locals[p] == Begun(s, t, p, k + 1) && Runs(s, t, d, q, end(q))
    decreases t.n - p, |Children(t, p)| - k, 0
  {
    assert q < end(q) && KidsSorted(s, t, p) && KidsSorted(s, t, q);
    var c1 := TellsStart(s, t, c, p, k, q);
    assert StartOf(Children(t, q), end(q), 0) == q + 1 by {
      ChildrenTile(t, end, q);
      TilesAt(end, Children(t, q), q + 1, end(q), 0);
    }
    var sched2, c2 := StartsFrom(s, t, end, c1, q, 0);
    d := ReportsStart(s, t, c2, p, k, q);
    sched := [p, q] + sched2 + [q, p];
    ThenThen(s, c, [p, q], c1, sched2, c2, [q, p], d);
    ChildIsUp(s, t, c, c1, c2, d, p, k, q, end(q));
  }

  lemma ThenThen(s: Setup, c: Nodes, a: seq<nat>, c1: Nodes, b: seq<nat>, c2: Nodes, e: seq<nat>, d: Nodes)
    requires Reaches(Processes(s), c, a, c1) && Reaches(Processes(s), c1, b, c2) && Reaches(Processes(s), c2, e, d)
    ensures Reaches(Processes(s), c, a + b + e, d)
  {
    Then(Processes(s), c, a, c1, b, c2);
    Then(Processes(s), c, a + b, c2, e, d);
  }

  lemma ChildIsUp(s: Setup, t: Tree, c: Nodes, c1: Nodes, c2: Nodes, d: Nodes, p: nat, k: nat, q: nat, hi: nat)
    requires p < q < hi <= |c.locals|
    requires c1.locals == c.locals[p := Joined(s, t, p, Confirming(k))][q := Begun(s, t, q, 0)]
    requires SameElsewhere(c1, c2, q, q + 1, hi) && Runs(s, t, c2, q + 1, hi)
    requires d.locals == c2.locals[q := Joined(s, t, q, Started)][p := Begun(s, t, p, k + 1)]
    ensures SameElsewhere(c, d, p, q, hi) && d.locals[p] == Begun(s, t, p, k + 1) && Runs(s, t, d, q, hi)
  {
  }

  // ----- the whole handshake -----

  lemma Introductions(s: Setup, t: Tree) returns (sched: seq<nat>, d: Nodes)
    requires ValidSetup(s, t)
    ensures Reaches(Processes(s), Initial(s), sched, d)
    ensures At(d, s.n, Introducing(s, t, |s.first|), Nothing())
  {
    var c := Initial(s);
    OrderLength(s.first, s.n);
    OrderLength(AcceptOrder(s, 0), s.n);
    assert s.first[..0] == [] && AcceptOrder(s, 0)[..0] == []
      && AcceptOrder(s, 0)[..|AcceptOrder(s, 0)|] == AcceptOrder(s, 0);
    var first, mid := MeetsAll(s, t, c, 0);
    var rest;
    rest, d := IntroducesAll(s, t, mid, 0);
    sched := first + rest;
    Then(Processes(s), c, first, mid, rest, d);
  }

  lemma Placements(s: Setup, t: Tree, c: Nodes) returns (sched: seq<nat>, d: Nodes)
    requires ValidSetup(s, t) && At(c, s.n, Introducing(s, t, |s.first|), Nothing())
    ensures Reaches(Processes(s), c, sched, d)
    ensures At(d, s.n, Settling(s, t, 1), Notices(t, 1))
  {
    OrderLength(s.cast, s.n);
    assert s.cast[..0] == [] && s.cast[..|s.cast|] == s.cast && s.first[..|s.first|] == s.first
      && AcceptOrder(s, 0)[..|AcceptOrder(s, 0)|] == AcceptOrder(s, 0);
    var first, mid := BroadcastsAll(s, t, c, 0);
    assert At(mid, s.n, Settling(s, t, s.n), Notices(t, s.n));
    var rest;
    rest, d := SettlesFrom(s, t, mid, s.n);
    sched := first + rest;
    Then(Processes(s), c, first, mid, rest, d);
  }

  lemma SortingBegins(s: Setup, t: Tree, c: Nodes)
    requires ValidSetup(s, t) && At(c, s.n, Settling(s, t, 1), Notices(t, 1))
    ensures At(c, s.n, Sorting(s, t, 0), Partings(s, t, 0))
  {
    OrderLength(ServeOrder(s, 0), s.n);
    assert ServeOrder(s, 0)[..0] == [];
  }

  lemma SortingEnds(s: Setup, t: Tree, c: Nodes)
    requires ValidSetup(s, t) && At(c, s.n, Sorting(s, t, |ServeOrder(s, 0)|), Partings(s, t, |ServeOrder(s, 0)|))
    ensures c.locals[0] == Begun(s, t, 0, 0) && Waits(s, t, c, 1, s.n) && Quiet(t, c)
  {
    KidsAreSorted(s, t, 0);
    assert |Kids(s, t, 0)| == |ChildKids(Children(t, 0))|;
    assert ServeOrder(s, 0)[..|ServeOrder(s, 0)|] == ServeOrder(s, 0);
    forall i: nat | 1 <= i < s.n
      ensures c.locals[i] == Joined(s, t, i, AwaitStart)
    {
      assert i in ServeOrder(s, 0);
    }
    forall l
      ensures Get(c.queues, l) == Leftover(t)(l)
    {
      assert 1 <= l.from < s.n ==> l.from in ServeOrder(s, 0);
      assert 1 <= l.to < s.n ==> l.to in ServeOrder(s, 0);
    }
  }

  lemma Starts(s: Setup, t: Tree, end: nat -> nat, c: Nodes) returns (sched: seq<nat>, d: Nodes)
    requires ValidSetup(s, t) && Contiguous(t, end)
    requires |c.locals| == s.n && c.locals[0] == Begun(s, t, 0, 0) && Waits(s, t, c, 1, s.n) && Quiet(t, c)
    ensures Reaches(Processes(s), c, sched, d)
    ensures |d.locals| == s.n && Runs(s, t, d, 0, s.n) && Quiet(t, d)
  {
    forall q: nat | q < s.n
      ensures KidsSorted(s, t, q)
    {
      KidsAreSorted(s, t, q);
    }
    ChildrenTile(t, end, 0);
    TilesAt(end, Children(t, 0), 1, end(0), 0);
    sched, d := StartsFrom(s, t, end, c, 0, 0);
  }

  lemma OneCompleteRun(s: Setup, t: Tree, end: nat -> nat) returns (sched: seq<nat>, e: Nodes)
    requires ValidSetup(s, t) && Contiguous(t, end)
    ensures Reaches(Processes(s), Initial(s), sched, e)
    ensures |e.locals| == s.n && Runs(s, t, e, 0, s.n) && Quiet(t, e)
  {
    var sys, c := Processes(s), Initial(s);
    var s1, c1 := Introductions(s, t);
    var s2, c2 := Placements(s, t, c1);
    SortingBegins(s, t, c2);
    var s3, c3 := SortsAll(s, t, c2, 0);
    SortingEnds(s, t, c3);
    var s4;
    s4, e := Starts(s, t, end, c3);
    ThenThen(s, c, s1, c1, s2, c2, s3, c3);
    sched := s1 + s2 + s3 + s4;
    Then(sys, c, s1 + s2 + s3, c3, s4, e);
  }

  /** What the handshake is for: every node started, its client connected to its parent in
      the tree and its server visiting exactly its children, in ascending order, each under
      its node index. */
  ghost predicate Established(t: Tree, c: Nodes) {
    && |c.locals| == t.n
    && forall i: nat :: i < t.n ==>
         && c.locals[i].phase == Started
         && c.locals[i].index == i + 1
         && c.locals[i].peer == (if i == 0 then None else Some(t.parent(i)))
         && ById(c.locals[i].kids) == ChildKids(Children(t, i))
  }

  lemma RunningIsQuiescent(s: Setup, t: Tree, e: Nodes)
    requires |e.locals| == s.n && Runs(s, t, e, 0, s.n)
    ensures Quiescent(Processes(s), e)
  {
    forall p: nat | p < s.n
      ensures Processes(s).act(p, e.locals[p]) == Halt
    {
      assert e.locals[p].phase == Started;
    }
    Halted(Processes(s), e);
  }

  lemma RunningIsEstablished(s: Setup, t: Tree, e: Nodes)
    requires ValidSetup(s, t) && |e.locals| == s.n && Runs(s, t, e, 0, s.n)
    ensures Established(t, e)
  {
    forall i: nat | i < t.n
      ensures ById(e.locals[i].kids) == ChildKids(Children(t, i))
    {
      KidsAreSorted(s, t, i);
    }
  }

  /** Whatever the schedule, and whatever orders servers deal with their clients in: every run
      of the handshake ends, and ends with the tree established.  Nothing is left in flight
      but the questions to clients that had already moved. */
  lemma HandshakeCompletes(s: Setup, t: Tree, end: nat -> nat) returns (total: nat, e: Nodes)
    requires ValidSetup(s, t) && Contiguous(t, end)
    ensures AlwaysEnds(Processes(s), Initial(s), e, total)
    ensures Established(t, e) && Quiet(t, e)
  {
    var sched;
    sched, e := OneCompleteRun(s, t, end);
    total := |sched|;
    RunningIsQuiescent(s, t, e);
    RunningIsEstablished(s, t, e);
    OneRunIsEnough(Processes(s), Initial(s), sched, e);
  }

  // ----- with the links the generator emits -----

  lemma {:induction false} FanInRange(numNodes: nat, index: nat, lo: nat, hi: nat)
    requires lo >= 1
    ensures InRange(Fan(numNodes, index, lo, hi), numNodes)
    decreases hi + 1 - lo
  {
    if lo <= hi { FanInRange(numNodes, index, lo + 1, hi); }
  }

  lemma {:induction false} PairsInRange(base: nat, numNodes: nat, index: nat, depth: nat)
    ensures InRange(Pairs(base, numNodes, index, depth), numNodes)
    decreases depth, base + 1
  {
    if depth == 0 {
      FanInRange(numNodes, index, index + 2, index + Arithmetic.Pow(base, depth + 1));
    } else {
      BlocksInRange(base, numNodes, index, depth, Arithmetic.Pow(base, depth), 0);
    }
  }

  lemma {:induction false} BlocksInRange(base: nat, numNodes: nat, index: nat, depth: nat, skip: nat, c: nat)
    requires depth > 0
    ensures InRange(Blocks(base, numNodes, index, depth, skip, c), numNodes)
    decreases depth, base - c
  {
    if c < base {
      PairsInRange(base, numNodes, index + c * skip, depth - 1);
      BlocksInRange(base, numNodes, index, depth, skip, c + 1);
    }
  }

  lemma DrawsTree(es: seq<Edge>, t: Tree)
    requires Rooted(t) && t.n >= 2 && InRange(es, t.n)
    requires forall x: nat :: ConnectsTo(es, x) == if 0 < x < t.n then [t.parent(x) + 1] else []
    ensures Draws(es, t)
  {
  }

  /** The links of the generator for base 2 are the binary tree, at any depth that covers it. */
  lemma BinaryLinksDraw(n: nat, depth: nat, es: seq<Edge>)
    requires n >= 2 && Arithmetic.Pow(2, depth + 1) >= n && es == Pairs(2, n, 0, depth)
    ensures Draws(es, BinaryTree(n))
  {
    PairsInRange(2, n, 0, depth);
    BinaryTreeSpans(n, depth);
    BinaryIsContiguous(n);
    DrawsTree(es, BinaryTree(n));
  }

  /** The handshake with the tree that lua/Tree.lua builds for base 2. */
  lemma BinaryHandshakeCompletes(s: Setup, depth: nat) returns (total: nat, e: Nodes)
    requires s.n >= 2 && Arithmetic.Pow(2, depth + 1) >= s.n && s.edges == Pairs(2, s.n, 0, depth)
    requires RootMeetsAll(s) && forall p: nat :: 0 < p < s.n ==> MeetsChildren(s, BinaryTree(s.n), p)
    ensures AlwaysEnds(Processes(s), Initial(s), e, total)
    ensures Established(BinaryTree(s.n), e)
  {
    BinaryLinksDraw(s.n, depth, s.edges);
    BinaryIsContiguous(s.n);
    total, e := HandshakeCompletes(s, BinaryTree(s.n), BinaryEnd(s.n));
  }

  /** And for a wider base, as far as its links reach. */
  lemma WideLinksDraw(b: nat, n: nat, depth: nat, es: seq<Edge>)
    requires b > 2 && 2 <= n <= 2 * b && Arithmetic.Pow(b, depth + 1) >= n && es == Pairs(b, n, 0, depth)
    ensures Draws(es, WideTree(b, n))
  {
    PairsInRange(b, n, 0, depth);
    WideIsContiguous(b, n);
    forall x: nat
      ensures ConnectsTo(es, x) == if 0 < x < n then [WideTree(b, n).parent(x) + 1] else []
    {
      LinksOfEveryBase(b, n, depth, x);
      if 0 < x < n {
        WideLink(b, x);
      }
    }
    DrawsTree(es, WideTree(b, n));
  }

  lemma WideHandshakeCompletes(s: Setup, b: nat, depth: nat) returns (total: nat, e: Nodes)
    requires b > 2 && 2 <= s.n <= 2 * b && Arithmetic.Pow(b, depth + 1) >= s.n && s.edges == Pairs(b, s.n, 0, depth)
    requires RootMeetsAll(s) && forall p: nat :: 0 < p < s.n ==> MeetsChildren(s, WideTree(b, s.n), p)
    ensures AlwaysEnds(Processes(s), Initial(s), e, total)
    ensures Established(WideTree(b, s.n), e)
  {
    WideLinksDraw(b, s.n, depth, s.edges);
    WideIsContiguous(b, s.n);
    total, e := HandshakeCompletes(s, WideTree(b, s.n), WideEnd(b, s.n));
  }
}

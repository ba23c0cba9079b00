/** The way down of one round of allReduce: the root's total passes to every node.

    What a node is like before, while and after it passes the total on is given as lists of local
    states, so that nothing here depends on how the total came about.
 */
module AllReduceDown {
  import opened Network
  import opened OrderedTree
  import opened Descent
  import opened AllReduce
  import opened AllReduceRun

  /** The total v, and each node's state: waiting for it, holding it, and done with the round. */
  datatype Down<!T> = Down(
    job: Job<T>, v: Payload<T>, waiting: seq<Local<T>>, holding: seq<Local<T>>, ended: seq<Local<T>>)

  /** Node j with the total, in any phase. */
  function Holding<T>(g: Down<T>, j: nat, phase: Phase): Local<T>
    requires j < |g.holding|
  {
    g.holding[j].(phase := phase)
  }

  ghost predicate Fits<T>(g: Down<T>, j: nat)
    requires j < |g.waiting| && j < |g.holding| && j < |g.ended|
  {
    var w, h := g.waiting[j], g.holding[j];
    && w.phase == RecvDown(0) && |w.value| == |g.v.value| && w.round == h.round && w.log == h.log && Held(h) == g.v
    && forall phase :: FinishRound(g.job, j, Holding(g, j, phase)) == g.ended[j]
  }

  ghost predicate Proper<T>(g: Down<T>) {
    && Rooted(g.job.tree) && |g.waiting| == |g.holding| == |g.ended| == g.job.tree.n
    && forall j {:trigger Fits(g, j)} :: 0 <= j < g.job.tree.n ==> Fits(g, j)
  }

  ghost predicate Locals<T>(g: Down<T>, c: Nodes<T>, j: nat) {
    && |c.locals| == |g.waiting| == |g.ended|
    && forall i :: 0 <= i < |c.locals| && i != j ==> c.locals[i] == if i < j then g.ended[i] else g.waiting[i]
  }

  /** Nodes below j are done. */
  ghost predicate DownTo<T>(g: Down<T>, c: Nodes<T>, j: nat) {
    && Locals(g, c, j) && (j < |c.locals| ==> c.locals[j] == g.waiting[j])
    && forall l :: Get(c.queues, l) == Flight(g.job.tree, j, l, Pieces(g.v))
  }

  ghost function Passing<T>(g: Down<T>, j: nat, k: nat): Local<T>
    requires j < |g.holding| && j < |g.ended|
  {
    if k < |Children(g.job.tree, j)| then Holding(g, j, SendDown(k, 0)) else g.ended[j]
  }

  /** Node j has the total and has passed it to its k largest children. */
  ghost predicate PassedTo<T>(g: Down<T>, c: Nodes<T>, j: nat, k: nat)
    requires k <= |Children(g.job.tree, j)|
  {
    && Locals(g, c, j) && j < |c.locals| == |g.holding| && c.locals[j] == Passing(g, j, k)
    && PassQueues(g.job.tree, c.queues, j, k, Pieces(g.v))
  }

  // ----- passing it on -----

  lemma AfterPass<T>(g: Down<T>, j: nat, k: nat, phase: Phase)
    requires j < |g.waiting| && j < |g.holding| && j < |g.ended| && Fits(g, j)
    ensures AfterSend(g.job, j, Holding(g, j, phase), k) == Passing(g, j, k + 1)
    ensures AfterRecv(g.job, j, Holding(g, j, phase)) == Passing(g, j, 0)
    ensures Held(Holding(g, j, phase)) == g.v
  {
    assert FinishRound(g.job, j, Holding(g, j, phase)) == g.ended[j];
  }

  lemma PassesOne<T>(g: Down<T>, c: Nodes<T>, j: nat, k: nat) returns (sched: seq<nat>, d: Nodes<T>)
    requires Proper(g) && k < |Children(g.job.tree, j)| && PassedTo(g, c, j, k)
    ensures Reaches(Processes(g.job), c, sched, d) && PassedTo(g, d, j, k + 1)
  {
    var cs := Children(g.job.tree, j);
    assert Fits(g, j);
    AfterPass(g, j, k, SendDown(k, |g.v.value|));
    AfterPass(g, j, k, SendDown(k, 0));
    ServesOne(g.job.tree, c.queues, c.queues, j, k, Pieces(g.v));
    sched, d := SendsDown(g.job, c, j, c.locals[j], k);
    ServesOne(g.job.tree, c.queues, d.queues, j, k, Pieces(g.v));
  }

  lemma {:induction false} PassesAll<T>(g: Down<T>, c: Nodes<T>, j: nat, k: nat) returns (sched: seq<nat>, d: Nodes<T>)
    requires Proper(g) && k <= |Children(g.job.tree, j)| && PassedTo(g, c, j, k)
    ensures Reaches(Processes(g.job), c, sched, d) && PassedTo(g, d, j, |Children(g.job.tree, j)|)
    decreases |Children(g.job.tree, j)| - k, 1
  {
    if k == |Children(g.job.tree, j)| {
      sched, d := [], c;
    } else {
      sched, d := PassesMore(g, c, j, k);
    }
  }

  lemma {:induction false} PassesMore<T>(g: Down<T>, c: Nodes<T>, j: nat, k: nat) returns (sched: seq<nat>, d: Nodes<T>)
    requires Proper(g) && k < |Children(g.job.tree, j)| && PassedTo(g, c, j, k)
    ensures Reaches(Processes(g.job), c, sched, d) && PassedTo(g, d, j, |Children(g.job.tree, j)|)
    decreases |Children(g.job.tree, j)| - k, 0
  {
    var first, mid := PassesOne(g, c, j, k);
    var rest;
    rest, d := PassesAll(g, mid, j, k + 1);
    sched := first + rest;
    Then(Processes(g.job), c, first, mid, rest, d);
  }

  lemma PassedDown<T>(g: Down<T>, c: Nodes<T>, j: nat)
    requires PassedTo(g, c, j, |Children(g.job.tree, j)|)
    ensures DownTo(g, c, j + 1)
  {
    forall l
      ensures Get(c.queues, l) == Flight(g.job.tree, j + 1, l, Pieces(g.v))
    {
      ServedAll(g.job.tree, c.queues, j, Pieces(g.v), l);
    }
  }

  /** A node that has the total passes it to all its children and is done. */
  lemma NodePasses<T>(g: Down<T>, c: Nodes<T>, j: nat) returns (sched: seq<nat>, d: Nodes<T>)
    requires Proper(g) && PassedTo(g, c, j, 0)
    ensures Reaches(Processes(g.job), c, sched, d) && DownTo(g, d, j + 1)
  {
    sched, d := PassesAll(g, c, j, 0);
    PassedDown(g, d, j);
  }

  // ----- receiving it -----

  lemma NodeReceives<T>(g: Down<T>, c: Nodes<T>, j: nat) returns (sched: seq<nat>, d: Nodes<T>)
    requires Proper(g) && 0 < j < g.job.tree.n && DownTo(g, c, j)
    ensures Reaches(Processes(g.job), c, sched, d) && PassedTo(g, d, j, 0)
  {
    assert Fits(g, j);
    AfterPass(g, j, 0, RecvDown(|g.v.value|));
    FlightTaken(g.job.tree, c.queues, c.queues, j, Pieces(g.v));
    sched, d := Receives(g.job, c, j, c.locals[j], g.v);
    FlightTaken(g.job.tree, c.queues, d.queues, j, Pieces(g.v));
  }

  lemma NodeTurn<T>(g: Down<T>, c: Nodes<T>, j: nat) returns (sched: seq<nat>, d: Nodes<T>)
    requires Proper(g) && 0 < j < g.job.tree.n && DownTo(g, c, j)
    ensures Reaches(Processes(g.job), c, sched, d) && DownTo(g, d, j + 1)
  {
    var first, mid := NodeReceives(g, c, j);
    var rest;
    rest, d := NodePasses(g, mid, j);
    sched := first + rest;
    Then(Processes(g.job), c, first, mid, rest, d);
  }

  /** Once the nodes below j are done, the others follow. */
  lemma {:induction false} DownFrom<T>(g: Down<T>, c: Nodes<T>, j: nat) returns (sched: seq<nat>, d: Nodes<T>)
    requires Proper(g) && 0 < j <= g.job.tree.n && DownTo(g, c, j)
    ensures Reaches(Processes(g.job), c, sched, d) && DownTo(g, d, g.job.tree.n)
    decreases g.job.tree.n - j
  {
    if j == g.job.tree.n {
      sched, d := [], c;
    } else {
      var first, mid := NodeTurn(g, c, j);
      var rest;
      rest, d := DownFrom(g, mid, j + 1);
      sched := first + rest;
      Then(Processes(g.job), c, first, mid, rest, d);
    }
  }
}

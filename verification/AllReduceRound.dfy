/** One round of allReduce run to its end: everybody starts with a payload of its own and
    ends with the total of the whole tree. */
module AllReduceRound {
  import opened Sequences
  import opened Network
  import opened OrderedTree
  import opened AllReduce
  import opened AllReduceRun
  import D = AllReduceDown

  /** Round r of a job: what each node brings and what it was told before. */
  datatype Round<!T> = Round(job: Job<T>, r: nat, ps: seq<Payload<T>>, logs: seq<seq<Reply<T>>>)

  ghost predicate Proper<T>(f: Round<T>, w: nat) {
    && Rooted(f.job.tree) && f.job.tree.n >= 2
    && |f.ps| == |f.logs| == f.job.tree.n
    && forall j :: 0 <= j < |f.ps| ==> |f.ps[j].value| == w
  }

  /** Node j's payload merged with its first k subtrees. */
  ghost function Sum<T>(f: Round<T>, j: nat, k: nat): Payload<T>
    requires |f.ps| == f.job.tree.n && j < |f.ps| && k <= |Children(f.job.tree, j)|
  {
    Merged(f.job, f.ps, j, k)
  }

  ghost function Sub<T>(f: Round<T>, j: nat): Payload<T>
    requires |f.ps| == f.job.tree.n && j < |f.ps|
  {
    SubTotal(f.job, f.ps, j)
  }

  lemma {:induction false} SumWidth<T>(f: Round<T>, w: nat, j: nat, k: nat)
    requires Proper(f, w) && j < f.job.tree.n && k <= |Children(f.job.tree, j)|
    ensures |Sum(f, j, k).value| == w
    decreases f.job.tree.n - j, k
  {
    if k == 0 {
    } else {
      SumWidth(f, w, j, k - 1);
      var c := Children(f.job.tree, j)[k - 1];
      SumWidth(f, w, c, |Children(f.job.tree, c)|);
    }
  }

  function Carrying<T>(f: Round<T>, j: nat, phase: Phase, v: Payload<T>): Local<T>
    requires j < |f.logs|
  {
    Local(f.r, phase, v.value, v.numDone, f.logs[j])
  }

  ghost function Starting<T>(f: Round<T>, j: nat): Local<T>
    requires |f.ps| == |f.logs| && j < |f.ps|
  {
    Carrying(f, j, FirstPhase(f.job, j), f.ps[j])
  }

  ghost function Waiting<T>(f: Round<T>, j: nat): Local<T>
    requires |f.ps| == |f.logs| == f.job.tree.n && j < |f.ps|
  {
    Carrying(f, j, RecvDown(0), Sub(f, j))
  }

  ghost function Ended<T>(f: Round<T>, j: nat): Local<T>
    requires |f.ps| == |f.logs| == f.job.tree.n && j < |f.ps|
  {
    FinishRound(f.job, j, Carrying(f, j, Idle, Sub(f, 0)))
  }

  // ----- up -----

  /** Nodes j.. have sent; the tables on links into nodes below j are still there. */
  ghost function UpQueue<T>(f: Round<T>, j: nat, l: Link): seq<Msg<T>>
    requires |f.ps| == f.job.tree.n
  {
    if 0 < l.from < f.job.tree.n && j <= l.from && l.to == f.job.tree.parent(l.from) && l.to < j
    then Pieces(Sub(f, l.from)) else []
  }

  ghost predicate UpState<T>(f: Round<T>, c: Nodes<T>, j: nat)
    requires |f.ps| == |f.logs| == f.job.tree.n
  {
    && |c.locals| == f.job.tree.n
    && (forall i :: 0 <= i < |c.locals| ==> c.locals[i] == if i < j then Starting(f, i) else Waiting(f, i))
    && (forall l :: Get(c.queues, l) == UpQueue(f, j, l))
  }

  ghost function PhaseAfter<T>(f: Round<T>, j: nat, k: nat): Phase {
    if k < |Children(f.job.tree, j)| then Gather(k, 0) else if j == 0 then SendDown(0, 0) else SendUp(0)
  }

  ghost predicate GatherQueues<T>(f: Round<T>, q: Queues<Msg<T>>, j: nat, k: nat)
    requires |f.ps| == f.job.tree.n && k <= |Children(f.job.tree, j)|
  {
    forall l :: Get(q, l) == if l.to == j && l.from in Children(f.job.tree, j)[..k] then [] else UpQueue(f, j + 1, l)
  }

  /** Node j has taken the tables of its first k children. */
  ghost predicate GatherState<T>(f: Round<T>, c: Nodes<T>, j: nat, k: nat)
    requires |f.ps| == |f.logs| == f.job.tree.n && j < |f.ps| && k <= |Children(f.job.tree, j)|
  {
    && |c.locals| == f.job.tree.n
    && (forall i :: 0 <= i < |c.locals| && i != j ==> c.locals[i] == if i < j then Starting(f, i) else Waiting(f, i))
    && c.locals[j] == Carrying(f, j, PhaseAfter(f, j, k), Sum(f, j, k))
    && GatherQueues(f, c.queues, j, k)
  }

  lemma GatherTakes<T>(f: Round<T>, q: Queues<Msg<T>>, q': Queues<Msg<T>>, j: nat, k: nat)
    requires |f.ps| == f.job.tree.n && k < |Children(f.job.tree, j)|
    requires GatherQueues(f, q, j, k)
    ensures Children(f.job.tree, j)[k] < |f.ps|
            && Get(q, Link(Children(f.job.tree, j)[k], j)) == Pieces(Sub(f, Children(f.job.tree, j)[k]))
    ensures Updated(q, q', Link(Children(f.job.tree, j)[k], j), []) ==> GatherQueues(f, q', j, k + 1)
  {
    var cs := Children(f.job.tree, j);
    ChildrenAre(f.job.tree, j, cs);
    if Updated(q, q', Link(cs[k], j), []) {
      forall l: Link
        ensures Get(q', l) == if l.to == j && l.from in cs[..k + 1] then [] else UpQueue(f, j + 1, l)
      {
        PrefixMore(cs, k, l.from);
      }
    }
  }

  lemma GatherLocal<T>(f: Round<T>, j: nat, k: nat, i: nat)
    requires |f.ps| == |f.logs| == f.job.tree.n && j < |f.ps| && k < |Children(f.job.tree, j)|
    ensures AfterChild(f.job, j, Carrying(f, j, Gather(k, i), Sum(f, j, k + 1)), k) ==
            Carrying(f, j, PhaseAfter(f, j, k + 1), Sum(f, j, k + 1))
  {
  }

  lemma GatherChild<T>(f: Round<T>, w: nat, c: Nodes<T>, j: nat, k: nat) returns (sched: seq<nat>, d: Nodes<T>)
    requires Proper(f, w) && j < |f.ps| && k < |Children(f.job.tree, j)|
    requires GatherState(f, c, j, k)
    ensures Reaches(Processes(f.job), c, sched, d)
    ensures GatherState(f, d, j, k + 1)
  {
    var cs := Children(f.job.tree, j);
    SumWidth(f, w, j, k);
    SumWidth(f, w, cs[k], |Children(f.job.tree, cs[k])|);
    GatherTakes(f, c.queues, c.queues, j, k);
    var v := Sub(f, cs[k]);
    var l := c.locals[j];
    sched, d := Gathers(f.job, c, j, l, k, v);
    assert Merge(f.job, Held(l), v) == Sum(f, j, k + 1);
    GatherLocal(f, j, k, |l.value|);
    GatherTakes(f, c.queues, d.queues, j, k);
  }

  lemma {:induction false} GatherAll<T>(f: Round<T>, w: nat, c: Nodes<T>, j: nat, k: nat)
    returns (sched: seq<nat>, d: Nodes<T>)
    requires Proper(f, w) && j < |f.ps| && k <= |Children(f.job.tree, j)|
    requires GatherState(f, c, j, k)
    ensures Reaches(Processes(f.job), c, sched, d)
    ensures GatherState(f, d, j, |Children(f.job.tree, j)|)
    decreases |Children(f.job.tree, j)| - k
  {
    if k == |Children(f.job.tree, j)| {
      sched, d := [], c;
    } else {
      var first, mid := GatherChild(f, w, c, j, k);
      var rest;
      rest, d := GatherAll(f, w, mid, j, k + 1);
      sched := first + rest;
      Then(Processes(f.job), c, first, mid, rest, d);
    }
  }

  lemma UpNode<T>(f: Round<T>, w: nat, c: Nodes<T>, j: nat) returns (sched: seq<nat>, d: Nodes<T>)
    requires Proper(f, w) && 0 < j < f.job.tree.n
    requires UpState(f, c, j + 1)
    ensures Reaches(Processes(f.job), c, sched, d)
    ensures UpState(f, d, j)
  {
    var cs := Children(f.job.tree, j);
    var first, mid := GatherAll(f, w, c, j, 0);
    var rest;
    rest, d := SendsUp(f.job, mid, j, mid.locals[j]);
    sched := first + rest;
    Then(Processes(f.job), c, first, mid, rest, d);
    UpNodeQueues(f, mid, d, j);
  }

  lemma UpNodeQueues<T>(f: Round<T>, c: Nodes<T>, d: Nodes<T>, j: nat)
    requires |f.ps| == |f.logs| == f.job.tree.n && Rooted(f.job.tree) && 0 < j < f.job.tree.n
    requires GatherState(f, c, j, |Children(f.job.tree, j)|)
    requires Updated(c.queues, d.queues, Link(j, f.job.tree.parent(j)), Pieces(Sub(f, j)))
    ensures forall l :: Get(d.queues, l) == UpQueue(f, j, l)
  {
    var cs := Children(f.job.tree, j);
    assert cs[..|cs|] == cs;
    ChildrenAre(f.job.tree, j, cs);
  }

  lemma {:induction false} UpFrom<T>(f: Round<T>, w: nat, c: Nodes<T>, j: nat) returns (sched: seq<nat>, d: Nodes<T>)
    requires Proper(f, w) && 0 < j <= f.job.tree.n
    requires UpState(f, c, j)
    ensures Reaches(Processes(f.job), c, sched, d)
    ensures UpState(f, d, 1)
    decreases j
  {
    if j == 1 {
      sched, d := [], c;
    } else {
      var first, mid := UpNode(f, w, c, j - 1);
      var rest;
      rest, d := UpFrom(f, w, mid, j - 1);
      sched := first + rest;
      Then(Processes(f.job), c, first, mid, rest, d);
    }
  }

  // ----- down -----

  /** The way down of round f. */
  ghost function DownOf<T>(f: Round<T>): D.Down<T>
    requires |f.ps| == |f.logs| == f.job.tree.n > 0
  {
    D.Down(f.job, Sub(f, 0),
         seq(f.job.tree.n, j requires 0 <= j < f.job.tree.n => Waiting(f, j)),
         seq(f.job.tree.n, j requires 0 <= j < f.job.tree.n => Carrying(f, j, Idle, Sub(f, 0))),
         seq(f.job.tree.n, j requires 0 <= j < f.job.tree.n => Ended(f, j)))
  }

  lemma DownIsProper<T>(f: Round<T>, w: nat)
    requires Proper(f, w)
    ensures D.Proper(DownOf(f))
  {
    var g := DownOf(f);
    forall j {:trigger D.Fits(g, j)} | 0 <= j < f.job.tree.n
      ensures D.Fits(g, j)
    {
      NodeFits(f, w, g, j);
    }
  }

  lemma NodeFits<T>(f: Round<T>, w: nat, g: D.Down<T>, j: nat)
    requires Proper(f, w) && j < f.job.tree.n && |g.waiting| == |g.holding| == |g.ended| == f.job.tree.n
    requires g.job == f.job && g.v == Sub(f, 0) && g.waiting[j] == Waiting(f, j) && g.ended[j] == Ended(f, j)
    requires g.holding[j] == Carrying(f, j, Idle, Sub(f, 0))
    ensures D.Fits(g, j)
  {
    SumWidth(f, w, 0, |Children(f.job.tree, 0)|);
    SumWidth(f, w, j, |Children(f.job.tree, j)|);
  }

  // ----- a whole round -----

  lemma RootHasChildren(t: Tree)
    requires Rooted(t) && t.n >= 2
    ensures |Children(t, 0)| > 0
  {
    ChildrenAre(t, 0, Children(t, 0));
    assert t.parent(1) == 0;
  }

  lemma RootTurns<T>(f: Round<T>, c: Nodes<T>)
    requires |f.ps| == |f.logs| == f.job.tree.n > 0 && |Children(f.job.tree, 0)| > 0
    requires GatherState(f, c, 0, |Children(f.job.tree, 0)|)
    ensures D.PassedTo(DownOf(f), c, 0, 0)
  {
    var cs := Children(f.job.tree, 0);
    ChildrenAre(f.job.tree, 0, cs);
    assert cs[..|cs|] == cs && cs[|cs|..] == [];
  }

  /** The turn at the root: it takes the tables of all its children and passes on the total. */
  lemma Turn<T>(f: Round<T>, w: nat, c: Nodes<T>) returns (sched: seq<nat>, d: Nodes<T>)
    requires Proper(f, w) && UpState(f, c, 1)
    ensures Reaches(Processes(f.job), c, sched, d)
    ensures D.PassedTo(DownOf(f), d, 0, 0)
  {
    RootHasChildren(f.job.tree);
    sched, d := GatherAll(f, w, c, 0, 0);
    RootTurns(f, d);
  }

  lemma Downwards<T>(f: Round<T>, w: nat, c: Nodes<T>) returns (sched: seq<nat>, d: Nodes<T>)
    requires Proper(f, w) && D.PassedTo(DownOf(f), c, 0, 0)
    ensures Reaches(Processes(f.job), c, sched, d) && D.DownTo(DownOf(f), d, f.job.tree.n)
  {
    var g := DownOf(f);
    DownIsProper(f, w);
    var first, mid := D.NodePasses(g, c, 0);
    var rest;
    rest, d := D.DownFrom(g, mid, 1);
    sched := first + rest;
    Then(Processes(f.job), c, first, mid, rest, d);
  }

  lemma RunRound<T>(f: Round<T>, w: nat, c: Nodes<T>) returns (sched: seq<nat>, d: Nodes<T>)
    requires Proper(f, w)
    requires |c.locals| == f.job.tree.n && forall i :: 0 <= i < |c.locals| ==> c.locals[i] == Starting(f, i)
    requires c.queues == map[]
    ensures Reaches(Processes(f.job), c, sched, d)
    ensures |d.locals| == f.job.tree.n && forall i :: 0 <= i < |d.locals| ==> d.locals[i] == Ended(f, i)
    ensures d.queues == map[]
  {
    var up, c1 := UpFrom(f, w, c, f.job.tree.n);
    var turn, c2 := Turn(f, w, c1);
    Then(Processes(f.job), c, up, c1, turn, c2);
    var down;
    down, d := Downwards(f, w, c2);
    sched := up + turn + down;
    Then(Processes(f.job), c, up + turn, c2, down, d);
    ExecKeepsNoEmptyEntry(Processes(f.job), c, sched, d);
    QueuesAreEqual(d.queues, map[]);
  }
}

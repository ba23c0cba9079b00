/** One complete schedule of allReduce, round by round.

    In every round the nodes first act from the highest number down (each finds its
    children's tables waiting), then from the lowest number up.  That one schedule is enough:
    Network.EveryRunReachesTheSameEnd carries its end to every other schedule.
 */
module AllReduceRun {
  import opened Wrappers
  import opened Network
  import opened OrderedTree
  import opened AllReduce

  type Nodes<!T> = Config<Local<T>, Msg<T>>

  /** The messages that carry a payload: its leaves in order, then its count. */
  function Pieces<T>(v: Payload<T>): seq<Msg<T>> {
    seq(|v.value|, i requires 0 <= i < |v.value| => Item(v.value[i])) + [Count(v.numDone)]
  }

  function Held<T>(l: Local<T>): Payload<T> {
    Payload(l.value, l.numDone)
  }

  // ----- one table over one link -----

  lemma SendsUp<T>(job: Job<T>, c: Nodes<T>, p: nat, l: Local<T>) returns (sched: seq<nat>, d: Nodes<T>)
    requires p < |c.locals| && c.locals[p] == l && l.phase == SendUp(0)
    requires Get(c.queues, Link(p, job.tree.parent(p))) == []
    ensures Reaches(Processes(job), c, sched, d)
    ensures d.locals == c.locals[p := l.(phase := RecvDown(0))]
    ensures Updated(c.queues, d.queues, Link(p, job.tree.parent(p)), Pieces(Held(l)))
  {
    var ls := seq(|l.value| + 1, i requires 0 <= i <= |l.value| => l.(phase := SendUp(i))) + [l.(phase := RecvDown(0))];
    sched, d := SendMany(Processes(job), c, p, job.tree.parent(p), ls, Pieces(Held(l)));
  }

  lemma SendsDown<T>(job: Job<T>, c: Nodes<T>, p: nat, l: Local<T>, k: nat) returns (sched: seq<nat>, d: Nodes<T>)
    requires k < |Children(job.tree, p)|
    requires p < |c.locals| && c.locals[p] == l && l.phase == SendDown(k, 0)
    requires var cs := Children(job.tree, p); Get(c.queues, Link(p, cs[|cs| - 1 - k])) == []
    ensures Reaches(Processes(job), c, sched, d)
    ensures d.locals == c.locals[p := AfterSend(job, p, l.(phase := SendDown(k, |l.value|)), k)]
    ensures var cs := Children(job.tree, p); Updated(c.queues, d.queues, Link(p, cs[|cs| - 1 - k]), Pieces(Held(l)))
  {
    var cs := Children(job.tree, p);
    var ls := PassTrace(job, p, l, k);
    sched, d := SendMany(Processes(job), c, p, cs[|cs| - 1 - k], ls, Pieces(Held(l)));
  }

  /** The local states of a node that passes its table to its k-th child from the end. */
  ghost function PassTrace<T>(job: Job<T>, p: nat, l: Local<T>, k: nat): (ls: seq<Local<T>>)
    ensures |ls| == |l.value| + 2 && ls[|l.value| + 1] == AfterSend(job, p, l.(phase := SendDown(k, |l.value|)), k)
    ensures forall i :: 0 <= i <= |l.value| ==> ls[i] == l.(phase := SendDown(k, i))
  {
    seq(|l.value| + 1, i requires 0 <= i <= |l.value| => l.(phase := SendDown(k, i))) +
    [AfterSend(job, p, l.(phase := SendDown(k, |l.value|)), k)]
  }

  /** The local state of a node that has reduced the first i leaves of v into its table. */
  function Gathering<T>(job: Job<T>, l: Local<T>, v: Payload<T>, k: nat, i: nat): Local<T>
    requires |l.value| == |v.value|
  {
    Local(l.round, Gather(k, i),
          seq(|l.value|, j requires 0 <= j < |l.value| => if j < i then job.reduce(l.value[j], v.value[j])
            else l.value[j]),
          l.numDone, l.log)
  }

  lemma GatherSteps<T>(job: Job<T>, p: nat, l: Local<T>, v: Payload<T>, k: nat, i: nat)
    requires i < |l.value| == |v.value|
    ensures Next(job, p, Gathering(job, l, v, k, i), Some(Item(v.value[i]))) == Gathering(job, l, v, k, i + 1)
  {
    var g, h := Gathering(job, l, v, k, i), Gathering(job, l, v, k, i + 1);
    assert g.value[i := job.reduce(g.value[i], v.value[i])] == h.value;
  }

  /** The local states of a node that takes all of v from child k. */
  ghost function GatherTrace<T>(job: Job<T>, p: nat, l: Local<T>, k: nat, v: Payload<T>): (ls: seq<Local<T>>)
    requires |l.value| == |v.value|
    ensures |ls| == |l.value| + 2
    ensures forall i :: 0 <= i <= |l.value| ==> ls[i] == Gathering(job, l, v, k, i)
  {
    var n := |l.value|;
    seq(n + 1, i requires 0 <= i <= n => Gathering(job, l, v, k, i)) +
    [AfterChild(job, p, Gathering(job, l, v, k, n).(numDone := l.numDone + v.numDone), k)]
  }

  lemma GatherTraceSteps<T>(job: Job<T>, p: nat, l: Local<T>, k: nat, v: Payload<T>)
    requires k < |Children(job.tree, p)| && |l.value| == |v.value|
    ensures RecvsAll(Processes(job), p, Children(job.tree, p)[k], GatherTrace(job, p, l, k, v), Pieces(v))
  {
    var ls, msgs := GatherTrace(job, p, l, k, v), Pieces(v);
    forall i | 0 <= i < |msgs|
      ensures Act(job, p, ls[i]) == Recv(Children(job.tree, p)[k]) && Next(job, p, ls[i], Some(msgs[i])) == ls[i + 1]
    {
      if i < |l.value| {
        GatherSteps(job, p, l, v, k, i);
      }
    }
  }

  lemma Gathers<T>(job: Job<T>, c: Nodes<T>, p: nat, l: Local<T>, k: nat, v: Payload<T>)
    returns (sched: seq<nat>, d: Nodes<T>)
    requires k < |Children(job.tree, p)|
    requires p < |c.locals| && c.locals[p] == l && l.phase == Gather(k, 0) && |l.value| == |v.value|
    requires Get(c.queues, Link(Children(job.tree, p)[k], p)) == Pieces(v)
    ensures Reaches(Processes(job), c, sched, d)
    ensures var m := Merge(job, Held(l), v);
            d.locals ==
              c.locals[p := AfterChild(job, p, Local(l.round, Gather(k, |l.value|), m.value, m.numDone, l.log), k)]
    ensures Updated(c.queues, d.queues, Link(Children(job.tree, p)[k], p), [])
  {
    var ls := GatherTrace(job, p, l, k, v);
    GatherTraceSteps(job, p, l, k, v);
    assert Gathering(job, l, v, k, 0).value == l.value;
    assert Gathering(job, l, v, k, |l.value|).value == Zip(job.reduce, l.value, v.value);
    sched, d := RecvMany(Processes(job), c, p, Children(job.tree, p)[k], ls, Pieces(v));
  }

  function Receiving<T>(l: Local<T>, v: Payload<T>, i: nat): Local<T>
    requires i <= |l.value| == |v.value|
  {
    l.(phase := RecvDown(i), value := v.value[..i] + l.value[i..])
  }

  lemma Receives<T>(job: Job<T>, c: Nodes<T>, p: nat, l: Local<T>, v: Payload<T>) returns (sched: seq<nat>, d: Nodes<T>)
    requires p < |c.locals| && c.locals[p] == l && l.phase == RecvDown(0) && |l.value| == |v.value|
    requires Get(c.queues, Link(job.tree.parent(p), p)) == Pieces(v)
    ensures Reaches(Processes(job), c, sched, d)
    ensures d.locals == c.locals[p := AfterRecv(job, p, Local(l.round, RecvDown(|v.value|), v.value, v.numDone, l.log))]
    ensures Updated(c.queues, d.queues, Link(job.tree.parent(p), p), [])
  {
    var ls := ReceiveTrace(job, p, l, v);
    ReceiveTraceSteps(job, p, l, v);
    assert Receiving(l, v, 0).value == l.value;
    assert Receiving(l, v, |l.value|).value == v.value;
    sched, d := RecvMany(Processes(job), c, p, job.tree.parent(p), ls, Pieces(v));
  }

  /** The local states of a node that takes all of v from its parent. */
  ghost function ReceiveTrace<T>(job: Job<T>, p: nat, l: Local<T>, v: Payload<T>): (ls: seq<Local<T>>)
    requires |l.value| == |v.value|
    ensures |ls| == |l.value| + 2
    ensures forall i :: 0 <= i <= |l.value| ==> ls[i] == Receiving(l, v, i)
  {
    var n := |l.value|;
    seq(n + 1, i requires 0 <= i <= n => Receiving(l, v, i)) +
      [AfterRecv(job, p, Receiving(l, v, n).(numDone := v.numDone))]
  }

  lemma ReceiveSteps<T>(job: Job<T>, p: nat, l: Local<T>, v: Payload<T>, i: nat)
    requires i < |l.value| == |v.value|
    ensures Next(job, p, Receiving(l, v, i), Some(Item(v.value[i]))) == Receiving(l, v, i + 1)
  {
    assert Receiving(l, v, i).value[i := v.value[i]] == Receiving(l, v, i + 1).value;
  }

  lemma ReceiveTraceSteps<T>(job: Job<T>, p: nat, l: Local<T>, v: Payload<T>)
    requires |l.value| == |v.value|
    ensures RecvsAll(Processes(job), p, job.tree.parent(p), ReceiveTrace(job, p, l, v), Pieces(v))
  {
    var ls, msgs := ReceiveTrace(job, p, l, v), Pieces(v);
    forall i | 0 <= i < |msgs|
      ensures Act(job, p, ls[i]) == Recv(job.tree.parent(p)) && Next(job, p, ls[i], Some(msgs[i])) == ls[i + 1]
    {
      if i < |l.value| {
        ReceiveSteps(job, p, l, v, i);
      }
    }
  }
}

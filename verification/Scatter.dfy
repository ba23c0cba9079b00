/** scatter of lua/Tree.lua (lines 234-254) as a network of node processes: every node takes its
    parent's table leaf by leaf, then passes it to its children, the last one first. */
module Scatter {
  import opened Wrappers
  import opened Network
  import opened OrderedTree
  import opened Descent

  /** `tables[p]` is the table node p calls scatter with, as the list of leaves walkTable visits. */
  datatype Job<!T> = Job(tree: Tree, tables: seq<seq<T>>)

  datatype Phase = Receiving(i: nat) | Sending(k: nat, i: nat) | Done

  datatype Local<+T> = Local(phase: Phase, value: seq<T>)

  type Nodes<!T> = Config<Local<T>, T>

  function AfterRecv<T>(job: Job<T>, p: nat, value: seq<T>): Local<T> {
    Local(if |Children(job.tree, p)| > 0 && |value| > 0 then Sending(0, 0) else Done, value)
  }

  function AfterSend<T>(job: Job<T>, p: nat, value: seq<T>, k: nat): Local<T> {
    Local(if k + 1 < |Children(job.tree, p)| then Sending(k + 1, 0) else Done, value)
  }

  function Act<T>(job: Job<T>, p: nat, l: Local<T>): Action<T> {
    var cs := Children(job.tree, p);
    match l.phase
    case Receiving(_) => Recv(job.tree.parent(p))
    case Sending(k, i) => if k < |cs| && i < |l.value| then Send(cs[|cs| - 1 - k], l.value[i]) else Halt
    case Done => Halt
  }

  function Next<T>(job: Job<T>, p: nat, l: Local<T>, m: Option<T>): Local<T> {
    match l.phase
    case Receiving(i) =>
      if m.None? || i >= |l.value| then l
      else
        var value := l.value[i := m.value];
        if i + 1 < |value| then Local(Receiving(i + 1), value) else AfterRecv(job, p, value)
    case Sending(k, i) => if i + 1 < |l.value| then Local(Sending(k, i + 1), l.value) else AfterSend(job, p, l.value, k)
    case Done => l
  }

  function Processes<T>(job: Job<T>): System<Local<T>, T> {
    System((p: nat, l: Local<T>) => Act(job, p, l), (p: nat, l: Local<T>, m: Option<T>) => Next(job, p, l, m))
  }

  function Begin<T>(job: Job<T>, p: nat): Local<T>
    requires p < |job.tables|
  {
    var value := job.tables[p];
    if p > 0 && |value| > 0 then Local(Receiving(0), value) else AfterRecv(job, p, value)
  }

  function Initial<T>(job: Job<T>): Nodes<T> {
    Config(seq(|job.tables|, p requires 0 <= p < |job.tables| => Begin(job, p)), map[])
  }

  /** As many tables as nodes, all with w leaves. */
  ghost predicate Proper<T>(job: Job<T>, w: nat) {
    Rooted(job.tree) && |job.tables| == job.tree.n && forall p :: 0 <= p < |job.tables| ==> |job.tables[p]| == w
  }

  // ----- one complete schedule, from the root down -----

  ghost predicate Locals<T>(job: Job<T>, c: Nodes<T>, j: nat, v: seq<T>) {
    && |c.locals| == job.tree.n == |job.tables|
    && forall i :: 0 <= i < |c.locals| && i != j ==> c.locals[i] == if i < j then Local(Done, v) else Begin(job, i)
  }

  ghost predicate DownTo<T>(job: Job<T>, c: Nodes<T>, j: nat, v: seq<T>) {
    && Locals(job, c, j, v) && (j < job.tree.n ==> c.locals[j] == Begin(job, j))
    && forall l :: Get(c.queues, l) == Flight(job.tree, j, l, v)
  }

  ghost function Passing<T>(job: Job<T>, j: nat, k: nat, v: seq<T>): Local<T> {
    Local(if k < |Children(job.tree, j)| then Sending(k, 0) else Done, v)
  }

  /** Node j has the table and has passed it to its k last children. */
  ghost predicate PassedTo<T>(job: Job<T>, c: Nodes<T>, j: nat, k: nat, v: seq<T>)
    requires k <= |Children(job.tree, j)|
  {
    && Locals(job, c, j, v) && j < job.tree.n && c.locals[j] == Passing(job, j, k, v)
    && PassQueues(job.tree, c.queues, j, k, v)
  }

  // ----- receiving -----

  function Mixed<T>(own: seq<T>, v: seq<T>, i: nat): seq<T>
    requires i <= |own| == |v|
  {
    v[..i] + own[i..]
  }

  ghost function RecvTrace<T>(job: Job<T>, j: nat, own: seq<T>, v: seq<T>): (ls: seq<Local<T>>)
    requires |own| == |v|
    ensures |ls| == |v| + 1 && ls[|v|] == AfterRecv(job, j, v)
    ensures forall i :: 0 <= i < |v| ==> ls[i] == Local(Receiving(i), Mixed(own, v, i))
  {
    seq(|v|, i requires 0 <= i < |v| => Local(Receiving(i), Mixed(own, v, i))) + [AfterRecv(job, j, v)]
  }

  lemma RecvTraceSteps<T>(job: Job<T>, j: nat, own: seq<T>, v: seq<T>)
    requires |own| == |v|
    ensures RecvsAll(Processes(job), j, job.tree.parent(j), RecvTrace(job, j, own, v), v)
  {
    var ls := RecvTrace(job, j, own, v);
    forall i | 0 <= i < |v|
      ensures Act(job, j, ls[i]) == Recv(job.tree.parent(j)) && Next(job, j, ls[i], Some(v[i])) == ls[i + 1]
    {
      assert Mixed(own, v, i)[i := v[i]] == Mixed(own, v, i + 1);
      assert Mixed(own, v, |v|) == v;
    }
  }

  lemma Receives<T>(job: Job<T>, c: Nodes<T>, j: nat, v: seq<T>) returns (sched: seq<nat>, d: Nodes<T>)
    requires Proper(job, |v|) && |v| > 0 && 0 < j < job.tree.n && DownTo(job, c, j, v)
    ensures Reaches(Processes(job), c, sched, d) && PassedTo(job, d, j, 0, v)
  {
    var own := job.tables[j];
    RecvTraceSteps(job, j, own, v);
    assert Mixed(own, v, 0) == own;
    FlightTaken(job.tree, c.queues, c.queues, j, v);
    sched, d := RecvMany(Processes(job), c, j, job.tree.parent(j), RecvTrace(job, j, own, v), v);
    FlightTaken(job.tree, c.queues, d.queues, j, v);
  }

  // ----- sending -----

  ghost function SendTrace<T>(job: Job<T>, j: nat, k: nat, v: seq<T>): (ls: seq<Local<T>>)
    ensures |ls| == |v| + 1 && ls[|v|] == AfterSend(job, j, v, k)
    ensures forall i :: 0 <= i < |v| ==> ls[i] == Local(Sending(k, i), v)
  {
    seq(|v|, i requires 0 <= i < |v| => Local(Sending(k, i), v)) + [AfterSend(job, j, v, k)]
  }

  lemma SendTraceSteps<T>(job: Job<T>, j: nat, k: nat, v: seq<T>)
    requires k < |Children(job.tree, j)|
    ensures var cs := Children(job.tree, j); SendsAll(Processes(job), j, cs[|cs| - 1 - k], SendTrace(job, j, k, v), v)
  {
  }

  lemma PassesOne<T>(job: Job<T>, c: Nodes<T>, j: nat, k: nat, v: seq<T>) returns (sched: seq<nat>, d: Nodes<T>)
    requires |v| > 0 && k < |Children(job.tree, j)| && PassedTo(job, c, j, k, v)
    ensures Reaches(Processes(job), c, sched, d) && PassedTo(job, d, j, k + 1, v)
  {
    var cs := Children(job.tree, j);
    ServesOne(job.tree, c.queues, c.queues, j, k, v);
    sched, d := SendsTable(job, c, j, k, v, cs[|cs| - 1 - k]);
    ServesOne(job.tree, c.queues, d.queues, j, k, v);
  }

  lemma SendsTable<T>(job: Job<T>, c: Nodes<T>, j: nat, k: nat, v: seq<T>, q: nat)
    returns (sched: seq<nat>, d: Nodes<T>)
    requires |v| > 0 && k < |Children(job.tree, j)| && q == Children(job.tree, j)[|Children(job.tree, j)| - 1 - k]
    requires j < |c.locals| && c.locals[j] == Local(Sending(k, 0), v) && Get(c.queues, Link(j, q)) == []
    ensures Reaches(Processes(job), c, sched, d)
    ensures d.locals == c.locals[j := AfterSend(job, j, v, k)] && Updated(c.queues, d.queues, Link(j, q), v)
  {
    SendTraceSteps(job, j, k, v);
    sched, d := SendMany(Processes(job), c, j, q, SendTrace(job, j, k, v), v);
    assert [] + v == v;
  }

  lemma {:induction false} PassesAll<T>(job: Job<T>, c: Nodes<T>, j: nat, k: nat, v: seq<T>)
    returns (sched: seq<nat>, d: Nodes<T>)
    requires |v| > 0 && k <= |Children(job.tree, j)| && PassedTo(job, c, j, k, v)
    ensures Reaches(Processes(job), c, sched, d) && PassedTo(job, d, j, |Children(job.tree, j)|, v)
    decreases |Children(job.tree, j)| - k, 1
  {
    if k == |Children(job.tree, j)| {
      sched, d := [], c;
    } else {
      sched, d := PassesMore(job, c, j, k, v);
    }
  }

  lemma {:induction false} PassesMore<T>(job: Job<T>, c: Nodes<T>, j: nat, k: nat, v: seq<T>)
    returns (sched: seq<nat>, d: Nodes<T>)
    requires |v| > 0 && k < |Children(job.tree, j)| && PassedTo(job, c, j, k, v)
    ensures Reaches(Processes(job), c, sched, d) && PassedTo(job, d, j, |Children(job.tree, j)|, v)
    decreases |Children(job.tree, j)| - k, 0
  {
    var first, mid := PassesOne(job, c, j, k, v);
    var rest;
    rest, d := PassesAll(job, mid, j, k + 1, v);
    sched := first + rest;
    Then(Processes(job), c, first, mid, rest, d);
  }

  lemma PassedDown<T>(job: Job<T>, c: Nodes<T>, j: nat, v: seq<T>)
    requires PassedTo(job, c, j, |Children(job.tree, j)|, v)
    ensures DownTo(job, c, j + 1, v)
  {
    forall l
      ensures Get(c.queues, l) == Flight(job.tree, j + 1, l, v)
    {
      ServedAll(job.tree, c.queues, j, v, l);
    }
  }

  // ----- the whole tree -----

  lemma RootBegins<T>(job: Job<T>, c: Nodes<T>, v: seq<T>)
    requires Proper(job, |v|) && |v| > 0 && v == job.tables[0] && DownTo(job, c, 0, v)
    ensures PassedTo(job, c, 0, 0, v)
  {
    var cs := Children(job.tree, 0);
    assert cs[|cs|..] == [];
  }

  lemma NodeTurn<T>(job: Job<T>, c: Nodes<T>, j: nat, v: seq<T>) returns (sched: seq<nat>, d: Nodes<T>)
    requires Proper(job, |v|) && |v| > 0 && v == job.tables[0] && j < job.tree.n && DownTo(job, c, j, v)
    ensures Reaches(Processes(job), c, sched, d) && DownTo(job, d, j + 1, v)
  {
    var first, mid := [], c;
    if j == 0 {
      RootBegins(job, c, v);
    } else {
      first, mid := Receives(job, c, j, v);
    }
    var rest;
    rest, d := PassesAll(job, mid, j, 0, v);
    PassedDown(job, d, j, v);
    sched := first + rest;
    Then(Processes(job), c, first, mid, rest, d);
  }

  lemma {:induction false} AllTurns<T>(job: Job<T>, c: Nodes<T>, j: nat, v: seq<T>)
    returns (sched: seq<nat>, d: Nodes<T>)
    requires Proper(job, |v|) && |v| > 0 && v == job.tables[0] && j <= job.tree.n && DownTo(job, c, j, v)
    ensures Reaches(Processes(job), c, sched, d) && DownTo(job, d, job.tree.n, v)
    decreases job.tree.n - j
  {
    if j == job.tree.n {
      sched, d := [], c;
    } else {
      var first, mid := NodeTurn(job, c, j, v);
      var rest;
      rest, d := AllTurns(job, mid, j + 1, v);
      sched := first + rest;
      Then(Processes(job), c, first, mid, rest, d);
    }
  }

  /** Every node has finished and holds the root's table, and nothing is in flight. */
  ghost predicate Scattered<T>(job: Job<T>, e: Nodes<T>)
    requires |job.tables| > 0
  {
    && |e.locals| == job.tree.n
    && (forall p :: 0 <= p < |e.locals| ==> e.locals[p] == Local(Done, job.tables[0]))
    && (forall l :: Get(e.queues, l) == [])
  }

  lemma OneCompleteRun<T>(job: Job<T>, w: nat) returns (sched: seq<nat>, e: Nodes<T>)
    requires Proper(job, w)
    ensures Reaches(Processes(job), Initial(job), sched, e) && Scattered(job, e)
  {
    var c, v := Initial(job), job.tables[0];
    if w == 0 {
      sched, e := [], c;
      forall p | 0 <= p < |e.locals|
        ensures e.locals[p] == Local(Done, v)
      {
        assert job.tables[p] == [] == v;
      }
    } else {
      sched, e := AllTurns(job, c, 0, v);
    }
  }

  /** On every tree in which parents come before their children, every run of scatter ends, and
      leaves every node with the root's table. */
  lemma ScatterCompletes<T(!new)>(job: Job<T>, w: nat) returns (total: nat, e: Nodes<T>)
    requires Proper(job, w)
    ensures AlwaysEnds(Processes(job), Initial(job), e, total) && Scattered(job, e)
  {
    var sched;
    sched, e := OneCompleteRun(job, w);
    total := |sched|;
    Halted(Processes(job), e);
    OneRunIsEnough(Processes(job), Initial(job), sched, e);
  }
}

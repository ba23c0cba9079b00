/** allReduce of lua/Tree.lua (lines 167-231) as a network of node processes.

    A node's `client` is its link pair with its parent (absent at node 0), its `server`
    holds one link pair per child.  A value is the list of leaves that walkTable visits;
    every leaf travels as a message of its own, followed by the count of finished nodes.
 */
module AllReduce {
  import opened Wrappers
  import opened Network
  import opened OrderedTree

  datatype Msg<+T> = Item(x: T) | Count(c: nat)

  /** What a node does after its plain calls: nothing, or one call with a `zero` function,
      given a value or relying on the last one. */
  datatype Ending<+T> = Stop | Zero(arg: Option<seq<T>>)

  /** The calls of one node: `plain[r]` is the value of its call number r. */
  datatype Plan<+T> = Plan(plain: seq<seq<T>>, ending: Ending<T>)

  datatype Job<!T> = Job(tree: Tree, reduce: (T, T) -> T, zero: (T, nat) -> T, plans: seq<Plan<T>>)

  /** Receiving leaf i from child k, sending leaf i up, receiving leaf i from the parent,
      sending leaf i to the k-th largest child, or between calls with none left. */
  datatype Phase = Gather(k: nat, i: nat) | SendUp(i: nat) | RecvDown(i: nat) | SendDown(k: nat, i: nat) | Idle

  /** What one call returns. */
  datatype Reply<+T> = Reply(value: seq<T>, contributors: int)

  datatype Local<+T> = Local(round: nat, phase: Phase, value: seq<T>, numDone: nat, log: seq<Reply<T>>)

  function PlanOf<T>(job: Job<T>, p: nat): Plan<T> {
    if p < |job.plans| then job.plans[p] else Plan([], Stop)
  }

  /** In round r node p is inside its call with `zero`. */
  predicate Zeroing<T>(job: Job<T>, p: nat, r: nat) {
    r >= |PlanOf(job, p).plain|
  }

  function Zeroed<T>(job: Job<T>, v: seq<T>): seq<T> {
    seq(|v|, i requires 0 <= i < |v| => job.zero(v[i], i + 1))
  }

  /** What node p puts into round r when `last` is the table it was left with. */
  function Contribution<T>(job: Job<T>, p: nat, r: nat, last: seq<T>): seq<T> {
    var plan := PlanOf(job, p);
    if r < |plan.plain| then plan.plain[r]
    else if r == |plan.plain| && plan.ending.Zero? && plan.ending.arg.Some? then Zeroed(job, plan.ending.arg.value)
    else Zeroed(job, last)
  }

  function FirstPhase<T>(job: Job<T>, p: nat): Phase {
    if |Children(job.tree, p)| > 0 then Gather(0, 0) else SendUp(0)
  }

  function EnterRound<T>(job: Job<T>, p: nat, r: nat, last: seq<T>, log: seq<Reply<T>>): Local<T> {
    if r < |PlanOf(job, p).plain| || PlanOf(job, p).ending.Zero? then
      Local(r, FirstPhase(job, p), Contribution(job, p, r, last), if Zeroing(job, p, r) then 1 else 0, log)
    else
      Local(r, Idle, last, 0, log)
  }

  /** The end of allReduceInner: once more if this node is done and another is not. */
  function FinishRound<T>(job: Job<T>, p: nat, l: Local<T>): Local<T> {
    if Zeroing(job, p, l.round) && l.numDone < job.tree.n then
      EnterRound(job, p, l.round + 1, l.value, l.log)
    else
      var log := l.log + [Reply(l.value, job.tree.n - l.numDone)];
      if Zeroing(job, p, l.round) then Local(l.round + 1, Idle, l.value, l.numDone, log)
      else EnterRound(job, p, l.round + 1, l.value, log)
  }

  function AfterGather<T>(job: Job<T>, p: nat, l: Local<T>): Local<T> {
    if p == 0 then AfterRecv(job, p, l) else l.(phase := SendUp(0))
  }

  function AfterRecv<T>(job: Job<T>, p: nat, l: Local<T>): Local<T> {
    if |Children(job.tree, p)| > 0 then l.(phase := SendDown(0, 0)) else FinishRound(job, p, l)
  }

  function Piece<T>(l: Local<T>, i: nat): Msg<T> {
    if i < |l.value| then Item(l.value[i]) else Count(l.numDone)
  }

  function Act<T>(job: Job<T>, p: nat, l: Local<T>): Action<Msg<T>> {
    var cs := Children(job.tree, p);
    match l.phase
    case Gather(k, _) => if k < |cs| then Recv(cs[k]) else Halt
    case SendUp(i) => Send(job.tree.parent(p), Piece(l, i))
    case RecvDown(_) => Recv(job.tree.parent(p))
    case SendDown(k, i) => if k < |cs| then Send(cs[|cs| - 1 - k], Piece(l, i)) else Halt
    case Idle => Halt
  }

  function Next<T>(job: Job<T>, p: nat, l: Local<T>, m: Option<Msg<T>>): Local<T> {
    var cs := Children(job.tree, p);
    match l.phase
    case Gather(k, i) =>
      if m.Some? && m.value.Item? && i < |l.value| then
        l.(value := l.value[i := job.reduce(l.value[i], m.value.x)], phase := Gather(k, i + 1))
      else if m.Some? && m.value.Count? && i == |l.value| then
        AfterChild(job, p, l.(numDone := l.numDone + m.value.c), k)
      else l.(phase := Idle)
    case SendUp(i) => if i < |l.value| then l.(phase := SendUp(i + 1)) else l.(phase := RecvDown(0))
    case RecvDown(i) =>
      if m.Some? && m.value.Item? && i < |l.value| then
        l.(value := l.value[i := m.value.x], phase := RecvDown(i + 1))
      else if m.Some? && m.value.Count? && i == |l.value| then
        AfterRecv(job, p, l.(numDone := m.value.c))
      else l.(phase := Idle)
    case SendDown(k, i) =>
      if i < |l.value| then l.(phase := SendDown(k, i + 1)) else AfterSend(job, p, l, k)
    case Idle => l
  }

  function AfterChild<T>(job: Job<T>, p: nat, l: Local<T>, k: nat): Local<T> {
    if k + 1 < |Children(job.tree, p)| then l.(phase := Gather(k + 1, 0)) else AfterGather(job, p, l)
  }

  function AfterSend<T>(job: Job<T>, p: nat, l: Local<T>, k: nat): Local<T> {
    if k + 1 < |Children(job.tree, p)| then l.(phase := SendDown(k + 1, 0)) else FinishRound(job, p, l)
  }

  function Processes<T>(job: Job<T>): System<Local<T>, Msg<T>> {
    System((p: nat, l: Local<T>) => Act(job, p, l), (p: nat, l: Local<T>, m: Option<Msg<T>>) => Next(job, p, l, m))
  }

  function Initial<T>(job: Job<T>): Config<Local<T>, Msg<T>> {
    RoundStart(job, 0)
  }

  // ----- what each round computes -----

  /** A table together with the number of finished nodes it accounts for. */
  datatype Payload<+T> = Payload(value: seq<T>, numDone: nat)

  function Zip<T>(reduce: (T, T) -> T, a: seq<T>, b: seq<T>): seq<T>
    requires |a| == |b|
  {
    seq(|a|, i requires 0 <= i < |a| => reduce(a[i], b[i]))
  }

  function Merge<T>(job: Job<T>, a: Payload<T>, b: Payload<T>): Payload<T> {
    if |a.value| == |b.value| then Payload(Zip(job.reduce, a.value, b.value), a.numDone + b.numDone) else a
  }

  /** Node j's own payload merged with those of its first k subtrees. */
  function Merged<T>(job: Job<T>, ps: seq<Payload<T>>, j: nat, k: nat): Payload<T>
    requires |ps| == job.tree.n && j < |ps| && k <= |Children(job.tree, j)|
    decreases job.tree.n - j, k
  {
    if k == 0 then ps[j] else Merge(job, Merged(job, ps, j, k - 1), SubTotal(job, ps, Children(job.tree, j)[k - 1]))
  }

  /** What node j sends to its parent. */
  function SubTotal<T>(job: Job<T>, ps: seq<Payload<T>>, j: nat): Payload<T>
    requires |ps| == job.tree.n && j < |ps|
    decreases job.tree.n - j, |Children(job.tree, j)| + 1
  {
    Merged(job, ps, j, |Children(job.tree, j)|)
  }

  function Payloads<T>(job: Job<T>, r: nat, last: seq<T>): seq<Payload<T>> {
    seq(job.tree.n, (j: nat) => Payload(Contribution(job, j, r, last), if Zeroing(job, j, r) then 1 else 0))
  }

  /** The table every node holds after r rounds. */
  function LastAfter<T>(job: Job<T>, r: nat): seq<T>
    decreases r, 0
  {
    if r == 0 || job.tree.n == 0 then [] else Total(job, r - 1).value
  }

  /** What round r computes at the root. */
  function Total<T>(job: Job<T>, r: nat): Payload<T>
    requires job.tree.n > 0
    decreases r, 1
  {
    SubTotal(job, Payloads(job, r, LastAfter(job, r)), 0)
  }

  /** What the first r rounds returned to node j. */
  function LogAfter<T>(job: Job<T>, j: nat, r: nat): seq<Reply<T>> {
    if r == 0 || job.tree.n == 0 then []
    else
      LogAfter(job, j, r - 1) +
      if Zeroing(job, j, r - 1) && Total(job, r - 1).numDone < job.tree.n then []
      else [Reply(Total(job, r - 1).value, job.tree.n - Total(job, r - 1).numDone)]
  }

  function RoundStart<T>(job: Job<T>, r: nat): Config<Local<T>, Msg<T>> {
    Config(seq(job.tree.n, (j: nat) => EnterRound(job, j, r, LastAfter(job, r), LogAfter(job, j, r))), map[])
  }
}

/** The background task pool (lua/BackgroundTaskPool.lua over the two queues of src/workqueue.c).

    The owner's calls and the workers' loops are broken into steps at every queue operation; a
    run is any interleaving of them.
 */
module TaskPool {
  import opened Wrappers

  /** What running a task's function comes to.  An error value of nil or false is falsy. */
  datatype Outcome<V> = Success(v: V) | Failure(v: V, truthy: bool)

  datatype Answer<V> = Answer(id: nat, out: Outcome<V>)

  datatype Worker = Waiting | Running(id: nat) | Ended | Died

  datatype Goal = ForAdd | ForDone | ForGet

  /** Where the owner is.  Polling: in the loop of isDone. */
  datatype Owner =
    | Idle
    | Polling(id: Option<nat>, block: bool, goal: Goal)
    | Adding
    | Finishing(id: Option<nat>)
    | Closing(id: Option<nat>, left: nat)
    | Joining(id: Option<nat>)
    | Taking(id: Option<nat>)

  /** What getResult gives its caller. */
  datatype Result<V> = Returned(v: V) | Raised(v: V) | Nothing

  /** What a call tells its caller: getResult, isDone and addTask. */
  datatype Told<V> = Gave(r: Result<V>) | IsDone(yes: bool) | TaskId(id: nat)

  /** A nil on the question queue is None.  Histories: `seen`, the tasks whose answer was read;
      `taken`, those whose result was handed out; `lost`, those that could not be written, or
      whose result could not be; `told`, what the calls so far returned. */
  datatype Pool<V> = Pool(
    numTasks: nat,
    numResults: nat,
    successes: map<nat, V>,
    failures: map<nat, V>,
    questions: seq<Option<nat>>,
    answers: seq<Answer<V>>,
    workers: seq<Worker>,
    owner: Owner,
    joined: bool,
    seen: seq<nat>,
    taken: set<nat>,
    lost: seq<nat>,
    told: seq<Told<V>>)

  function Start<V>(poolSize: nat): Pool<V> {
    Pool(0, 0, map[], map[], [], [], seq(poolSize, _ => Waiting), Idle, false, [], {}, [], [])
  }

  /** Call: the owner enters addTask, isDone or getResult.  Poll and StopPolling: the loop of
      isDone reads an answer, or ends.  Add, Finish, WriteNil, StopClosing, Join and Take: the rest
      of addTask and getResult.  The others are a worker's. */
  datatype Event =
    | Call(id: Option<nat>, block: bool, goal: Goal)
    | Poll
    | StopPolling
    | Add(refused: bool)
    | Finish
    | WriteNil
    | StopClosing
    | Join
    | Take
    | Fetch(i: nat)
    | Reply(i: nat)
    | Die(i: nat)

  // ----- the owner -----

  predicate HasResult<V>(p: Pool<V>, id: Option<nat>) {
    id.Some? && (id.value in p.successes || id.value in p.failures)
  }

  /** The loop condition of isDone. */
  predicate Unfinished<V>(p: Pool<V>, id: Option<nat>) {
    p.numResults < p.numTasks && !HasResult(p, id)
  }

  /** One answer goes into the tables.  A falsy failure stores a success of nil, which is nothing. */
  function Stored<V>(p: Pool<V>): Pool<V>
    requires |p.answers| > 0
  {
    var a := p.answers[0];
    p.(answers := p.answers[1..],
       numResults := p.numResults + 1,
       seen := p.seen + [a.id],
       failures := if a.out.Failure? && a.out.truthy then p.failures[a.id := a.out.v] else p.failures,
       successes := if a.out.Success? then p.successes[a.id := a.out.v] else if a.out.truthy then p.successes
         else p.successes - {a.id})
  }

  /** The count goes up before the task is written, even if the write then raises an error. */
  function Added<V>(p: Pool<V>, refused: bool): Pool<V> {
    var n := p.numTasks + 1;
    if refused then p.(numTasks := n, lost := p.lost + [n], owner := Idle)
    else p.(numTasks := n, questions := p.questions + [Some(n)], owner := Idle, told := p.told + [TaskId(n)])
  }

  function NilWritten<V>(p: Pool<V>): Pool<V>
    requires p.owner.Closing? && p.owner.left > 0
  {
    p.(questions := p.questions + [None], owner := Closing(p.owner.id, p.owner.left - 1))
  }

  function AfterPoll(id: Option<nat>, goal: Goal): Owner {
    match goal
    case ForAdd => Adding
    case ForDone => Idle
    case ForGet => Finishing(id)
  }

  /** The end of isDone, which only its own caller looks at. */
  function Polled<V>(p: Pool<V>): Pool<V>
    requires p.owner.Polling?
  {
    var yes := p.numResults == p.numTasks || HasResult(p, p.owner.id);
    p.(owner := AfterPoll(p.owner.id, p.owner.goal),
       told := if p.owner.goal.ForDone? then p.told + [IsDone(yes)] else p.told)
  }

  /** The task whose result getResult looks for. */
  function Wanted<V>(p: Pool<V>, id: Option<nat>): nat {
    if id.Some? then id.value else p.numResults
  }

  function ResultOf<V>(p: Pool<V>, id: nat): Result<V> {
    if id in p.successes then Returned(p.successes[id])
    else if id in p.failures then Raised(p.failures[id])
    else Nothing
  }

  function Taken<V>(p: Pool<V>, n: nat): Pool<V> {
    p.(successes := p.successes - {n},
       failures := if n in p.successes then p.failures else p.failures - {n},
       taken := if n in p.seen then p.taken + {n} else p.taken,
       owner := Idle,
       told := p.told + [Gave(ResultOf(p, n))])
  }

  // ----- the workers -----

  /** The next task, or nil. */
  function Fetched<V>(p: Pool<V>, i: nat): Pool<V>
    requires i < |p.workers| && |p.questions| > 0
  {
    var task := p.questions[0];
    p.(questions := p.questions[1..], workers := p.workers[i := if task.Some? then Running(task.value) else Ended])
  }

  function Replied<V>(p: Pool<V>, i: nat, run: nat -> Outcome<V>): Pool<V>
    requires i < |p.workers| && p.workers[i].Running?
  {
    var id := p.workers[i].id;
    p.(workers := p.workers[i := Waiting], answers := p.answers + [Answer(id, run(id))])
  }

  /** An answer that cannot be written ends its worker. */
  function Fallen<V>(p: Pool<V>, i: nat): Pool<V>
    requires i < |p.workers| && p.workers[i].Running?
  {
    p.(workers := p.workers[i := Died], lost := p.lost + [p.workers[i].id])
  }

  // ----- steps -----

  predicate Gone(ws: seq<Worker>) {
    forall i :: 0 <= i < |ws| ==> ws[i].Ended? || ws[i].Died?
  }

  predicate LastResult<V>(p: Pool<V>, closeOnLast: bool) {
    closeOnLast && p.numResults == p.numTasks && !p.joined
  }

  predicate Enabled<V>(p: Pool<V>, e: Event) {
    match e
    case Call(id, block, goal) => p.owner.Idle? && (goal.ForAdd? ==> id.None? && !block) && (goal.ForGet? ==> block)
    case Poll => p.owner.Polling? && Unfinished(p, p.owner.id) && |p.answers| > 0
    case StopPolling => p.owner.Polling? && (Unfinished(p, p.owner.id) ==> |p.answers| == 0 && !p.owner.block)
    case Add(refused) => p.owner.Adding?
    case Finish => p.owner.Finishing?
    case WriteNil => p.owner.Closing? && p.owner.left > 0
    case StopClosing => p.owner.Closing? && p.owner.left == 0
    case Join => p.owner.Joining? && Gone(p.workers)
    case Take => p.owner.Taking?
    case Fetch(i) => i < |p.workers| && p.workers[i].Waiting? && |p.questions| > 0
    case Reply(i) => i < |p.workers| && p.workers[i].Running?
    case Die(i) => i < |p.workers| && p.workers[i].Running?
  }

  function Next<V>(p: Pool<V>, e: Event, closeOnLast: bool, run: nat -> Outcome<V>): Pool<V>
    requires Enabled(p, e)
  {
    match e
    case Call(id, block, goal) => p.(owner := Polling(id, block, goal))
    case Poll => Stored(p)
    case StopPolling => Polled(p)
    case Add(refused) => Added(p, refused)
    case Finish => p.(owner := if LastResult(p, closeOnLast) then Closing(p.owner.id, |p.workers|)
      else Taking(p.owner.id))
    case WriteNil => NilWritten(p)
    case StopClosing => p.(owner := Joining(p.owner.id))
    case Join => p.(joined := true, owner := Taking(p.owner.id))
    case Take => Taken(p, Wanted(p, p.owner.id))
    case Fetch(i) => Fetched(p, i)
    case Reply(i) => Replied(p, i, run)
    case Die(i) => Fallen(p, i)
  }

  // ----- where the tasks are -----

  // How many tasks are in a place: all of them (x is None), or how often task x is (Some).

  function One(x: Option<nat>, id: nat): nat {
    if x.None? || x.value == id then 1 else 0
  }

  function Among(ids: seq<nat>, x: Option<nat>): nat {
    if |ids| == 0 then 0 else One(x, ids[0]) + Among(ids[1..], x)
  }

  function Asked(qs: seq<Option<nat>>, x: Option<nat>): nat {
    if |qs| == 0 then 0 else (if qs[0].Some? then One(x, qs[0].value) else 0) + Asked(qs[1..], x)
  }

  function Nils(qs: seq<Option<nat>>): nat {
    if |qs| == 0 then 0 else (if qs[0].Some? then 0 else 1) + Nils(qs[1..])
  }

  function InHand(w: Worker, x: Option<nat>): nat {
    if w.Running? then One(x, w.id) else 0
  }

  function InFlight(ws: seq<Worker>, x: Option<nat>): nat {
    if |ws| == 0 then 0 else InHand(ws[0], x) + InFlight(ws[1..], x)
  }

  function IsEnded(w: Worker): nat {
    if w.Ended? then 1 else 0
  }

  function EndedCount(ws: seq<Worker>): nat {
    if |ws| == 0 then 0 else IsEnded(ws[0]) + EndedCount(ws[1..])
  }

  function Answered<V>(xs: seq<Answer<V>>, x: Option<nat>): nat {
    if |xs| == 0 then 0 else One(x, xs[0].id) + Answered(xs[1..], x)
  }

  function UpTo(n: nat, x: Option<nat>): nat {
    if x.None? then n else if 1 <= x.value <= n then 1 else 0
  }

  function Everywhere<V>(p: Pool<V>, x: Option<nat>): nat {
    Asked(p.questions, x) + InFlight(p.workers, x) + Answered(p.answers, x) + Among(p.seen, x) + Among(p.lost, x)
  }

  /** Every task that was added is in exactly one place. */
  ghost predicate Conserved<V>(p: Pool<V>) {
    |p.seen| == p.numResults && forall x :: Everywhere(p, x) == UpTo(p.numTasks, x)
  }

  lemma {:induction false} AskedAppend(qs: seq<Option<nat>>, q: Option<nat>, x: Option<nat>)
    ensures Asked(qs + [q], x) == Asked(qs, x) + if q.Some? then One(x, q.value) else 0
    ensures Nils(qs + [q]) == Nils(qs) + if q.Some? then 0 else 1
  {
    if |qs| == 0 {
      assert qs + [q] == [q] && [q][1..] == [];
    } else {
      AskedAppend(qs[1..], q, x);
      assert (qs + [q])[1..] == qs[1..] + [q];
    }
  }

  lemma {:induction false} AnsweredAppend<V>(xs: seq<Answer<V>>, a: Answer<V>, x: Option<nat>)
    ensures Answered(xs + [a], x) == Answered(xs, x) + One(x, a.id)
  {
    if |xs| == 0 {
      assert xs + [a] == [a] && [a][1..] == [];
    } else {
      AnsweredAppend(xs[1..], a, x);
      assert (xs + [a])[1..] == xs[1..] + [a];
    }
  }

  lemma {:induction false} AmongAppend(ids: seq<nat>, id: nat, x: Option<nat>)
    ensures Among(ids + [id], x) == Among(ids, x) + One(x, id)
  {
    if |ids| == 0 {
      assert ids + [id] == [id] && [id][1..] == [];
    } else {
      AmongAppend(ids[1..], id, x);
      assert (ids + [id])[1..] == ids[1..] + [id];
    }
  }

  lemma {:induction false} AmongAll(ids: seq<nat>, x: nat)
    ensures Among(ids, None) == |ids| && (Among(ids, Some(x)) > 0 <==> x in ids)
  {
    if |ids| == 0 {
    } else {
      AmongAll(ids[1..], x);
    }
  }

  lemma {:induction false} AnsweredAll<V>(xs: seq<Answer<V>>)
    ensures Answered(xs, None) == |xs|
  {
    if |xs| == 0 {
    } else {
      AnsweredAll(xs[1..]);
    }
  }

  lemma {:induction false} WorkerChanges(ws: seq<Worker>, i: nat, w: Worker, x: Option<nat>)
    requires i < |ws|
    ensures InFlight(ws[i := w], x) == InFlight(ws, x) - InHand(ws[i], x) + InHand(w, x)
    ensures EndedCount(ws[i := w]) == EndedCount(ws) - IsEnded(ws[i]) + IsEnded(w)
  {
    if i == 0 {
      assert ws[i := w][1..] == ws[1..];
    } else {
      WorkerChanges(ws[1..], i - 1, w, x);
      assert ws[i := w][1..] == ws[1..][i - 1 := w];
    }
  }

  lemma StoredConserves<V>(p: Pool<V>, x: Option<nat>)
    requires |p.answers| > 0
    ensures Everywhere(Stored(p), x) == Everywhere(p, x)
  {
    AmongAppend(p.seen, p.answers[0].id, x);
  }

  lemma AddedConserves<V>(p: Pool<V>, refused: bool, x: Option<nat>)
    ensures Everywhere(Added(p, refused), x) == Everywhere(p, x) + One(x, p.numTasks + 1)
  {
    AskedAppend(p.questions, Some(p.numTasks + 1), x);
    AmongAppend(p.lost, p.numTasks + 1, x);
  }

  lemma NilConserves<V>(p: Pool<V>, x: Option<nat>)
    requires p.owner.Closing? && p.owner.left > 0
    ensures Everywhere(NilWritten(p), x) == Everywhere(p, x)
  {
    AskedAppend(p.questions, None, x);
  }

  lemma FetchedConserves<V>(p: Pool<V>, i: nat, x: Option<nat>)
    requires i < |p.workers| && p.workers[i].Waiting? && |p.questions| > 0
    ensures Everywhere(Fetched(p, i), x) == Everywhere(p, x)
  {
    WorkerChanges(p.workers, i, Fetched(p, i).workers[i], x);
  }

  lemma RepliedConserves<V>(p: Pool<V>, i: nat, run: nat -> Outcome<V>, x: Option<nat>)
    requires i < |p.workers| && p.workers[i].Running?
    ensures Everywhere(Replied(p, i, run), x) == Everywhere(p, x)
  {
    var id := p.workers[i].id;
    WorkerChanges(p.workers, i, Waiting, x);
    AnsweredAppend(p.answers, Answer(id, run(id)), x);
  }

  lemma FallenConserves<V>(p: Pool<V>, i: nat, x: Option<nat>)
    requires i < |p.workers| && p.workers[i].Running?
    ensures Everywhere(Fallen(p, i), x) == Everywhere(p, x)
  {
    WorkerChanges(p.workers, i, Died, x);
    AmongAppend(p.lost, p.workers[i].id, x);
  }

  lemma StepConservesAt<V>(p: Pool<V>, e: Event, closeOnLast: bool, run: nat -> Outcome<V>, x: Option<nat>)
    requires Enabled(p, e)
    ensures Everywhere(Next(p, e, closeOnLast, run), x) == Everywhere(p, x) + if e.Add? then One(x, p.numTasks + 1)
            else 0
  {
    match e
    case Poll => StoredConserves(p, x);
    case Add(refused) => AddedConserves(p, refused, x);
    case WriteNil => NilConserves(p, x);
    case Fetch(i) => FetchedConserves(p, i, x);
    case Reply(i) => RepliedConserves(p, i, run, x);
    case Die(i) => FallenConserves(p, i, x);
    case _ =>
  }

  lemma CountsOf<V>(p: Pool<V>, e: Event, closeOnLast: bool, run: nat -> Outcome<V>)
    requires Enabled(p, e)
    ensures var p' := Next(p, e, closeOnLast, run);
            && p'.numTasks == p.numTasks + (if e.Add? then 1 else 0)
            && p'.numResults == p.numResults + (if e.Poll? then 1 else 0)
            && p'.seen == p.seen + (if e.Poll? then [p.answers[0].id] else [])
  {
  }

  lemma StepConserves<V>(p: Pool<V>, e: Event, closeOnLast: bool, run: nat -> Outcome<V>)
    requires Conserved(p) && Enabled(p, e)
    ensures Conserved(Next(p, e, closeOnLast, run))
  {
    var p' := Next(p, e, closeOnLast, run);
    CountsOf(p, e, closeOnLast, run);
    forall x
      ensures Everywhere(p', x) == UpTo(p'.numTasks, x)
    {
      StepConservesAt(p, e, closeOnLast, run, x);
    }
  }
}

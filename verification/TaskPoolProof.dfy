/** What holds in every run of a task pool. */
module TaskPoolProof {
  import opened Wrappers
  import opened TaskPool

  // ----- counting -----

  lemma {:induction false} AskedBound(qs: seq<Option<nat>>, x: Option<nat>)
    ensures Asked(qs, x) <= Asked(qs, None) && Asked(qs, None) + Nils(qs) == |qs|
  {
    if |qs| == 0 {
    } else {
      AskedBound(qs[1..], x);
    }
  }

  lemma {:induction false} InFlightBound(ws: seq<Worker>, x: Option<nat>)
    ensures InFlight(ws, x) <= InFlight(ws, None)
  {
    if |ws| == 0 {
    } else {
      InFlightBound(ws[1..], x);
    }
  }

  lemma {:induction false} AnsweredBound<V>(xs: seq<Answer<V>>, x: Option<nat>)
    ensures Answered(xs, x) <= Answered(xs, None) == |xs|
  {
    if |xs| == 0 {
    } else {
      AnsweredBound(xs[1..], x);
    }
  }

  lemma {:induction false} AmongBound(ids: seq<nat>, x: Option<nat>)
    ensures Among(ids, x) <= Among(ids, None) == |ids|
  {
    if |ids| == 0 {
    } else {
      AmongBound(ids[1..], x);
    }
  }

  /** The number of tasks is the number queued, in flight, answered but not read, read, and lost. */
  lemma Balance<V>(p: Pool<V>)
    requires Conserved(p)
    ensures p.numTasks == Asked(p.questions, None) + InFlight(p.workers, None) + |p.answers| + p.numResults + |p.lost|
  {
    assert Everywhere(p, None) == UpTo(p.numTasks, None);
    AnsweredBound(p.answers, None);
    AmongBound(p.seen, None);
    AmongBound(p.lost, None);
  }

  /** The answer in front is of a task whose answer was not read before. */
  lemma AnswerIsNew<V>(p: Pool<V>)
    requires Conserved(p) && |p.answers| > 0
    ensures p.answers[0].id !in p.seen && 1 <= p.answers[0].id <= p.numTasks
  {
    var id := p.answers[0].id;
    assert Everywhere(p, Some(id)) == UpTo(p.numTasks, Some(id));
    AmongAll(p.seen, id);
  }

  /** When the counts meet, every task's answer was read. */
  lemma AllSeen<V>(p: Pool<V>, id: nat)
    requires Conserved(p) && p.numResults == p.numTasks && 1 <= id <= p.numTasks
    ensures id in p.seen
  {
    Balance(p);
    var x := Some(id);
    assert Everywhere(p, x) == UpTo(p.numTasks, x);
    AskedBound(p.questions, x);
    InFlightBound(p.workers, x);
    AnsweredBound(p.answers, x);
    AmongBound(p.lost, x);
    AmongAll(p.seen, id);
  }

  // ----- the tables -----

  ghost predicate AnswersTrue<V>(xs: seq<Answer<V>>, run: nat -> Outcome<V>) {
    forall k :: 0 <= k < |xs| ==> xs[k].out == run(xs[k].id)
  }

  /** The tables hold only outcomes of tasks that were seen, and those of all that were not taken. */
  ghost predicate TablesTrue<V>(p: Pool<V>, run: nat -> Outcome<V>) {
    && (forall id :: id in p.successes ==> id in p.seen && run(id) == Success(p.successes[id]))
    && (forall id :: id in p.failures ==> id in p.seen && run(id) == Failure(p.failures[id], true))
    && (forall id :: id in p.seen && id !in p.taken ==>
          && (run(id).Success? ==> id in p.successes)
          && (run(id).Failure? && run(id).truthy ==> id in p.failures))
    && (forall id :: id in p.taken ==> id in p.seen && id !in p.successes && id !in p.failures)
  }

  lemma StoredKeepsTables<V>(p: Pool<V>, run: nat -> Outcome<V>)
    requires TablesTrue(p, run) && AnswersTrue(p.answers, run) && |p.answers| > 0 && p.answers[0].id !in p.seen
    ensures TablesTrue(Stored(p), run) && AnswersTrue(Stored(p).answers, run)
  {
    assert p.answers[0].out == run(p.answers[0].id);
  }

  lemma TakenKeepsTables<V>(p: Pool<V>, run: nat -> Outcome<V>, n: nat)
    requires TablesTrue(p, run)
    ensures TablesTrue(Taken(p, n), run)
  {
  }

  lemma SameTables<V>(p: Pool<V>, run: nat -> Outcome<V>, p': Pool<V>)
    requires TablesTrue(p, run) && p'.successes == p.successes && p'.failures == p.failures
    requires p'.seen == p.seen && p'.taken == p.taken
    ensures TablesTrue(p', run)
  {
  }

  lemma StepKeepsTables<V>(p: Pool<V>, e: Event, closeOnLast: bool, run: nat -> Outcome<V>)
    requires Conserved(p) && TablesTrue(p, run) && AnswersTrue(p.answers, run) && Enabled(p, e)
    ensures var p' := Next(p, e, closeOnLast, run); TablesTrue(p', run) && AnswersTrue(p'.answers, run)
  {
    var p' := Next(p, e, closeOnLast, run);
    match e
    case Poll =>
      AnswerIsNew(p);
      StoredKeepsTables(p, run);
    case Take => TakenKeepsTables(p, run, Wanted(p, p.owner.id));
    case Add(refused) => SameTables(p, run, p');
    case Reply(i) => SameTables(p, run, p');
    case _ => SameTables(p, run, p');
  }

  // ----- the owner -----

  /** The task that getResult is about, once its loop is over. */
  function About(o: Owner): Option<Option<nat>> {
    match o
    case Finishing(id) => Some(id)
    case Closing(id, left) => Some(id)
    case Joining(id) => Some(id)
    case Taking(id) => Some(id)
    case _ => None
  }

  ghost predicate Awaited<V>(p: Pool<V>) {
    && (p.owner.Polling? && p.owner.goal.ForGet? ==> p.owner.block)
    && (About(p.owner).Some? ==>
          match About(p.owner).value
          case None => p.numResults == p.numTasks
          case Some(id) => 1 <= id <= p.numTasks ==> id in p.seen)
  }

  lemma StepKeepsAwaited<V>(p: Pool<V>, e: Event, closeOnLast: bool, run: nat -> Outcome<V>)
    requires Conserved(p) && TablesTrue(p, run) && Awaited(p) && Enabled(p, e)
    ensures Awaited(Next(p, e, closeOnLast, run))
  {
    match e
    case StopPolling =>
      if p.owner.goal.ForGet? && p.owner.id.Some? && 1 <= p.owner.id.value <= p.numTasks && p.numResults >= p.numTasks {
        Balance(p);
        AllSeen(p, p.owner.id.value);
      } else if p.owner.goal.ForGet? && p.numResults >= p.numTasks {
        Balance(p);
      }
    case _ =>
  }

  // ----- shutting down -----

  /** How many nils the owner has written. */
  function NilsOut<V>(p: Pool<V>): int {
    match p.owner
    case Closing(id, left) => |p.workers| - left
    case Joining(id) => |p.workers|
    case _ => if p.joined then |p.workers| else 0
  }

  ghost predicate SomeLost<V>(p: Pool<V>) {
    forall i :: 0 <= i < |p.workers| && p.workers[i].Died? ==> |p.lost| > 0
  }

  /** Every nil is still queued or has ended one worker. */
  ghost predicate Retiring<V>(p: Pool<V>) {
    && Nils(p.questions) + EndedCount(p.workers) == NilsOut(p)
    && (p.owner.Closing? || p.owner.Joining? ==> p.numResults == p.numTasks && !p.joined)
    && SomeLost(p)
  }

  lemma WorkersKeepRetiring<V>(p: Pool<V>, e: Event, closeOnLast: bool, run: nat -> Outcome<V>)
    requires Retiring(p) && Enabled(p, e) && (e.Fetch? || e.Reply? || e.Die?)
    ensures Retiring(Next(p, e, closeOnLast, run))
  {
    WorkerChanges(p.workers, e.i, Next(p, e, closeOnLast, run).workers[e.i], None);
  }

  lemma OwnerKeepsRetiring<V>(p: Pool<V>, e: Event, closeOnLast: bool, run: nat -> Outcome<V>)
    requires Retiring(p) && Enabled(p, e) && !e.Fetch? && !e.Reply? && !e.Die?
    ensures Retiring(Next(p, e, closeOnLast, run))
  {
    match e
    case Add(refused) => AskedAppend(p.questions, Some(p.numTasks + 1), None);
    case WriteNil => AskedAppend(p.questions, None, None);
    case _ =>
  }

  // ----- every run -----

  ghost predicate Inv<V>(p: Pool<V>, run: nat -> Outcome<V>) {
    Conserved(p) && TablesTrue(p, run) && AnswersTrue(p.answers, run) && Awaited(p) && Retiring(p)
  }

  /** ps goes on by the steps es. */
  ghost predicate Path<V>(ps: seq<Pool<V>>, es: seq<Event>, closeOnLast: bool, run: nat -> Outcome<V>) {
    && |ps| == |es| + 1
    && forall k :: 0 <= k < |es| ==> Enabled(ps[k], es[k]) && ps[k + 1] == Next(ps[k], es[k], closeOnLast, run)
  }

  ghost predicate Run<V>(ps: seq<Pool<V>>, es: seq<Event>, poolSize: nat, closeOnLast: bool, run: nat -> Outcome<V>) {
    Path(ps, es, closeOnLast, run) && ps[0] == Start(poolSize)
  }

  lemma {:induction false} AllWaiting(ws: seq<Worker>, x: Option<nat>)
    requires forall i :: 0 <= i < |ws| ==> ws[i].Waiting?
    ensures InFlight(ws, x) == 0 && EndedCount(ws) == 0
  {
    if |ws| == 0 {
    } else {
      AllWaiting(ws[1..], x);
    }
  }

  lemma InvStarts<V>(poolSize: nat, run: nat -> Outcome<V>)
    ensures Inv(Start(poolSize), run)
  {
    var p: Pool<V> := Start(poolSize);
    forall x
      ensures Everywhere(p, x) == UpTo(p.numTasks, x)
    {
      AllWaiting(p.workers, x);
    }
    AllWaiting(p.workers, None);
  }

  lemma WorkersStay<V>(p: Pool<V>, e: Event, closeOnLast: bool, run: nat -> Outcome<V>)
    requires Enabled(p, e)
    ensures |Next(p, e, closeOnLast, run).workers| == |p.workers|
  {
  }

  lemma StepKeepsInv<V>(p: Pool<V>, e: Event, closeOnLast: bool, run: nat -> Outcome<V>)
    requires Inv(p, run) && Enabled(p, e)
    ensures Inv(Next(p, e, closeOnLast, run), run)
  {
    StepConserves(p, e, closeOnLast, run);
    StepKeepsTables(p, e, closeOnLast, run);
    StepKeepsAwaited(p, e, closeOnLast, run);
    if e.Fetch? || e.Reply? || e.Die? {
      WorkersKeepRetiring(p, e, closeOnLast, run);
    } else {
      OwnerKeepsRetiring(p, e, closeOnLast, run);
    }
  }

  lemma {:induction false} EveryRunKeepsInv<V>(
    ps: seq<Pool<V>>, es: seq<Event>, poolSize: nat, closeOnLast: bool, run: nat -> Outcome<V>, k: nat)
    requires Run(ps, es, poolSize, closeOnLast, run) && k < |ps|
    ensures Inv(ps[k], run) && |ps[k].workers| == poolSize
  {
    if k == 0 {
      InvStarts(poolSize, run);
    } else {
      EveryRunKeepsInv(ps, es, poolSize, closeOnLast, run, k - 1);
      var p, e := ps[k - 1], es[k - 1];
      StepKeepsInv(p, e, closeOnLast, run);
      WorkersStay(p, e, closeOnLast, run);
    }
  }

  /** At every moment of every run the books balance, and no task is in two places. */
  lemma TasksAreConserved<V>(
    ps: seq<Pool<V>>, es: seq<Event>, poolSize: nat, closeOnLast: bool, run: nat -> Outcome<V>, k: nat, id: nat)
    requires Run(ps, es, poolSize, closeOnLast, run) && k < |ps|
    ensures var p := ps[k];
            && p.numTasks == Asked(p.questions, None) + InFlight(p.workers, None) + |p.answers| + p.numResults +
              |p.lost|
            && Everywhere(p, Some(id)) == (if 1 <= id <= p.numTasks then 1 else 0)
            && (p.lost != [] ==> p.numResults < p.numTasks)
  {
    EveryRunKeepsInv(ps, es, poolSize, closeOnLast, run, k);
    Balance(ps[k]);
    assert Everywhere(ps[k], Some(id)) == UpTo(ps[k].numTasks, Some(id));
  }

  // ----- what the calls return -----

  /** getResult is about to return, and is about task x: the one it was asked for, or with no id the one
      whose number is the number of results. */
  ghost predicate Asks<V>(p: Pool<V>, x: nat) {
    p.owner == Taking(Some(x)) || (p.owner == Taking(None) && x == p.numResults)
  }

  /** Before step k a getResult about task x returned that came after its addTask. */
  ghost predicate TakenBefore<V>(ps: seq<Pool<V>>, es: seq<Event>, k: nat, x: nat)
    requires k <= |es| < |ps|
  {
    exists m :: 0 <= m < k && es[m] == Take && Asks(ps[m], x) && 1 <= x <= ps[m].numTasks
  }

  lemma SeenIffAdded<V>(p: Pool<V>, x: nat)
    requires Conserved(p) && Awaited(p) && Asks(p, x)
    ensures x in p.seen <==> 1 <= x <= p.numTasks
  {
    if 1 <= x <= p.numTasks {
      if p.owner.id.None? {
        AllSeen(p, x);
      }
    } else {
      assert Everywhere(p, Some(x)) == UpTo(p.numTasks, Some(x));
      AmongAll(p.seen, x);
    }
  }

  lemma TakenStep<V>(p: Pool<V>, e: Event, closeOnLast: bool, run: nat -> Outcome<V>, x: nat)
    requires Conserved(p) && Awaited(p) && Enabled(p, e)
    ensures x in Next(p, e, closeOnLast, run).taken <==>
            x in p.taken || (e == Take && Asks(p, x) && 1 <= x <= p.numTasks)
  {
    if e == Take && Asks(p, x) {
      SeenIffAdded(p, x);
    }
  }

  lemma TakenNext<V>(
    ps: seq<Pool<V>>, es: seq<Event>, poolSize: nat, closeOnLast: bool, run: nat -> Outcome<V>, k: nat, x: nat)
    requires Run(ps, es, poolSize, closeOnLast, run) && k < |es|
    ensures x in ps[k + 1].taken <==> x in ps[k].taken || (es[k] == Take && Asks(ps[k], x) && 1 <= x <= ps[k].numTasks)
  {
    EveryRunKeepsInv(ps, es, poolSize, closeOnLast, run, k);
    TakenStep(ps[k], es[k], closeOnLast, run, x);
  }

  lemma {:induction false} TakenIffBefore<V>(
    ps: seq<Pool<V>>, es: seq<Event>, poolSize: nat, closeOnLast: bool, run: nat -> Outcome<V>, k: nat, x: nat)
    requires Run(ps, es, poolSize, closeOnLast, run) && k < |ps|
    ensures x in ps[k].taken <==> TakenBefore(ps, es, k, x)
  {
    if k == 0 {
    } else {
      TakenIffBefore(ps, es, poolSize, closeOnLast, run, k - 1, x);
      TakenNext(ps, es, poolSize, closeOnLast, run, k - 1, x);
      TakenBeforeNext(ps, es, k - 1, x);
    }
  }

  lemma TakenBeforeNext<V>(ps: seq<Pool<V>>, es: seq<Event>, k: nat, x: nat)
    requires k < |es| < |ps|
    ensures TakenBefore(ps, es, k + 1, x) <==>
            TakenBefore(ps, es, k, x) || (es[k] == Take && Asks(ps[k], x) && 1 <= x <= ps[k].numTasks)
  {
  }

  /** What the first getResult of a task is to give.  A falsy error value is lost. */
  function Deserved<V>(out: Outcome<V>): Result<V> {
    match out
    case Success(v) => Returned(v)
    case Failure(v, true) => Raised(v)
    case Failure(_, false) => Nothing
  }

  /** Every getResult, in every run.  The one it is about is the task it was asked for, or with no id
      the last one added.  The first since that task's addTask gives the task's own outcome (nothing for
      a failure with a falsy error value); any other gives nothing.  Of the results kept, it removes that
      task's and no other. */
  lemma GetResultGivesOwn<V>(
    ps: seq<Pool<V>>, es: seq<Event>, poolSize: nat, closeOnLast: bool, run: nat -> Outcome<V>, k: nat, x: nat)
    requires Run(ps, es, poolSize, closeOnLast, run) && k < |es| && es[k] == Take && Asks(ps[k], x)
    ensures ps[k].owner == Taking(None) ==> x == ps[k].numTasks
    ensures ps[k + 1].told == ps[k].told + [Gave(
              if 1 <= x <= ps[k].numTasks && !TakenBefore(ps, es, k, x) then Deserved(run(x)) else Nothing)]
    ensures ps[k + 1].successes == ps[k].successes - {x} && ps[k + 1].failures == ps[k].failures - {x}
  {
    var p := ps[k];
    EveryRunKeepsInv(ps, es, poolSize, closeOnLast, run, k);
    SeenIffAdded(p, x);
    TakenIffBefore(ps, es, poolSize, closeOnLast, run, k, x);
    TakeGives(p, closeOnLast, run, x);
  }

  lemma TakeGives<V>(p: Pool<V>, closeOnLast: bool, run: nat -> Outcome<V>, x: nat)
    requires TablesTrue(p, run) && Asks(p, x)
    ensures var p' := Next(p, Take, closeOnLast, run);
            && p'.told == p.told + [Gave(if x in p.seen && x !in p.taken then Deserved(run(x)) else Nothing)]
            && p'.successes == p.successes - {x} && p'.failures == p.failures - {x}
  {
    if x in p.successes {
      assert run(x).Success? && x !in p.failures;
      assert p.failures - {x} == p.failures;
    }
  }

  /** The call the owner is in. */
  function CallOf(o: Owner): Event
    requires !o.Idle?
  {
    match o
    case Polling(id, block, goal) => Call(id, block, goal)
    case Adding => Call(None, false, ForAdd)
    case Finishing(id) => Call(id, true, ForGet)
    case Closing(id, _) => Call(id, true, ForGet)
    case Joining(id) => Call(id, true, ForGet)
    case Taking(id) => Call(id, true, ForGet)
  }

  /** Step m is the last call before step k. */
  ghost predicate LastCall(es: seq<Event>, m: nat, k: nat) {
    m < k <= |es| && es[m].Call? && forall j :: m < j < k ==> !es[j].Call?
  }

  lemma CallGoesOn<V>(p: Pool<V>, e: Event, closeOnLast: bool, run: nat -> Outcome<V>)
    requires Enabled(p, e) && !Next(p, e, closeOnLast, run).owner.Idle? && !e.Call?
    ensures !p.owner.Idle?
    ensures (var c := CallOf(p.owner); (c.goal.ForAdd? ==> c.id.None? && !c.block) && (c.goal.ForGet? ==> c.block)) ==>
            CallOf(Next(p, e, closeOnLast, run).owner) == CallOf(p.owner)
  {
  }

  /** Whatever the owner is doing, it is doing for its last call: the id a getResult is about is the one
      it was called with. */
  lemma {:induction false} OwnerServesItsCall<V>(
    ps: seq<Pool<V>>, es: seq<Event>, poolSize: nat, closeOnLast: bool, run: nat -> Outcome<V>, k: nat)
    returns (m: nat)
    requires Run(ps, es, poolSize, closeOnLast, run) && k < |ps| && !ps[k].owner.Idle?
    ensures LastCall(es, m, k) && es[m] == CallOf(ps[k].owner)
    decreases k
  {
    assert k > 0 && ps[k] == Next(ps[k - 1], es[k - 1], closeOnLast, run);
    if es[k - 1].Call? {
      m := k - 1;
    } else {
      CallGoesOn(ps[k - 1], es[k - 1], closeOnLast, run);
      m := OwnerServesItsCall(ps, es, poolSize, closeOnLast, run, k - 1);
      assert Enabled(ps[m], es[m]);
    }
  }

  /** Every isDone, in every run: it says yes exactly if no answer is missing, or the task it was asked
      for was answered, its result was not handed out, and is not a failure with a falsy error value. */
  lemma IsDoneTells<V>(
    ps: seq<Pool<V>>, es: seq<Event>, poolSize: nat, closeOnLast: bool, run: nat -> Outcome<V>, k: nat)
    requires Run(ps, es, poolSize, closeOnLast, run) && k < |es| && es[k] == StopPolling
    requires ps[k].owner.goal == ForDone
    ensures ps[k + 1].told == ps[k].told + [IsDone(
              || (forall y :: 1 <= y <= ps[k].numTasks ==> y in ps[k].seen)
              || match ps[k].owner.id
                 case None => false
                 case Some(x) => x in ps[k].seen && !TakenBefore(ps, es, k, x) && Deserved(run(x)) != Nothing)]
  {
    var p := ps[k];
    EveryRunKeepsInv(ps, es, poolSize, closeOnLast, run, k);
    AllSeenIff(p);
    if p.owner.id.Some? {
      TakenIffBefore(ps, es, poolSize, closeOnLast, run, k, p.owner.id.value);
    }
  }

  lemma AllSeenIff<V>(p: Pool<V>)
    requires Conserved(p)
    ensures p.numResults == p.numTasks <==> forall y :: 1 <= y <= p.numTasks ==> y in p.seen
  {
    Balance(p);
    if p.numResults == p.numTasks {
      forall y: nat | 1 <= y <= p.numTasks
        ensures y in p.seen
      {
        AllSeen(p, y);
      }
    } else if forall y :: 1 <= y <= p.numTasks ==> y in p.seen {
      ManySeen(p.seen, p.numTasks);
    }
  }

  lemma {:induction false} ManySeen(ids: seq<nat>, n: nat)
    requires forall y :: 1 <= y <= n ==> y in ids
    ensures |ids| >= n
  {
    if n == 0 {
    } else {
      assert n in ids;
      var i :| 0 <= i < |ids| && ids[i] == n;
      var rest := ids[..i] + ids[i + 1..];
      forall y: nat | 1 <= y <= n - 1
        ensures y in rest
      {
        assert y in ids;
        var j :| 0 <= j < |ids| && ids[j] == y;
        assert rest[if j < i then j else j - 1] == y;
      }
      ManySeen(rest, n - 1);
    }
  }

  /** Every addTask whose task could be written, in every run: the number it returns is that of no task
      before, and the task is queued under it. */
  lemma AddTaskNumbers<V>(
    ps: seq<Pool<V>>, es: seq<Event>, poolSize: nat, closeOnLast: bool, run: nat -> Outcome<V>, k: nat)
    returns (n: nat)
    requires Run(ps, es, poolSize, closeOnLast, run) && k < |es| && es[k] == Add(false)
    ensures ps[k + 1].told == ps[k].told + [TaskId(n)]
    ensures Everywhere(ps[k], Some(n)) == 0
    ensures Everywhere(ps[k + 1], Some(n)) == 1 == Asked(ps[k + 1].questions, Some(n))
  {
    var p := ps[k];
    n := p.numTasks + 1;
    EveryRunKeepsInv(ps, es, poolSize, closeOnLast, run, k);
    EveryRunKeepsInv(ps, es, poolSize, closeOnLast, run, k + 1);
    assert Everywhere(p, Some(n)) == UpTo(p.numTasks, Some(n));
    assert Everywhere(ps[k + 1], Some(n)) == UpTo(n, Some(n));
    AskedAppend(p.questions, Some(n), Some(n));
  }

  lemma {:induction false} EndedAll(ws: seq<Worker>)
    ensures EndedCount(ws) <= |ws|
    ensures EndedCount(ws) == |ws| <==> forall i :: 0 <= i < |ws| ==> ws[i].Ended?
  {
    if |ws| == 0 {
    } else {
      EndedAll(ws[1..]);
      assert forall i :: 1 <= i < |ws| ==> ws[1..][i - 1] == ws[i];
    }
  }

  /** When the owner has joined its workers, each of them has read one of the nils, one for each,
      and nothing is left in either queue. */
  lemma ShutdownIsClean<V>(
    ps: seq<Pool<V>>, es: seq<Event>, poolSize: nat, closeOnLast: bool, run: nat -> Outcome<V>, k: nat)
    requires Run(ps, es, poolSize, closeOnLast, run) && k < |es| && es[k] == Join
    ensures |ps[k].workers| == poolSize && forall i :: 0 <= i < poolSize ==> ps[k].workers[i].Ended?
    ensures ps[k].questions == [] && ps[k].answers == [] && NilsOut(ps[k]) == poolSize
  {
    var p := ps[k];
    EveryRunKeepsInv(ps, es, poolSize, closeOnLast, run, k);
    Balance(p);
    EndedAll(p.workers);
    AskedBound(p.questions, None);
  }

  // ----- progress -----

  lemma {:induction false} FindRunning(ws: seq<Worker>) returns (i: nat)
    requires InFlight(ws, None) > 0
    ensures i < |ws| && ws[i].Running?
  {
    if ws[0].Running? {
      i := 0;
    } else {
      i := FindRunning(ws[1..]);
      i := i + 1;
    }
  }

  /** The owner waits for a worker: in the blocking loop of isDone, or to join them. */
  ghost predicate Waits<V>(p: Pool<V>) {
    || (p.owner.Polling? && p.owner.block && Unfinished(p, p.owner.id) && p.answers == [])
    || (p.owner.Joining? && !Gone(p.workers))
  }

  /** The owner never waits in vain: unless a task was lost or the pool was shut down before,
      some worker can go on, and every step of a worker brings the waiting nearer to its end. */
  lemma OwnerIsServed<V>(
    ps: seq<Pool<V>>, es: seq<Event>, poolSize: nat, closeOnLast: bool, run: nat -> Outcome<V>, k: nat)
    returns (e: Event)
    requires Run(ps, es, poolSize, closeOnLast, run) && k < |ps| && poolSize > 0
    requires Waits(ps[k]) && ps[k].lost == [] && !ps[k].joined
    ensures (e.Fetch? || e.Reply?) && Enabled(ps[k], e)
    ensures forall f :: Enabled(ps[k], f) && (f.Fetch? || f.Reply? || f.Die?) ==>
            Work(Next(ps[k], f, closeOnLast, run)) < Work(ps[k])
  {
    var p := ps[k];
    EveryRunKeepsInv(ps, es, poolSize, closeOnLast, run, k);
    Balance(p);
    EndedAll(p.workers);
    AskedBound(p.questions, None);
    if InFlight(p.workers, None) > 0 {
      var i := FindRunning(p.workers);
      e := Reply(i);
    } else {
      var i := FindWaiting(p);
      e := Fetch(i);
    }
    forall f | Enabled(p, f) && (f.Fetch? || f.Reply? || f.Die?)
      ensures Work(Next(p, f, closeOnLast, run)) < Work(p)
    {
      WorkShrinks(p, f, closeOnLast, run);
    }
  }

  lemma FindWaiting<V>(p: Pool<V>) returns (i: nat)
    requires Waits(p) && Retiring(p) && |p.workers| > 0 && p.lost == [] && !p.joined && InFlight(p.workers, None) == 0
    ensures i < |p.workers| && p.workers[i].Waiting?
  {
    EndedAll(p.workers);
    NoneRunning(p.workers);
    if p.owner.Joining? {
      i :| 0 <= i < |p.workers| && !p.workers[i].Ended? && !p.workers[i].Died?;
    } else {
      i := 0;
      NoneEnded(p.workers);
    }
  }

  lemma {:induction false} NoneRunning(ws: seq<Worker>)
    requires InFlight(ws, None) == 0
    ensures forall i :: 0 <= i < |ws| ==> !ws[i].Running?
  {
    if |ws| == 0 {
    } else {
      NoneRunning(ws[1..]);
      assert forall i :: 1 <= i < |ws| ==> ws[1..][i - 1] == ws[i];
    }
  }

  lemma {:induction false} NoneEnded(ws: seq<Worker>)
    requires EndedCount(ws) == 0
    ensures forall i :: 0 <= i < |ws| ==> !ws[i].Ended?
  {
    if |ws| == 0 {
    } else {
      NoneEnded(ws[1..]);
      assert forall i :: 1 <= i < |ws| ==> ws[1..][i - 1] == ws[i];
    }
  }

  /** What is left for the workers to do. */
  function Work<V>(p: Pool<V>): nat {
    2 * |p.questions| + InFlight(p.workers, None)
  }

  lemma WorkShrinks<V>(p: Pool<V>, e: Event, closeOnLast: bool, run: nat -> Outcome<V>)
    requires Enabled(p, e) && (e.Fetch? || e.Reply? || e.Die?)
    ensures Work(Next(p, e, closeOnLast, run)) < Work(p)
  {
    WorkerChanges(p.workers, e.i, Next(p, e, closeOnLast, run).workers[e.i], None);
  }

  // ----- where it ends -----

  /** Once joined, the workers are gone for good. */
  lemma {:induction false} JoinedAreEnded<V>(
    ps: seq<Pool<V>>, es: seq<Event>, poolSize: nat, closeOnLast: bool, run: nat -> Outcome<V>, k: nat)
    requires Run(ps, es, poolSize, closeOnLast, run) && k < |ps| && ps[k].joined
    ensures |ps[k].workers| == poolSize && forall i :: 0 <= i < poolSize ==> ps[k].workers[i].Ended?
    decreases k
  {
    assert k > 0;
    JoinedBefore(ps[k - 1], es[k - 1], closeOnLast, run);
    if ps[k - 1].joined {
      JoinedAreEnded(ps, es, poolSize, closeOnLast, run, k - 1);
    } else {
      ShutdownIsClean(ps, es, poolSize, closeOnLast, run, k - 1);
    }
  }

  lemma JoinedBefore<V>(p: Pool<V>, e: Event, closeOnLast: bool, run: nat -> Outcome<V>)
    requires Enabled(p, e) && Next(p, e, closeOnLast, run).joined
    ensures p.joined || e == Join
    ensures e == Join || Gone(p.workers) ==> Next(p, e, closeOnLast, run).workers == p.workers
  {
  }

  /** Nobody works, and there is nothing to do or nobody to do it. */
  ghost predicate AllIdle<V>(p: Pool<V>) {
    (forall i :: 0 <= i < |p.workers| ==> !p.workers[i].Running?) && (p.questions == [] || Gone(p.workers))
  }

  /** A waiting owner waits in vain exactly if nobody can ever serve it: the workers were shut
      down, there are none, or a task was lost and nothing else is left to be done. */
  lemma WaitsInVainIff<V>(
    ps: seq<Pool<V>>, es: seq<Event>, poolSize: nat, closeOnLast: bool, run: nat -> Outcome<V>, k: nat)
    requires Run(ps, es, poolSize, closeOnLast, run) && k < |ps| && Waits(ps[k])
    ensures (forall e :: !Enabled(ps[k], e)) <==>
            ps[k].joined || poolSize == 0 || (ps[k].lost != [] && AllIdle(ps[k]))
  {
    var p := ps[k];
    EveryRunKeepsInv(ps, es, poolSize, closeOnLast, run, k);
    StuckIffIdle(p);
    if p.joined {
      JoinedAreEnded(ps, es, poolSize, closeOnLast, run, k);
    } else if poolSize > 0 && p.lost == [] {
      var e := OwnerIsServed(ps, es, poolSize, closeOnLast, run, k);
    }
  }

  lemma StuckIffIdle<V>(p: Pool<V>)
    requires Waits(p)
    ensures (forall e :: !Enabled(p, e)) <==> AllIdle(p)
  {
    if i :| 0 <= i < |p.workers| && p.workers[i].Running? {
      assert Enabled(p, Reply(i));
    }
    if i :| 0 <= i < |p.workers| && p.workers[i].Waiting? && |p.questions| > 0 {
      assert Enabled(p, Fetch(i));
    }
    if AllIdle(p) {
      forall e
        ensures !Enabled(p, e)
      {
      }
    }
  }

  // ----- waiting in a pool that lost a task -----

  /** What is lost or seen stays so, and of what was seen nothing new is stored. */
  lemma HistoryGrows<V>(p: Pool<V>, e: Event, closeOnLast: bool, run: nat -> Outcome<V>, x: nat)
    requires Conserved(p) && Enabled(p, e)
    ensures var p' := Next(p, e, closeOnLast, run);
            && (p.lost != [] ==> p'.lost != []) && (x in p.lost ==> x in p'.lost) && (x in p.seen ==> x in p'.seen)
            && (x in p.seen && !HasResult(p, Some(x)) ==> !HasResult(p', Some(x)))
  {
    if e.Poll? {
      AnswerIsNew(p);
    }
  }

  lemma LostIsNotSeen<V>(p: Pool<V>, x: nat)
    requires Conserved(p) && x in p.lost
    ensures x !in p.seen
  {
    assert Everywhere(p, Some(x)) == UpTo(p.numTasks, Some(x));
    AmongAll(p.lost, x);
    AmongAll(p.seen, x);
  }

  /** Waits that depend on the lost tasks: for all tasks, for one that was lost, or for one whose
      answer was read and has no result (any more), which is waiting for all. */
  ghost predicate Doomed<V>(p: Pool<V>, id: Option<nat>) {
    p.lost != [] && (id.Some? ==> id.value in p.lost || (id.value in p.seen && !HasResult(p, id)))
  }

  /** Such a wait never ends: however things go on from p, the owner stays in its loop. */
  lemma {:induction false} DoomedForEver<V>(
    p: Pool<V>, ps: seq<Pool<V>>, es: seq<Event>, closeOnLast: bool, run: nat -> Outcome<V>, j: nat, id: Option<nat>)
    requires Inv(p, run) && Doomed(p, id) && p.owner.Polling? && p.owner.id == id && p.owner.block
    requires Path(ps, es, closeOnLast, run) && ps[0] == p && j < |ps|
    ensures Inv(ps[j], run) && Doomed(ps[j], id) && ps[j].owner == p.owner && !Enabled(ps[j], StopPolling)
  {
    if j == 0 {
    } else {
      DoomedForEver(p, ps, es, closeOnLast, run, j - 1, id);
      var before, e := ps[j - 1], es[j - 1];
      StepKeepsInv(before, e, closeOnLast, run);
      DoomedStays(before, e, closeOnLast, run, id);
      OwnerStays(before, e, closeOnLast, run);
    }
    DoomedWaits(ps[j], run, id);
  }

  lemma OwnerStays<V>(p: Pool<V>, e: Event, closeOnLast: bool, run: nat -> Outcome<V>)
    requires Enabled(p, e) && p.owner.Polling? && e != StopPolling
    ensures Next(p, e, closeOnLast, run).owner == p.owner
  {
  }

  lemma DoomedStays<V>(p: Pool<V>, e: Event, closeOnLast: bool, run: nat -> Outcome<V>, id: Option<nat>)
    requires Conserved(p) && Enabled(p, e) && Doomed(p, id)
    ensures Doomed(Next(p, e, closeOnLast, run), id)
  {
    HistoryGrows(p, e, closeOnLast, run, if id.Some? then id.value else 0);
  }

  lemma DoomedWaits<V>(p: Pool<V>, run: nat -> Outcome<V>, id: Option<nat>)
    requires Conserved(p) && TablesTrue(p, run) && Doomed(p, id)
    ensures Unfinished(p, id)
    ensures p.owner.Polling? && p.owner.id == id && p.owner.block ==> !Enabled(p, StopPolling)
  {
    Balance(p);
    if id.Some? && id.value in p.lost {
      LostIsNotSeen(p, id.value);
    }
  }

  /** Task x was added, and neither lost nor read: it is queued, in flight or answered. */
  ghost predicate Coming<V>(p: Pool<V>, x: nat) {
    1 <= x <= p.numTasks && x !in p.lost && x !in p.seen
  }

  /** Whatever else was lost: while the owner waits for such a task, somebody can go on exactly if
      a worker is left. */
  lemma ComingIsServedIff<V>(
    ps: seq<Pool<V>>, es: seq<Event>, poolSize: nat, closeOnLast: bool, run: nat -> Outcome<V>, k: nat, x: nat)
    requires Run(ps, es, poolSize, closeOnLast, run) && k < |ps|
    requires Waits(ps[k]) && ps[k].owner.Polling? && ps[k].owner.id == Some(x) && Coming(ps[k], x)
    ensures (exists e :: Enabled(ps[k], e)) <==> !Gone(ps[k].workers)
  {
    var p := ps[k];
    EveryRunKeepsInv(ps, es, poolSize, closeOnLast, run, k);
    StuckIffIdle(p);
    QueuedOrInFlight(p, x);
    if AllIdle(p) {
      AllIdleNoneInFlight(p.workers);
    }
  }

  /** Nor does it matter for the end of the wait: the steps of the workers that are left, and the
      owner's reading of their answers, lead to it. */
  lemma {:induction false} ServableCanEnd<V>(p: Pool<V>, closeOnLast: bool, run: nat -> Outcome<V>, id: Option<nat>)
    returns (ps: seq<Pool<V>>, es: seq<Event>)
    requires Inv(p, run) && Servable(p, run, id)
    ensures Path(ps, es, closeOnLast, run) && ps[0] == p && Enabled(ps[|es|], StopPolling)
    ensures forall i :: 0 <= i < |es| ==> es[i].Fetch? || es[i].Reply? || es[i].Poll?
    decreases Load(p)
  {
    if !Unfinished(p, id) {
      ps, es := [p], [];
    } else {
      var e := NextServes(p, run, id);
      var p' := Next(p, e, closeOnLast, run);
      StepKeepsInv(p, e, closeOnLast, run);
      ServedOn(p, e, closeOnLast, run, id);
      var qs, fs := ServableCanEnd(p', closeOnLast, run, id);
      PathConcat([p, p'], [e], qs, fs, closeOnLast, run);
      ps, es := [p, p'] + qs[1..], [e] + fs;
    }
  }

  /** A blocking wait with a worker left: for all tasks, none of which was lost, or for one that is
      coming, and will not fail with nil or false, or has a result. */
  ghost predicate Servable<V>(p: Pool<V>, run: nat -> Outcome<V>, id: Option<nat>) {
    && p.owner.Polling? && p.owner.id == id && p.owner.block && !p.joined && !Gone(p.workers)
    && match id
       case None => p.lost == []
       case Some(x) => (Coming(p, x) || HasResult(p, id)) && (run(x).Failure? ==> run(x).truthy)
  }

  /** What is left to be run, answered and read. */
  function Load<V>(p: Pool<V>): nat {
    3 * |p.questions| + 2 * InFlight(p.workers, None) + |p.answers|
  }

  lemma NextServes<V>(p: Pool<V>, run: nat -> Outcome<V>, id: Option<nat>) returns (e: Event)
    requires Inv(p, run) && Servable(p, run, id) && Unfinished(p, id)
    ensures Enabled(p, e) && (e.Fetch? || e.Reply? || e.Poll?)
  {
    if |p.answers| > 0 {
      e := Poll;
    } else if i :| 0 <= i < |p.workers| && p.workers[i].Running? {
      e := Reply(i);
    } else {
      AllIdleNoneInFlight(p.workers);
      if id.Some? {
        QueuedOrInFlight(p, id.value);
      } else {
        Balance(p);
      }
      var i :| 0 <= i < |p.workers| && !p.workers[i].Ended? && !p.workers[i].Died?;
      e := Fetch(i);
    }
  }

  lemma QueuedOrInFlight<V>(p: Pool<V>, x: nat)
    requires Conserved(p) && Coming(p, x) && p.answers == []
    ensures p.questions != [] || InFlight(p.workers, None) > 0
  {
    assert Everywhere(p, Some(x)) == UpTo(p.numTasks, Some(x));
    AmongAll(p.lost, x);
    AmongAll(p.seen, x);
    AskedBound(p.questions, Some(x));
    InFlightBound(p.workers, Some(x));
  }

  lemma ServedOn<V>(p: Pool<V>, e: Event, closeOnLast: bool, run: nat -> Outcome<V>, id: Option<nat>)
    requires Inv(p, run) && Servable(p, run, id) && Unfinished(p, id)
    requires Enabled(p, e) && (e.Fetch? || e.Reply? || e.Poll?)
    ensures Servable(Next(p, e, closeOnLast, run), run, id) && Load(Next(p, e, closeOnLast, run)) < Load(p)
  {
    var p' := Next(p, e, closeOnLast, run);
    if e.Poll? {
      assert p.answers[0].out == run(p.answers[0].id);
    } else {
      AskedBound(p.questions, None);
      WorkerChanges(p.workers, e.i, p'.workers[e.i], None);
      assert !p'.workers[e.i].Ended? && !p'.workers[e.i].Died?;
    }
  }

  /** The owner's wait in p can end. */
  ghost predicate CanStop<V(!new)>(p: Pool<V>, closeOnLast: bool, run: nat -> Outcome<V>) {
    exists ps, es :: Path(ps, es, closeOnLast, run) && ps[0] == p && Enabled(ps[|es|], StopPolling)
  }

  /** The first getResult of a task, while a worker is left: its wait can end exactly if the task
      was not lost, whatever became of the others. */
  lemma FirstWaitEndsIff<V(!new)>(
    ps: seq<Pool<V>>, es: seq<Event>, poolSize: nat, closeOnLast: bool, run: nat -> Outcome<V>, k: nat, x: nat)
    requires Run(ps, es, poolSize, closeOnLast, run) && k < |ps|
    requires 1 <= x <= ps[k].numTasks && !TakenBefore(ps, es, k, x)
    requires ps[k].owner.Polling? && ps[k].owner.id == Some(x) && ps[k].owner.block && !Gone(ps[k].workers)
    requires run(x).Failure? ==> run(x).truthy
    ensures CanStop(ps[k], closeOnLast, run) <==> x !in ps[k].lost
  {
    var p := ps[k];
    EveryRunKeepsInv(ps, es, poolSize, closeOnLast, run, k);
    TakenIffBefore(ps, es, poolSize, closeOnLast, run, k, x);
    if p.joined {
      JoinedAreEnded(ps, es, poolSize, closeOnLast, run, k);
    }
    if x !in p.lost {
      var qs, fs := ServableCanEnd(p, closeOnLast, run, Some(x));
    } else {
      forall qs, fs | Path(qs, fs, closeOnLast, run) && qs[0] == p
        ensures !Enabled(qs[|fs|], StopPolling)
      {
        DoomedForEver(p, qs, fs, closeOnLast, run, |fs|, Some(x));
      }
    }
  }

  /** A wait for all tasks, while a worker is left: it can end exactly if no task was lost. */
  lemma WaitForAllEndsIff<V(!new)>(
    ps: seq<Pool<V>>, es: seq<Event>, poolSize: nat, closeOnLast: bool, run: nat -> Outcome<V>, k: nat)
    requires Run(ps, es, poolSize, closeOnLast, run) && k < |ps| && !Gone(ps[k].workers)
    requires ps[k].owner.Polling? && ps[k].owner.id == None && ps[k].owner.block
    ensures CanStop(ps[k], closeOnLast, run) <==> ps[k].lost == []
  {
    var p := ps[k];
    EveryRunKeepsInv(ps, es, poolSize, closeOnLast, run, k);
    if p.joined {
      JoinedAreEnded(ps, es, poolSize, closeOnLast, run, k);
    }
    if p.lost == [] {
      var qs, fs := ServableCanEnd(p, closeOnLast, run, None);
    } else {
      forall qs, fs | Path(qs, fs, closeOnLast, run) && qs[0] == p
        ensures !Enabled(qs[|fs|], StopPolling)
      {
        DoomedForEver(p, qs, fs, closeOnLast, run, |fs|, None);
      }
    }
  }

  lemma {:induction false} AllIdleNoneInFlight(ws: seq<Worker>)
    requires forall i :: 0 <= i < |ws| ==> !ws[i].Running?
    ensures InFlight(ws, None) == 0
  {
    if |ws| == 0 {
    } else {
      AllIdleNoneInFlight(ws[1..]);
    }
  }

  // ----- runs that go wrong -----

  lemma PathConcat<V>(
    ps: seq<Pool<V>>, es: seq<Event>, qs: seq<Pool<V>>, fs: seq<Event>, closeOnLast: bool, run: nat -> Outcome<V>)
    requires Path(ps, es, closeOnLast, run) && Path(qs, fs, closeOnLast, run) && ps[|es|] == qs[0]
    ensures Path(ps + qs[1..], es + fs, closeOnLast, run) && (ps + qs[1..])[|es| + |fs|] == qs[|fs|]
            && (ps + qs[1..])[0] == ps[0]
  {
    var all := ps + qs[1..];
    assert forall k :: |es| <= k < |all| ==> all[k] == qs[k - |es|];
  }

  /** A pool of one worker between two calls. */
  ghost function Between<V>(
    numTasks: nat, numResults: nat, questions: seq<Option<nat>>, answers: seq<Answer<V>>, w: Worker, joined: bool,
      seen: seq<nat>, told: seq<Told<V>>): Pool<V> {
    Pool(numTasks, numResults, map[], map[], questions, answers, [w], Idle, joined, seen, {}, [], told)
  }

  /** addTask, written by the owner. */
  lemma AddsTask<V>(p: Pool<V>, closeOnLast: bool, run: nat -> Outcome<V>) returns (ps: seq<Pool<V>>, es: seq<Event>)
    requires p.owner == Idle && p.numResults == p.numTasks
    ensures Path(ps, es, closeOnLast, run) && |es| == 3 && ps[0] == p
    ensures var n := p.numTasks + 1;
            ps[3] == p.(numTasks := n, questions := p.questions + [Some(n)], told := p.told + [TaskId(n)])
  {
    es := [Call(None, false, ForAdd), StopPolling, Add(false)];
    var p1 := p.(owner := Polling(None, false, ForAdd));
    var p2 := p.(owner := Adding);
    ps := [p, p1, p2, Added(p2, false)];
  }

  /** The worker runs task 1. */
  lemma RunsTask<V>(closeOnLast: bool, run: nat -> Outcome<V>) returns (ps: seq<Pool<V>>, es: seq<Event>)
    ensures Path(ps, es, closeOnLast, run) && |es| == 2
    ensures ps[0] == Between(1, 0, [Some(1)], [], Waiting, false, [], [TaskId(1)])
    ensures ps[2] == Between(1, 0, [], [Answer(1, run(1))], Waiting, false, [], [TaskId(1)])
  {
    var p := Between(1, 0, [Some(1)], [], Waiting, false, [], [TaskId(1)]);
    es := [Fetch(0), Reply(0)];
    ps := [p, Between(1, 0, [], [], Running(1), false, [], [TaskId(1)]),
      Between(1, 0, [], [Answer(1, run(1))], Waiting, false, [], [TaskId(1)])];
    assert [Waiting][0 := Running(1)] == [Running(1)] && [Running(1)][0 := Waiting] == [Waiting];
  }

  /** getResult of task 1, up to the decision whether to shut down. */
  lemma PollsResult<V>(closeOnLast: bool, run: nat -> Outcome<V>) returns (ps: seq<Pool<V>>, es: seq<Event>, p: Pool<V>)
    ensures Path(ps, es, closeOnLast, run) && |es| == 3
    ensures ps[0] == Between(1, 0, [], [Answer(1, run(1))], Waiting, false, [], [TaskId(1)])
    ensures p == ps[3] == Stored(ps[0]).(owner := Finishing(Some(1)))
  {
    var p0 := Between(1, 0, [], [Answer(1, run(1))], Waiting, false, [], [TaskId(1)]);
    var p1 := p0.(owner := Polling(Some(1), true, ForGet));
    var p2 := Stored(p1);
    p := p2.(owner := Finishing(Some(1)));
    es := [Call(Some(1), true, ForGet), Poll, StopPolling];
    ps := [p0, p1, p2, p];
  }

  /** The last result shuts the pool down. */
  lemma ShutsDown<V>(p: Pool<V>, run: nat -> Outcome<V>) returns (ps: seq<Pool<V>>, es: seq<Event>)
    requires p.owner == Finishing(Some(1)) && p.workers == [Waiting] && p.questions == [] && !p.joined
             && p.numResults == p.numTasks
    ensures Path(ps, es, true, run) && |es| == 5 && ps[0] == p
    ensures ps[5] == p.(owner := Taking(Some(1)), workers := [Ended], joined := true)
  {
    var p3 := p.(owner := Joining(Some(1)), questions := [None]);
    var p4 := p3.(questions := [], workers := [Ended]);
    ps, es := WritesNil(p, run);
    assert [Waiting][0 := Ended] == [Ended] && p3.questions[1..] == [];
    var qs, fs := [p3, p4, p4.(owner := Taking(Some(1)), joined := true)], [Fetch(0), Join];
    PathConcat(ps, es, qs, fs, true, run);
    ps, es := ps + qs[1..], es + fs;
  }

  lemma WritesNil<V>(p: Pool<V>, run: nat -> Outcome<V>) returns (ps: seq<Pool<V>>, es: seq<Event>)
    requires p.owner == Finishing(Some(1)) && |p.workers| == 1 && p.questions == [] && !p.joined
             && p.numResults == p.numTasks
    ensures Path(ps, es, true, run) && |es| == 3 && ps[0] == p
    ensures ps[3] == p.(owner := Joining(Some(1)), questions := [None])
  {
    es := [Finish, WriteNil, StopClosing];
    var p1 := p.(owner := Closing(Some(1), 1));
    var p2 := p.(owner := Closing(Some(1), 0), questions := [None]);
    ps := [p, p1, p2, p2.(owner := Joining(Some(1)))];
    assert p.questions + [None] == p2.questions;
  }

  /** A task that could not be written is counted all the same: waiting for it never ends. */
  lemma RefusedTaskHangs<V>(run: nat -> Outcome<V>) returns (ps: seq<Pool<V>>, es: seq<Event>)
    ensures Run(ps, es, 1, false, run) && |es| == 4 && Waits(ps[4])
    ensures forall e :: !Enabled(ps[4], e)
  {
    var p0: Pool<V> := Start(1);
    es := [Call(None, false, ForAdd), StopPolling, Add(true), Call(None, true, ForGet)];
    var p1 := Next(p0, es[0], false, run);
    var p2 := Next(p1, es[1], false, run);
    var p3 := Next(p2, es[2], false, run);
    var p4 := Next(p3, es[3], false, run);
    ps := [p0, p1, p2, p3, p4];
  }

  /** One task from addTask to the getResult of its answer. */
  lemma FirstTask<V>(closeOnLast: bool, run: nat -> Outcome<V>) returns (ps: seq<Pool<V>>, es: seq<Event>, p: Pool<V>)
    ensures Run(ps, es, 1, closeOnLast, run) && |es| == 8
    ensures var answered := Between(1, 0, [], [Answer(1, run(1))], Waiting, false, [], [TaskId(1)]);
            ps[8] == p == Stored(answered).(owner := Finishing(Some(1)))
  {
    var p0: Pool<V> := Start(1);
    assert p0 == Between(0, 0, [], [], Waiting, false, [], []);
    ps, es := AddsTask(p0, closeOnLast, run);
    assert [] + [Some(1)] == [Some(1)] && p0.told + [TaskId(1)] == [TaskId(1)];
    var qs, fs := RunsTask(closeOnLast, run);
    PathConcat(ps, es, qs, fs, closeOnLast, run);
    ps, es := ps + qs[1..], es + fs;
    qs, fs, p := PollsResult(closeOnLast, run);
    PathConcat(ps, es, qs, fs, closeOnLast, run);
    ps, es := ps + qs[1..], es + fs;
  }

  /** The last result shuts the pool down; a task that is added then has nobody to run it, and
      waiting for it never ends. */
  lemma LateTaskHangs<V>(run: nat -> Outcome<V>) returns (ps: seq<Pool<V>>, es: seq<Event>)
    ensures Run(ps, es, 1, true, run) && |es| == 18 && Waits(ps[18]) && ps[18].lost == [] && ps[18].joined
    ensures forall e :: !Enabled(ps[18], e)
  {
    var p;
    ps, es, p := FirstTask(true, run);
    var qs, fs := ShutsDown(p, run);
    PathConcat(ps, es, qs, fs, true, run);
    ps, es := ps + qs[1..], es + fs;
    var last := qs[5];
    var done := Taken(last, 1);
    PathConcat(ps, es, [last, done], [Take], true, run);
    ps, es := ps + [last, done][1..], es + [Take];
    qs, fs := AddsTask(done, true, run);
    PathConcat(ps, es, qs, fs, true, run);
    ps, es := ps + qs[1..], es + fs;
    var late := qs[3];
    var stuck := late.(owner := Polling(None, true, ForGet));
    PathConcat(ps, es, [late, stuck], [Call(None, true, ForGet)], true, run);
    ps, es := ps + [late, stuck][1..], es + [Call(None, true, ForGet)];
  }

  /** A task that fails with nil or false: its getResult gives nothing. */
  lemma FalsyFailureIsLost<V>(run: nat -> Outcome<V>) returns (ps: seq<Pool<V>>, es: seq<Event>)
    requires run(1).Failure? && !run(1).truthy
    ensures Run(ps, es, 1, false, run) && |es| == 10 && es[9] == Take
    ensures ps[9].owner == Taking(Some(1)) && !TakenBefore(ps, es, 9, 1)
    ensures ps[10].told == ps[9].told + [Gave(Nothing)]
  {
    var p;
    ps, es, p := FirstTask(false, run);
    var taking := p.(owner := Taking(Some(1)));
    PathConcat(ps, es, [p, taking, Taken(taking, 1)], [Finish, Take], false, run);
    ps, es := ps + [p, taking, Taken(taking, 1)][1..], es + [Finish, Take];
    TakenIffBefore(ps, es, 1, false, run, 9, 1);
    GetResultGivesOwn(ps, es, 1, false, run, 9, 1);
  }
}

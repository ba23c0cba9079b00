/** Networks of sequential processes joined by FIFO links.

    Every process is deterministic: its local state fixes whether it halts, sends on one of
    its outgoing links or receives from one of its incoming ones.  A receive waits until its
    link holds a message; nothing else ever waits.  The scheduler is arbitrary.

    The main result is `EveryRunReachesTheSameEnd`: if one schedule of such a network ends
    with no process able to move, then every schedule does, after the same number of
    steps and in the same configuration.  The protocols of lua/Tree.lua are such networks.
 */
module Network {
  import opened Wrappers
  import opened Sequences

  datatype Link = Link(from: nat, to: nat)

  datatype Action<+M> = Halt | Send(to: nat, msg: M) | Recv(from: nat)

  /** `act` says what a process does next, `next` its local state afterwards; the message is
      present exactly when the action was a receive. */
  datatype System<!L, !M> = System(act: (nat, L) -> Action<M>, next: (nat, L, Option<M>) -> L)

  /** The messages in flight.  An empty link is absent from the map. */
  type Queues<M> = map<Link, seq<M>>

  datatype Config<L, M> = Config(locals: seq<L>, queues: Queues<M>)

  function Get<M>(q: Queues<M>, l: Link): seq<M> {
    if l in q then q[l] else []
  }

  function Put<M>(q: Queues<M>, l: Link, s: seq<M>): (r: Queues<M>)
    ensures forall k :: Get(r, k) == if k == l then s else Get(q, k)
    ensures NoEmptyEntry(q) ==> NoEmptyEntry(r)
  {
    if |s| == 0 then q - {l} else q[l := s]
  }

  ghost predicate NoEmptyEntry<M>(q: Queues<M>) {
    forall l :: l in q ==> q[l] != []
  }

  /** One step of process p, if it can move. */
  function Step<L, M>(sys: System<L, M>, c: Config<L, M>, p: nat): Option<Config<L, M>>
    requires p < |c.locals|
  {
    match sys.act(p, c.locals[p])
    case Halt => None
    case Send(to, msg) =>
      Some(Config(c.locals[p := sys.next(p, c.locals[p], None)],
                  Put(c.queues, Link(p, to), Get(c.queues, Link(p, to)) + [msg])))
    case Recv(from) =>
      var q := Get(c.queues, Link(from, p));
      if |q| == 0 then None
      else Some(Config(c.locals[p := sys.next(p, c.locals[p], Some(q[0]))], Put(c.queues, Link(from, p), q[1..])))
  }

  /** The configuration after the processes of `sched` each moved once, in that order. */
  function Exec<L, M>(sys: System<L, M>, c: Config<L, M>, sched: seq<nat>): (r: Option<Config<L, M>>)
    ensures r.Some? ==> |r.value.locals| == |c.locals|
    decreases |sched|
  {
    if |sched| == 0 then Some(c)
    else if sched[0] >= |c.locals| then None
    else
      var s := Step(sys, c, sched[0]);
      if s.None? then None else Exec(sys, s.value, sched[1..])
  }

  ghost predicate Reaches<L, M>(sys: System<L, M>, c: Config<L, M>, sched: seq<nat>, d: Config<L, M>) {
    Exec(sys, c, sched) == Some(d)
  }

  /** No process can move. */
  ghost predicate Quiescent<L, M>(sys: System<L, M>, c: Config<L, M>) {
    forall p: nat :: p < |c.locals| ==> Step(sys, c, p) == None
  }

  lemma Halted<L, M>(sys: System<L, M>, c: Config<L, M>)
    requires forall p: nat :: p < |c.locals| ==> sys.act(p, c.locals[p]) == Halt
    ensures Quiescent(sys, c)
  {
  }

  lemma QueuesAreEqual<M>(q: Queues<M>, r: Queues<M>)
    requires NoEmptyEntry(q) && NoEmptyEntry(r)
    requires forall l :: Get(q, l) == Get(r, l)
    ensures q == r
  {
    forall l
      ensures (l in q) == (l in r) && (l in q ==> q[l] == r[l])
    {
      assert Get(q, l) == Get(r, l);
    }
    assert q.Keys == r.Keys;
  }

  lemma PutCommutes<M>(q: Queues<M>, k: Link, s: seq<M>, l: Link, t: seq<M>)
    requires k != l
    ensures Put(Put(q, k, s), l, t) == Put(Put(q, l, t), k, s)
  {
    assert forall x :: x in Put(Put(q, k, s), l, t) <==> x in Put(Put(q, l, t), k, s);
  }

  lemma PutTwice<M>(q: Queues<M>, l: Link, s: seq<M>, t: seq<M>)
    ensures Put(Put(q, l, s), l, t) == Put(q, l, t)
  {
    assert forall x :: x in Put(Put(q, l, s), l, t) <==> x in Put(q, l, t);
  }

  lemma LocalsCommute<L>(locals: seq<L>, p: nat, a: L, q: nat, b: L)
    requires p < |locals| && q < |locals| && p != q
    ensures locals[p := a][q := b] == locals[q := b][p := a]
  {
  }

  /** The local state after a step, the link the step touches and what it leaves there. */
  ghost function Effect<L, M>(sys: System<L, M>, c: Config<L, M>, p: nat): (e: (L, Link, seq<M>))
    requires p < |c.locals|
    requires Step(sys, c, p).Some?
    ensures Step(sys, c, p).value == Config(c.locals[p := e.0], Put(c.queues, e.1, e.2))
  {
    match sys.act(p, c.locals[p])
    case Send(to, msg) => (sys.next(p, c.locals[p], None), Link(p, to), Get(c.queues, Link(p, to)) + [msg])
    case Recv(from) =>
      var q := Get(c.queues, Link(from, p));
      (sys.next(p, c.locals[p], Some(q[0])), Link(from, p), q[1..])
  }

  /** A step that leaves p's local state and p's link alone leaves p's next step as it was. */
  lemma Undisturbed<L, M>(sys: System<L, M>, c: Config<L, M>, d: Config<L, M>, p: nat)
    requires p < |c.locals| == |d.locals| && d.locals[p] == c.locals[p]
    requires Step(sys, c, p).Some?
    requires Get(d.queues, Effect(sys, c, p).1) == Get(c.queues, Effect(sys, c, p).1)
    ensures Step(sys, d, p).Some? && Effect(sys, d, p) == Effect(sys, c, p)
  {
  }

  /** The one way in which two steps can meet: one appends to a link the other takes from. */
  lemma SharedLink<L, M>(sys: System<L, M>, c: Config<L, M>, sender: nat, receiver: nat)
    requires sender < |c.locals| && receiver < |c.locals| && sender != receiver
    requires sys.act(sender, c.locals[sender]) .Send? && sys.act(receiver, c.locals[receiver]).Recv?
    requires Step(sys, c, receiver).Some?
    requires Effect(sys, c, sender).1 == Effect(sys, c, receiver).1
    ensures Step(sys, Step(sys, c, sender).value, receiver).Some?
    ensures Step(sys, Step(sys, c, sender).value, receiver) == Step(sys, Step(sys, c, receiver).value, sender)
  {
    var (sent, l, _) := Effect(sys, c, sender);
    var (taken, _, _) := Effect(sys, c, receiver);
    var s, m := Get(c.queues, l), sys.act(sender, c.locals[sender]).msg;
    var a, b := Step(sys, c, sender).value, Step(sys, c, receiver).value;
    assert (s + [m])[0] == s[0] && (s + [m])[1..] == s[1..] + [m];
    assert Effect(sys, a, receiver) == (taken, l, s[1..] + [m]);
    assert Effect(sys, b, sender) == (sent, l, s[1..] + [m]);
    PutTwice(c.queues, l, s + [m], s[1..] + [m]);
    PutTwice(c.queues, l, s[1..], s[1..] + [m]);
    LocalsCommute(c.locals, sender, sent, receiver, taken);
  }

  /** Two processes that can both move do not disturb each other. */
  lemma Diamond<L, M>(sys: System<L, M>, c: Config<L, M>, p: nat, q: nat)
    requires p < |c.locals| && q < |c.locals| && p != q
    requires Step(sys, c, p).Some? && Step(sys, c, q).Some?
    ensures Step(sys, Step(sys, c, p).value, q).Some?
    ensures Step(sys, Step(sys, c, p).value, q) == Step(sys, Step(sys, c, q).value, p)
  {
    var (ap, lp, sp) := Effect(sys, c, p);
    var (aq, lq, sq) := Effect(sys, c, q);
    if lp != lq {
      Undisturbed(sys, c, Step(sys, c, p).value, q);
      Undisturbed(sys, c, Step(sys, c, q).value, p);
      PutCommutes(c.queues, lp, sp, lq, sq);
      LocalsCommute(c.locals, p, ap, q, aq);
    } else if sys.act(p, c.locals[p]).Send? {
      SharedLink(sys, c, p, q);
    } else {
      SharedLink(sys, c, q, p);
    }
  }

  /** Moving p first costs nothing: what is left is one step shorter and ends in the same place. */
  lemma {:induction false} MoveForward<L, M>(
    sys: System<L, M>, c: Config<L, M>, sched: seq<nat>, end: Config<L, M>, p: nat)
    returns (rest: seq<nat>)
    requires Reaches(sys, c, sched, end) && Quiescent(sys, end)
    requires p < |c.locals| && Step(sys, c, p).Some?
    ensures |rest| + 1 == |sched|
    ensures Reaches(sys, Step(sys, c, p).value, rest, end)
    decreases |sched|
  {
    assert |sched| == 0 ==> c == end;
    var q := sched[0];
    if q == p {
      rest := sched[1..];
    } else {
      Diamond(sys, c, p, q);
      var tail := MoveForward(sys, Step(sys, c, q).value, sched[1..], end, p);
      rest := [q] + tail;
      assert rest[1..] == tail;
    }
  }

  /** Every run is at most as long as the known complete schedule, can always be continued
      to the same end, and if it cannot be continued it is already there. */
  lemma {:induction false} EveryRunReachesTheSameEnd<L, M>(
    sys: System<L, M>, c: Config<L, M>, sched: seq<nat>, end: Config<L, M>, run: seq<nat>, d: Config<L, M>)
    returns (rest: seq<nat>)
    requires Reaches(sys, c, sched, end) && Quiescent(sys, end)
    requires Reaches(sys, c, run, d)
    ensures |run| + |rest| == |sched|
    ensures Reaches(sys, d, rest, end)
    ensures Quiescent(sys, d) ==> d == end
    decreases |run|
  {
    if |run| == 0 {
      rest := sched;
    } else {
      var tail := MoveForward(sys, c, sched, end, run[0]);
      rest := EveryRunReachesTheSameEnd(sys, Step(sys, c, run[0]).value, tail, end, run[1..], d);
    }
    assert |rest| > 0 ==> rest[0] < |d.locals| && Step(sys, d, rest[0]).Some?;
  }

  /** d is k steps from the end. */
  ghost predicate StepsFrom<L, M>(sys: System<L, M>, d: Config<L, M>, end: Config<L, M>, k: int) {
    exists rest :: |rest| == k && Reaches(sys, d, rest, end)
  }

  /** Every run from c ends, after exactly `total` steps, and ends in `end`: no run is longer,
      every run can be continued to it, and a run that cannot be continued is there. */
  ghost predicate AlwaysEnds<L(!new), M(!new)>(sys: System<L, M>, c: Config<L, M>, end: Config<L, M>, total: nat) {
    && Quiescent(sys, end)
    && forall run, d :: Reaches(sys, c, run, d) ==>
         |run| <= total && StepsFrom(sys, d, end, total - |run|) && (Quiescent(sys, d) ==> |run| == total && d == end)
  }

  /** One complete schedule is enough. */
  lemma OneRunIsEnough<L(!new), M(!new)>(sys: System<L, M>, c: Config<L, M>, sched: seq<nat>, end: Config<L, M>)
    requires Reaches(sys, c, sched, end) && Quiescent(sys, end)
    ensures AlwaysEnds(sys, c, end, |sched|)
  {
    forall run, d | Reaches(sys, c, run, d)
      ensures |run| <= |sched| && StepsFrom(sys, d, end, |sched| - |run|)
      ensures Quiescent(sys, d) ==> |run| == |sched| && d == end
    {
      var rest := EveryRunReachesTheSameEnd(sys, c, sched, end, run, d);
    }
  }

  lemma {:induction false} ExecConcat<L, M>(
    sys: System<L, M>, c: Config<L, M>, a: seq<nat>, mid: Config<L, M>, b: seq<nat>)
    requires Reaches(sys, c, a, mid)
    ensures Exec(sys, c, a + b) == Exec(sys, mid, b)
    decreases |a|
  {
    if |a| == 0 {
      assert a + b == b;
    } else {
      assert (a + b)[1..] == a[1..] + b;
      ExecConcat(sys, Step(sys, c, a[0]).value, a[1..], mid, b);
    }
  }

  /** A run never stores an empty entry. */
  lemma {:induction false} ExecKeepsNoEmptyEntry<L, M>(
    sys: System<L, M>, c: Config<L, M>, sched: seq<nat>, d: Config<L, M>)
    requires NoEmptyEntry(c.queues) && Reaches(sys, c, sched, d)
    ensures NoEmptyEntry(d.queues)
    decreases |sched|
  {
    if |sched| == 0 {
    } else {
      ExecKeepsNoEmptyEntry(sys, Step(sys, c, sched[0]).value, sched[1..], d);
    }
  }

  // ----- building schedules -----

  /** r differs from q in link l only, which holds s. */
  ghost predicate Updated<M>(q: Queues<M>, r: Queues<M>, l: Link, s: seq<M>) {
    forall k :: Get(r, k) == if k == l then s else Get(q, k)
  }

  lemma Then<L, M>(sys: System<L, M>, c: Config<L, M>, a: seq<nat>, mid: Config<L, M>, b: seq<nat>, d: Config<L, M>)
    requires Reaches(sys, c, a, mid) && Reaches(sys, mid, b, d)
    ensures Reaches(sys, c, a + b, d)
  {
    ExecConcat(sys, c, a, mid, b);
  }

  ghost predicate CanReach<L, M>(sys: System<L, M>, c: Config<L, M>, d: Config<L, M>) {
    exists s :: Reaches(sys, c, s, d)
  }

  /** The k-th of a list of configurations can reach the next one. */
  ghost predicate StepOf<L, M>(sys: System<L, M>, at: nat -> Config<L, M>, k: nat) {
    CanReach(sys, at(k), at(k + 1))
  }

  lemma {:induction false} Chain<L, M>(sys: System<L, M>, at: nat -> Config<L, M>, r: nat) returns (sched: seq<nat>)
    requires forall k: nat :: k < r ==> StepOf(sys, at, k)
    ensures Reaches(sys, at(0), sched, at(r))
  {
    if r == 0 {
      sched := [];
    } else {
      var first := Chain(sys, at, r - 1);
      assert StepOf(sys, at, r - 1);
      var last :| Reaches(sys, at(r - 1), last, at(r));
      sched := first + last;
      Then(sys, at(0), first, at(r - 1), last, at(r));
    }
  }

  lemma SendStep<L, M>(sys: System<L, M>, c: Config<L, M>, p: nat, to: nat, msg: M, l: L) returns (d: Config<L, M>)
    requires p < |c.locals|
    requires sys.act(p, c.locals[p]) == Send(to, msg) && sys.next(p, c.locals[p], None) == l
    ensures Reaches(sys, c, [p], d)
    ensures d.locals == c.locals[p := l]
    ensures Updated(c.queues, d.queues, Link(p, to), Get(c.queues, Link(p, to)) + [msg])
  {
    d := Step(sys, c, p).value;
    assert Exec(sys, d, [p][1..]) == Some(d);
  }

  lemma RecvStep<L, M>(sys: System<L, M>, c: Config<L, M>, p: nat, from: nat, msg: M, rest: seq<M>, l: L)
    returns (d: Config<L, M>)
    requires p < |c.locals|
    requires sys.act(p, c.locals[p]) == Recv(from) && sys.next(p, c.locals[p], Some(msg)) == l
    requires Get(c.queues, Link(from, p)) == [msg] + rest
    ensures Reaches(sys, c, [p], d)
    ensures d.locals == c.locals[p := l]
    ensures Updated(c.queues, d.queues, Link(from, p), rest)
  {
    d := Step(sys, c, p).value;
    assert ([msg] + rest)[1..] == rest;
    assert Exec(sys, d, [p][1..]) == Some(d);
  }

  /** Process p sends msgs to one neighbour, passing through the local states ls. */
  ghost predicate SendsAll<L, M>(sys: System<L, M>, p: nat, to: nat, ls: seq<L>, msgs: seq<M>) {
    && |ls| == |msgs| + 1
    && forall i :: 0 <= i < |msgs| ==> sys.act(p, ls[i]) == Send(to, msgs[i]) && sys.next(p, ls[i], None) == ls[i + 1]
  }

  ghost predicate RecvsAll<L, M>(sys: System<L, M>, p: nat, from: nat, ls: seq<L>, msgs: seq<M>) {
    && |ls| == |msgs| + 1
    && forall i :: 0 <= i < |msgs| ==> sys.act(p, ls[i]) == Recv(from) && sys.next(p, ls[i], Some(msgs[i])) == ls[i + 1]
  }

  lemma SendsTail<L, M>(sys: System<L, M>, p: nat, to: nat, ls: seq<L>, msgs: seq<M>)
    requires SendsAll(sys, p, to, ls, msgs) && |msgs| > 0
    ensures SendsAll(sys, p, to, ls[1..], msgs[1..])
  {
    forall i | 0 <= i < |msgs| - 1
      ensures sys.act(p, ls[1..][i]) == Send(to, msgs[1..][i]) && sys.next(p, ls[1..][i], None) == ls[1..][i + 1]
    {
      assert ls[1..][i] == ls[i + 1] && msgs[1..][i] == msgs[i + 1] && ls[1..][i + 1] == ls[i + 2];
    }
  }

  lemma RecvsTail<L, M>(sys: System<L, M>, p: nat, from: nat, ls: seq<L>, msgs: seq<M>)
    requires RecvsAll(sys, p, from, ls, msgs) && |msgs| > 0
    ensures RecvsAll(sys, p, from, ls[1..], msgs[1..])
  {
    forall i | 0 <= i < |msgs| - 1
      ensures sys.act(p, ls[1..][i]) == Recv(from) && sys.next(p, ls[1..][i], Some(msgs[1..][i])) == ls[1..][i + 1]
    {
      assert ls[1..][i] == ls[i + 1] && msgs[1..][i] == msgs[i + 1] && ls[1..][i + 1] == ls[i + 2];
    }
  }

  lemma {:induction false} SendMany<L, M>(sys: System<L, M>, c: Config<L, M>, p: nat, to: nat, ls: seq<L>, msgs: seq<M>)
    returns (sched: seq<nat>, d: Config<L, M>)
    requires SendsAll(sys, p, to, ls, msgs)
    requires p < |c.locals| && c.locals[p] == ls[0]
    ensures Reaches(sys, c, sched, d)
    ensures d.locals == c.locals[p := ls[|msgs|]]
    ensures Updated(c.queues, d.queues, Link(p, to), Get(c.queues, Link(p, to)) + msgs)
    decreases |msgs|
  {
    if |msgs| == 0 {
      sched, d := [], c;
      assert c.locals[p := ls[0]] == c.locals && Get(c.queues, Link(p, to)) + msgs == Get(c.queues, Link(p, to));
    } else {
      var c1 := SendFirst(sys, c, p, to, ls, msgs);
      var rest;
      rest, d := SendMany(sys, c1, p, to, ls[1..], msgs[1..]);
      sched := [p] + rest;
      Then(sys, c, [p], c1, rest, d);
      SentAfter(c.queues, c1.queues, d.queues, Link(p, to), msgs);
      SetTwice(c.locals, p, ls[1], ls[|msgs|]);
    }
  }

  lemma SetTwice<L>(s: seq<L>, p: nat, a: L, b: L)
    requires p < |s|
    ensures s[p := a][p := b] == s[p := b]
  {
  }

  lemma SendFirst<L, M>(sys: System<L, M>, c: Config<L, M>, p: nat, to: nat, ls: seq<L>, msgs: seq<M>)
    returns (d: Config<L, M>)
    requires SendsAll(sys, p, to, ls, msgs) && |msgs| > 0
    requires p < |c.locals| && c.locals[p] == ls[0]
    ensures SendsAll(sys, p, to, ls[1..], msgs[1..]) && Reaches(sys, c, [p], d)
    ensures d.locals == c.locals[p := ls[1]]
    ensures Updated(c.queues, d.queues, Link(p, to), Get(c.queues, Link(p, to)) + [msgs[0]])
  {
    SendsTail(sys, p, to, ls, msgs);
    d := SendStep(sys, c, p, to, msgs[0], ls[1]);
  }

  lemma SentAfter<M>(q: Queues<M>, q1: Queues<M>, r: Queues<M>, l: Link, msgs: seq<M>)
    requires |msgs| > 0 && Updated(q, q1, l, Get(q, l) + [msgs[0]]) && Updated(q1, r, l, Get(q1, l) + msgs[1..])
    ensures Updated(q, r, l, Get(q, l) + msgs)
  {
    assert msgs == [msgs[0]] + msgs[1..];
    Regroup(Get(q, l), [msgs[0]], msgs[1..]);
  }

  lemma {:induction false} RecvMany<L, M>(
    sys: System<L, M>, c: Config<L, M>, p: nat, from: nat, ls: seq<L>, msgs: seq<M>)
    returns (sched: seq<nat>, d: Config<L, M>)
    requires RecvsAll(sys, p, from, ls, msgs)
    requires p < |c.locals| && c.locals[p] == ls[0]
    requires Get(c.queues, Link(from, p)) == msgs
    ensures Reaches(sys, c, sched, d)
    ensures d.locals == c.locals[p := ls[|msgs|]]
    ensures Updated(c.queues, d.queues, Link(from, p), [])
    decreases |msgs|
  {
    if |msgs| == 0 {
      sched, d := [], c;
    } else {
      RecvsTail(sys, p, from, ls, msgs);
      assert msgs == [msgs[0]] + msgs[1..];
      var c1 := RecvStep(sys, c, p, from, msgs[0], msgs[1..], ls[1]);
      var rest;
      rest, d := RecvMany(sys, c1, p, from, ls[1..], msgs[1..]);
      sched := [p] + rest;
      Then(sys, c, [p], c1, rest, d);
    }
  }

  /** The configuration in which process i is in state `state(i)` and link l holds `flight(l)`. */
  ghost predicate At<L, M>(c: Config<L, M>, n: nat, state: nat -> L, flight: Link -> seq<M>) {
    && |c.locals| == n
    && (forall i: nat :: i < n ==> c.locals[i] == state(i))
    && (forall l :: Get(c.queues, l) == flight(l))
  }

  /** p sends m to q, which is waiting for it on an empty link. */
  lemma Handoff<L, M>(sys: System<L, M>, c: Config<L, M>, p: nat, q: nat, m: M, lp: L, lq: L) returns (d: Config<L, M>)
    requires p < |c.locals| && q < |c.locals| && p != q
    requires sys.act(p, c.locals[p]) == Send(q, m) && sys.next(p, c.locals[p], None) == lp
    requires sys.act(q, c.locals[q]) == Recv(p) && sys.next(q, c.locals[q], Some(m)) == lq
    requires Get(c.queues, Link(p, q)) == []
    ensures Reaches(sys, c, [p, q], d)
    ensures d.locals == c.locals[p := lp][q := lq]
    ensures forall l :: Get(d.queues, l) == Get(c.queues, l)
  {
    var mid := SendStep(sys, c, p, q, m, lp);
    assert Get(mid.queues, Link(p, q)) == [m] + [];
    d := RecvStep(sys, mid, q, p, m, [], lq);
    Then(sys, c, [p], mid, [q], d);
    assert [p] + [q] == [p, q];
  }

  /** The same between configurations described state by state. */
  lemma HandoffAt<L, M>(
    sys: System<L, M>, c: Config<L, M>, n: nat, before: nat -> L, after: nat -> L, flight: Link -> seq<M>, p: nat,
      q: nat, m: M)
    returns (d: Config<L, M>)
    requires At(c, n, before, flight) && p < n && q < n && p != q && flight(Link(p, q)) == []
    requires sys.act(p, before(p)) == Send(q, m) && sys.next(p, before(p), None) == after(p)
    requires sys.act(q, before(q)) == Recv(p) && sys.next(q, before(q), Some(m)) == after(q)
    requires forall i: nat :: i < n && i != p && i != q ==> after(i) == before(i)
    ensures Reaches(sys, c, [p, q], d)
    ensures At(d, n, after, flight)
  {
    d := Handoff(sys, c, p, q, m, after(p), after(q));
  }

  lemma SendAt<L, M>(sys: System<L, M>, c: Config<L, M>, n: nat, before: nat -> L, after: nat -> L,
                     flight: Link -> seq<M>, flight': Link -> seq<M>, p: nat, to: nat, m: M)
    returns (d: Config<L, M>)
    requires At(c, n, before, flight) && p < n
    requires sys.act(p, before(p)) == Send(to, m) && sys.next(p, before(p), None) == after(p)
    requires forall i: nat :: i < n && i != p ==> after(i) == before(i)
    requires forall l :: flight'(l) == if l == Link(p, to) then flight(l) + [m] else flight(l)
    ensures Reaches(sys, c, [p], d)
    ensures At(d, n, after, flight')
  {
    d := SendStep(sys, c, p, to, m, after(p));
  }

  lemma RecvAt<L, M>(sys: System<L, M>, c: Config<L, M>, n: nat, before: nat -> L, after: nat -> L,
                     flight: Link -> seq<M>, flight': Link -> seq<M>, p: nat, from: nat, m: M)
    returns (d: Config<L, M>)
    requires At(c, n, before, flight) && p < n
    requires sys.act(p, before(p)) == Recv(from) && sys.next(p, before(p), Some(m)) == after(p)
    requires flight(Link(from, p)) == [m]
    requires forall i: nat :: i < n && i != p ==> after(i) == before(i)
    requires forall l :: flight'(l) == if l == Link(from, p) then [] else flight(l)
    ensures Reaches(sys, c, [p], d)
    ensures At(d, n, after, flight')
  {
    assert Get(c.queues, Link(from, p)) == [m] + [];
    d := RecvStep(sys, c, p, from, m, [], after(p));
  }
}

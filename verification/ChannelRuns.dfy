/** All runs of a channel shared by any number of threads (src/channel.c:56-172).

    A step is what one thread does under the mutex.  A blocking read that finds nothing goes to
    sleep on the condition variable; a signal, a broadcast or nothing at all (spuriously) wakes a
    sleeper, which then has to take the mutex again and look again.
 */
module ChannelRuns {
  import opened ChannelSpec

  /** `accepted` and `delivered` are the histories of writes and reads. */
  datatype World<V> = World(chan: Chan<V>, accepted: seq<V>, delivered: seq<V>, asleep: set<nat>, woken: set<nat>)

  /** Write(vs, ok, wake): the values that were accepted, whether the call went to its end, and
      the sleepers its signal wakes.  Read(r, block): reader r looks for the first time.
      Resume(r): woken reader r looks again. */
  datatype Event<V> =
    | Write(vs: seq<V>, ok: bool, wake: set<nat>)
    | Read(r: nat, block: bool)
    | Resume(r: nat)
    | Spurious(r: nat)
    | Close

  function Start<V>(): World<V> {
    World(Chan([], false, false), [], [], {}, {})
  }

  /** What a reader does when it has the mutex. */
  function Look<V>(w: World<V>, r: nat, block: bool): World<V> {
    if |w.chan.items| > 0 then
      w.(chan := TakeOne(w.chan), delivered := w.delivered + [w.chan.items[0]])
    else if w.chan.drained || !block then w
    else w.(asleep := w.asleep + {r})
  }

  /** A signal wakes at least one sleeper, if there is one. */
  ghost predicate Signal(asleep: set<nat>, wake: set<nat>) {
    wake <= asleep && (asleep != {} ==> wake != {})
  }

  ghost predicate Step<V(!new)>(w: World<V>, e: Event<V>, w': World<V>) {
    match e
    case Write(vs, ok, wake) =>
      if w.chan.closed || w.chan.drained then w' == w
      else
        && (if ok then Signal(w.asleep, wake) else wake == {})
        && w' == World(Accept(w.chan, vs), w.accepted + vs, w.delivered, w.asleep - wake, w.woken + wake)
    case Read(r, block) => r !in w.asleep && r !in w.woken && w' == Look(w, r, block)
    case Resume(r) => r in w.woken && w' == Look(w.(woken := w.woken - {r}), r, true)
    case Spurious(r) => r in w.asleep && w' == w.(asleep := w.asleep - {r}, woken := w.woken + {r})
    case Close =>
      if w.chan.closed then w' == w
      else w' == World(Closing(w.chan), w.accepted, w.delivered, {}, w.woken + w.asleep)
  }

  ghost predicate Run<V(!new)>(ws: seq<World<V>>, es: seq<Event<V>>) {
    && |ws| == |es| + 1 && ws[0] == Start()
    && forall i :: 0 <= i < |es| ==> Step(ws[i], es[i], ws[i + 1])
  }

  // ----- a FIFO that drains -----

  ghost predicate Fifo<V>(w: World<V>) {
    && w.accepted == w.delivered + w.chan.items
    && Consistent(w.chan)
    && w.asleep !! w.woken
    && (w.chan.closed ==> w.asleep == {})
  }

  lemma LookKeepsFifo<V>(w: World<V>, r: nat, block: bool)
    requires Fifo(w) && r !in w.woken
    ensures Fifo(Look(w, r, block))
  {
    if |w.chan.items| > 0 {
      assert w.chan.items == [w.chan.items[0]] + w.chan.items[1..];
      assert w.delivered + [w.chan.items[0]] + w.chan.items[1..] == w.delivered + w.chan.items;
    }
  }

  lemma StepKeepsFifo<V(!new)>(w: World<V>, e: Event<V>, w': World<V>)
    requires Fifo(w) && Step(w, e, w')
    ensures Fifo(w')
  {
    match e
    case Write(vs, ok, wake) => assert w.accepted + vs == w.delivered + (w.chan.items + vs);
    case Read(r, block) => LookKeepsFifo(w, r, block);
    case Resume(r) => LookKeepsFifo(w.(woken := w.woken - {r}), r, true);
    case Spurious(r) =>
    case Close =>
  }

  /** In every run and at every unlock: what was accepted is what was delivered followed by what
      is pending, in order; the channel is drained exactly when it is closed and empty; and once
      it is closed nobody sleeps. */
  lemma {:induction false} ChannelIsFifo<V(!new)>(ws: seq<World<V>>, es: seq<Event<V>>, i: nat)
    requires Run(ws, es) && i < |ws|
    ensures Fifo(ws[i])
  {
    if i == 0 {
    } else {
      ChannelIsFifo(ws, es, i - 1);
      StepKeepsFifo(ws[i - 1], es[i - 1], ws[i]);
    }
  }

  /** Before moment i somebody closed the channel. */
  ghost predicate ClosedBefore<V(!new)>(es: seq<Event<V>>, i: nat)
    requires i <= |es|
  {
    exists k :: 0 <= k < i && es[k].Close?
  }

  lemma {:induction false} ClosedIffClose<V(!new)>(ws: seq<World<V>>, es: seq<Event<V>>, i: nat)
    requires Run(ws, es) && i < |ws|
    ensures ws[i].chan.closed <==> ClosedBefore(es, i)
  {
    if i == 0 {
    } else {
      ClosedIffClose(ws, es, i - 1);
      assert Step(ws[i - 1], es[i - 1], ws[i]);
      assert ClosedBefore(es, i) <==> ClosedBefore(es, i - 1) || es[i - 1].Close?;
    }
  }

  /** The status at every moment of every run, from what happened: OPEN until the first close, then CLOSED
      as long as something that was accepted has not been delivered, then DRAINED. */
  lemma StatusSays<V(!new)>(ws: seq<World<V>>, es: seq<Event<V>>, i: nat)
    requires Run(ws, es) && i < |ws|
    ensures StatusOf(ws[i].chan) == OPEN <==> !ClosedBefore(es, i)
    ensures StatusOf(ws[i].chan) == CLOSED <==> ClosedBefore(es, i) && ws[i].delivered != ws[i].accepted
    ensures StatusOf(ws[i].chan) == DRAINED <==> ClosedBefore(es, i) && ws[i].delivered == ws[i].accepted
  {
    ChannelIsFifo(ws, es, i);
    ClosedIffClose(ws, es, i);
  }

  function Rank(s: Status): nat {
    match s
    case OPEN => 0
    case CLOSED => 1
    case DRAINED => 2
  }

  /** The status only moves from OPEN to CLOSED to DRAINED, and nothing is accepted once it left OPEN. */
  lemma {:induction false} StatusOnlyAdvances<V(!new)>(ws: seq<World<V>>, es: seq<Event<V>>, i: nat, j: nat)
    requires Run(ws, es) && i <= j < |ws|
    ensures Rank(StatusOf(ws[i].chan)) <= Rank(StatusOf(ws[j].chan))
    ensures StatusOf(ws[i].chan) != OPEN ==> ws[j].accepted == ws[i].accepted
    ensures ws[i].chan.closed ==> ws[j].chan.closed
    decreases j - i
  {
    if i < j {
      StatusOnlyAdvances(ws, es, i, j - 1);
      ChannelIsFifo(ws, es, j - 1);
      assert Step(ws[j - 1], es[j - 1], ws[j]);
    }
  }

  /** After any close, nobody is asleep, ever again. */
  lemma NobodySleepsAfterClose<V(!new)>(ws: seq<World<V>>, es: seq<Event<V>>, i: nat, j: nat)
    requires Run(ws, es) && i < |es| && es[i].Close? && i < j < |ws|
    ensures ws[j].asleep == {}
  {
    assert Step(ws[i], es[i], ws[i + 1]);
    StatusOnlyAdvances(ws, es, i + 1, j);
    ChannelIsFifo(ws, es, j);
  }

  // ----- wake-ups -----

  /** While somebody sleeps, the pending items are no more than the readers on their way. */
  ghost predicate Attended<V>(w: World<V>) {
    w.asleep != {} ==> |w.chan.items| <= |w.woken|
  }

  lemma SetGrows(a: set<nat>, b: set<nat>)
    requires a !! b
    ensures |a + b| == |a| + |b|
  {
  }

  /** What a write has to do for that: wake all who sleep, or enough for all that is pending. */
  ghost predicate Suffices<V>(w: World<V>, e: Event<V>) {
    e.Write? && !w.chan.closed && !w.chan.drained ==>
      w.asleep <= e.wake || |w.chan.items| + |e.vs| <= |w.woken| + |e.wake|
  }

  /** A write, of any number of values, that ends well or is refused on the way, and whoever it
      wakes, leaves its sleepers attended exactly if it does. */
  lemma WriteAttendsIff<V(!new)>(w: World<V>, vs: seq<V>, ok: bool, wake: set<nat>, w': World<V>)
    requires Fifo(w) && !w.chan.closed && Step(w, Write(vs, ok, wake), w')
    ensures Attended(w') <==> Suffices(w, Write(vs, ok, wake))
  {
    SetGrows(w.woken, wake);
    assert w.asleep - wake == {} <==> w.asleep <= wake;
  }

  lemma StepKeepsAttended<V(!new)>(w: World<V>, e: Event<V>, w': World<V>)
    requires Fifo(w) && Attended(w) && Step(w, e, w')
    ensures Attended(w') <==> Suffices(w, e)
  {
    match e
    case Write(vs, ok, wake) =>
      if !w.chan.closed {
        WriteAttendsIff(w, vs, ok, wake, w');
      }
    case Read(r, block) =>
    case Resume(r) =>
    case Spurious(r) => SetGrows(w.woken, {r});
    case Close =>
  }

  /** Over every run: sleepers are attended throughout exactly if every write suffices. */
  lemma {:induction false} AttendedIffWritesSuffice<V(!new)>(ws: seq<World<V>>, es: seq<Event<V>>, n: nat)
    requires Run(ws, es) && n <= |es|
    ensures (forall i :: 0 <= i <= n ==> Attended(ws[i])) <==> (forall k :: 0 <= k < n ==> Suffices(ws[k], es[k]))
  {
    if n == 0 {
      assert Attended(ws[0]);
    } else {
      AttendedIffWritesSuffice(ws, es, n - 1);
      ChannelIsFifo(ws, es, n - 1);
      if Attended(ws[n - 1]) {
        StepKeepsAttended(ws[n - 1], es[n - 1], ws[n]);
      }
    }
  }

  // The same as conditions on the channel before the write, whichever readers the signal wakes.

  /** For a write that goes to its end: at most one reader sleeps, or the woken readers and one
      more suffice. */
  ghost predicate SafeWrite<V>(w: World<V>, vs: seq<V>) {
    |w.asleep| <= 1 || |w.chan.items| + |vs| <= |w.woken| + 1
  }

  /** For a write that is refused after vs: nobody sleeps, or the woken readers suffice. */
  ghost predicate SafeRefusal<V>(w: World<V>, vs: seq<V>) {
    w.asleep == {} || |w.chan.items| + |vs| <= |w.woken|
  }

  lemma Alone(a: set<nat>, b: set<nat>)
    requires b <= a && |a| <= 1 && (a != {} ==> b != {})
    ensures a == b
  {
    if x :| x in b {
      assert a == {x} + (a - {x});
    }
  }

  lemma SafeWriteAttends<V(!new)>(w: World<V>, vs: seq<V>, wake: set<nat>, w': World<V>)
    requires Fifo(w) && !w.chan.closed && Step(w, Write(vs, true, wake), w') && SafeWrite(w, vs)
    ensures Attended(w')
  {
    WriteAttendsIff(w, vs, true, wake, w');
    if |w.asleep| <= 1 {
      Alone(w.asleep, wake);
    } else {
      assert wake != {};
    }
  }

  /** One of the sleepers is woken, and another stays behind. */
  lemma UnsafeWriteStrands<V(!new)>(w: World<V>, vs: seq<V>) returns (wake: set<nat>, w': World<V>)
    requires Fifo(w) && !w.chan.closed && !SafeWrite(w, vs)
    ensures Step(w, Write(vs, true, wake), w') && !Attended(w')
  {
    assert w.asleep != {};
    var r :| r in w.asleep;
    wake := {r};
    w' := World(Accept(w.chan, vs), w.accepted + vs, w.delivered, w.asleep - wake, w.woken + wake);
    WriteAttendsIff(w, vs, true, wake, w');
    assert w.asleep <= wake ==> w.asleep == wake;
  }

  /** A write that goes to its end leaves sleepers attended, whomever it wakes, exactly if it is safe. */
  lemma WriteIsSafeIff<V(!new)>(w: World<V>, vs: seq<V>)
    requires Fifo(w) && !w.chan.closed
    ensures (forall wake, w' :: Step(w, Write(vs, true, wake), w') ==> Attended(w')) <==> SafeWrite(w, vs)
  {
    if SafeWrite(w, vs) {
      forall wake, w' | Step(w, Write(vs, true, wake), w')
        ensures Attended(w')
      {
        SafeWriteAttends(w, vs, wake, w');
      }
    } else {
      var wake, w' := UnsafeWriteStrands(w, vs);
    }
  }

  /** A write that is refused on the way wakes nobody; vs is what it left in the channel. */
  lemma RefusalIsSafeIff<V(!new)>(w: World<V>, vs: seq<V>, wake: set<nat>, w': World<V>)
    requires Fifo(w) && !w.chan.closed && Step(w, Write(vs, false, wake), w')
    ensures Attended(w') <==> SafeRefusal(w, vs)
  {
    WriteAttendsIff(w, vs, false, wake, w');
  }

  ghost predicate Safe<V>(w: World<V>, e: Event<V>) {
    e.Write? && !w.chan.closed && !w.chan.drained ==> if e.ok then SafeWrite(w, e.vs) else SafeRefusal(w, e.vs)
  }

  lemma SafeStep<V(!new)>(w: World<V>, e: Event<V>, w': World<V>)
    requires Fifo(w) && Attended(w) && Step(w, e, w') && Safe(w, e)
    ensures Attended(w')
  {
    if e.Write? && !w.chan.closed && e.ok {
      SafeWriteAttends(w, e.vs, e.wake, w');
    } else if e.Write? && !w.chan.closed {
      RefusalIsSafeIff(w, e.vs, e.wake, w');
    } else {
      StepKeepsAttended(w, e, w');
    }
  }

  /** Over every run in which every write is safe when it is made: an item never waits while a
      reader sleeps and nobody is on the way to it. */
  lemma {:induction false} SafeWritesAttend<V(!new)>(ws: seq<World<V>>, es: seq<Event<V>>, i: nat)
    requires Run(ws, es) && i < |ws| && forall k :: 0 <= k < i ==> Safe(ws[k], es[k])
    ensures Attended(ws[i])
    ensures ws[i].asleep != {} && |ws[i].chan.items| > 0 ==> ws[i].woken != {}
  {
    if i == 0 {
      assert Attended(ws[0]);
    } else {
      SafeWritesAttend(ws, es, i - 1);
      ChannelIsFifo(ws, es, i - 1);
      var w, e, w' := ws[i - 1], es[i - 1], ws[i];
      assert Step(w, e, w') && Safe(w, e);
      SafeStep(w, e, w');
    }
  }

  /** And one write that is not safe is enough: the run can go on with an item stranded. */
  lemma UnsafeRunStrands<V(!new)>(ws: seq<World<V>>, es: seq<Event<V>>, vs: seq<V>)
    returns (e: Event<V>, w': World<V>)
    requires Run(ws, es) && !ws[|es|].chan.closed && !SafeWrite(ws[|es|], vs)
    ensures e.Write? && e.vs == vs && e.ok && Run(ws + [w'], es + [e]) && !Attended(w')
  {
    ChannelIsFifo(ws, es, |es|);
    var wake;
    wake, w' := UnsafeWriteStrands(ws[|es|], vs);
    e := Write(vs, true, wake);
    forall i | 0 <= i < |es + [e]|
      ensures Step((ws + [w'])[i], (es + [e])[i], (ws + [w'])[i + 1])
    {
      if i < |es| {
        assert Step(ws[i], es[i], ws[i + 1]);
      }
    }
  }

  /** Every write that accepts something accepts one value and goes to its end. */
  ghost predicate SingleItem<V>(e: Event<V>) {
    e.Write? ==> |e.vs| == 0 || (|e.vs| == 1 && e.ok)
  }

  /** Such writes are always safe. */
  lemma {:induction false} SleepersAreAttended<V(!new)>(ws: seq<World<V>>, es: seq<Event<V>>, i: nat)
    requires Run(ws, es) && i < |ws| && forall k :: 0 <= k < |es| ==> SingleItem(es[k])
    ensures Attended(ws[i])
    ensures ws[i].asleep != {} && |ws[i].chan.items| > 0 ==> ws[i].woken != {}
  {
    if i == 0 {
      assert Attended(ws[0]);
    } else {
      SleepersAreAttended(ws, es, i - 1);
      ChannelIsFifo(ws, es, i - 1);
      var w, e, w' := ws[i - 1], es[i - 1], ws[i];
      assert Step(w, e, w') && SingleItem(e);
      SafeStep(w, e, w');
    }
  }

  /** Two items written at once can leave a reader asleep beside them. */
  lemma MultiWriteCanStrand(v: int) returns (ws: seq<World<int>>, es: seq<Event<int>>)
    ensures Run(ws, es) && |es| == 4
    ensures ws[4].asleep == {1} && ws[4].woken == {} && ws[4].chan.items == [v]
  {
    var open := Chan([], false, false);
    var w0: World<int> := Start();
    var w1 := World(open, [], [], {0}, {});
    var w2 := World(open, [], [], {0, 1}, {});
    var w3 := World(Chan([v, v], false, false), [v, v], [], {1}, {0});
    var w4 := World(Chan([v], false, false), [v, v], [v], {1}, {});
    ws := [w0, w1, w2, w3, w4];
    es := [Read(0, true), Read(1, true), Write([v, v], true, {0}), Resume(0)];
    assert Step(w0, es[0], w1) && Step(w1, es[1], w2);
    assert Step(w2, es[2], w3) by { assert [] + [v, v] == [v, v] && {0, 1} - {0} == {1}; }
    assert Step(w3, es[3], w4) by { assert [v, v][1..] == [v] && {0} - {0} == {}; }
  }

  /** So can a write whose second value is refused: the first one stays, and nobody is woken. */
  lemma RefusedWriteCanStrand(v: int) returns (ws: seq<World<int>>, es: seq<Event<int>>)
    ensures Run(ws, es) && |es| == 2
    ensures ws[2].asleep == {0} && ws[2].woken == {} && ws[2].chan.items == [v]
  {
    var w0: World<int> := Start();
    var w1 := World(Chan([], false, false), [], [], {0}, {});
    var w2 := World(Chan([v], false, false), [v], [], {0}, {});
    ws := [w0, w1, w2];
    es := [Read(0, true), Write([v], false, {})];
    assert Step(w0, es[0], w1);
    assert Step(w1, es[1], w2) by { assert [] + [v] == [v] && {0} - {} == {0}; }
  }
}

/** The channel of src/channel.c: a ring of encoded values under a mutex.  Each method is what
    one thread does between locking and unlocking (or waiting). */
module Channel {
  import opened Bytes
  import opened Sequences
  import opened RingBuffer
  import opened Serialize
  import opened Acceptance
  import opened SaveLoad
  import opened Growth
  import opened ChannelSpec

  /** Values a channel takes in: encoded without a peer process and without upvalues. */
  ghost predicate Sendable(vm: Vm, v: Value) {
    WellFormed(vm, v) && Saveable(vm, v, false)
  }

  ghost predicate Storable(vm: Vm, v: Value) {
    Sendable(vm, v) && Accepts(v, false)
  }

  ghost function Encodings(vm: Vm, vs: seq<Value>): seq<Byte> {
    if |vs| == 0 then [] else Emit(vm, vs[0], false, false).bytes + Encodings(vm, vs[1..])
  }

  lemma {:induction false} EncodingsAppend(vm: Vm, vs: seq<Value>, v: Value)
    ensures Encodings(vm, vs + [v]) == Encodings(vm, vs) + Emit(vm, v, false, false).bytes
  {
    var one := Emit(vm, v, false, false).bytes;
    if |vs| == 0 {
      assert [v][1..] == [] && vs + [v] == [v];
      assert Encodings(vm, [v]) == one + [];
    } else {
      EncodingsAppend(vm, vs[1..], v);
      assert (vs + [v])[1..] == vs[1..] + [v];
      Regroup(Emit(vm, vs[0], false, false).bytes, Encodings(vm, vs[1..]), one);
    }
  }

  /** How many leading values are accepted before one is refused. */
  ghost function GoodPrefix(vs: seq<Value>): (k: nat)
    ensures k <= |vs|
    ensures k < |vs| ==> !Accepts(vs[k], false)
    ensures forall i :: 0 <= i < k ==> Accepts(vs[i], false)
  {
    if |vs| == 0 || !Accepts(vs[0], false) then 0 else 1 + GoodPrefix(vs[1..])
  }

  lemma OneMore(vs: seq<Value>, i: nat)
    requires i <= GoodPrefix(vs) && i < |vs|
    ensures if Accepts(vs[i], false) then i + 1 <= GoodPrefix(vs) else i == GoodPrefix(vs)
    ensures vs[..i + 1] == vs[..i] + [vs[i]]
  {
  }

  datatype WriteResult = Wrote(status: Status) | Refused(code: Code)

  datatype ReadResult = Item(status: Status, value: Value) | NoItem(status: Status) | Wait

  class Queue {
    const vm: Vm
    const sizeIncrement: nat
    const rb: Ring
    var closed: bool
    var drained: bool
    var numItems: nat
    ghost var items: seq<Value>

    /** The ring's bytes are the encodings of the pending items, nothing else. */
    ghost predicate Valid()
      reads this, rb, rb.buf
    {
      && rb.Valid() && rb.Aligned() && sizeIncrement > 0
      && numItems == |items|
      && (forall v :: v in items ==> Storable(vm, v))
      && rb.Contents() == Encodings(vm, items)
      && Consistent(View())
    }

    ghost function View(): Chan<Value>
      reads this
    {
      Chan(items, closed, drained)
    }

    constructor (vm: Vm, size: nat, sizeIncrement: nat)
      requires size > 0 && sizeIncrement > 0
      ensures Valid() && View() == Chan([], false, false)
      ensures this.vm == vm && fresh(rb) && fresh(rb.buf)
    {
      this.vm := vm;
      this.sizeIncrement := sizeIncrement;
      rb := new Ring(size);
      closed, drained, numItems, items := false, false, 0, [];
    }

    /** channel_close; `broadcast` says that the waiting readers are woken. */
    method Close() returns (broadcast: bool)
      requires Valid()
      modifies this
      ensures Valid() && View() == Closing(old(View())) && closed && items == old(items)
      ensures broadcast == !old(closed)
    {
      broadcast := false;
      if !closed {
        closed := true;
        if numItems == 0 {
          drained := true;
        }
        broadcast := true;
      }
    }

    /** One round of channel_read's loop. */
    method TryRead(doNotBlock: bool) returns (r: ReadResult)
      requires Valid()
      modifies this, rb`rp, rb`rcb
      ensures Valid()
      ensures |old(items)| > 0 ==>
                && r == Item(if closed then CLOSED else OPEN, Norm(old(items)[0])) && Same(old(items)[0], r.value)
                && View() == TakeOne(old(View())) && items == old(items)[1..] && closed == old(closed)
      ensures |old(items)| == 0 ==>
                && View() == old(View())
                && r == (if closed then NoItem(DRAINED) else if doNotBlock then NoItem(OPEN) else Wait)
    {
      if numItems > 0 {
        if closed && numItems == 1 {
          drained := true;
        }
        var status := if closed then CLOSED else OPEN;
        var v := LoadFirst();
        r := Item(status, v);
        numItems := numItems - 1;
        items := items[1..];
      } else if drained {
        r := NoItem(DRAINED);
      } else if doNotBlock {
        r := NoItem(if drained then DRAINED else if closed then CLOSED else OPEN);
      } else {
        r := Wait;
      }
    }

    method LoadFirst() returns (v: Value)
      requires |items| > 0 && rb.Valid() && rb.Aligned()
      requires (forall v :: v in items ==> Storable(vm, v)) && rb.Contents() == Encodings(vm, items)
      modifies rb`rp, rb`rcb
      ensures rb.Valid() && rb.Aligned()
      ensures v == Norm(items[0]) && Same(items[0], v) && rb.Contents() == Encodings(vm, items[1..])
    {
      assert Storable(vm, items[0]);
      SaveAcceptsIff(vm, items[0], false, false);
      RoundTrip(vm, items[0], false, false, Encodings(vm, items[1..]));
      v := Load(vm, rb);
    }

    /** The body of channel_write's loop, repeated until it no longer needs room. */
    method AppendItem(v: Value) returns (code: Code)
      requires Valid() && !closed && Sendable(vm, v)
      modifies this`items, this`numItems, rb, rb.buf
      ensures Valid() && (rb.buf == old(rb.buf) || fresh(rb.buf))
      ensures code == FirstCode(Parts(v), false) && (code == Ok <==> Accepts(v, false))
      ensures items == if code == Ok then old(items) + [v] else old(items)
    {
      var growths;
      code, growths := AppendValue(vm, rb, v, sizeIncrement, false);
      if code == Ok {
        EncodingsAppend(vm, items, v);
        items := items + [v];
        numItems := numItems + 1;
      }
    }

    /** channel_write.  A closed channel takes nothing; an open one takes the values in order up
        to the first that is refused.  `signal` says that one waiting reader is woken. */
    method Write(vs: seq<Value>) returns (r: WriteResult, signal: bool)
      requires Valid() && forall v :: v in vs ==> Sendable(vm, v)
      modifies this, rb, rb.buf
      ensures Valid()
      ensures View() == Accept(old(View()), vs[..GoodPrefix(vs)]) && closed == old(closed)
      ensures old(closed) ==>
                r == Wrote(if old(items) == [] then DRAINED else CLOSED) && items == old(items) && !signal
      ensures !old(closed) && (forall v :: v in vs ==> Accepts(v, false)) ==>
                r == Wrote(OPEN) && items == old(items) + vs && signal
      ensures !old(closed) && GoodPrefix(vs) < |vs| ==>
                && r == Refused(FirstCode(Parts(vs[GoodPrefix(vs)]), false)) && r.code != Ok && !signal
                && items == old(items) + vs[..GoodPrefix(vs)]
    {
      signal := false;
      if drained {
        r := Wrote(DRAINED);
        return;
      } else if closed {
        r := Wrote(CLOSED);
        return;
      }
      r, signal := WriteItems(vs);
    }

    /** The loop of channel_write. */
    method WriteItems(vs: seq<Value>) returns (r: WriteResult, signal: bool)
      requires Valid() && !closed && !drained && forall v :: v in vs ==> Sendable(vm, v)
      modifies this`items, this`numItems, rb, rb.buf
      ensures Valid() && items == old(items) + vs[..GoodPrefix(vs)]
      ensures GoodPrefix(vs) == |vs| ==> r == Wrote(OPEN) && signal
      ensures GoodPrefix(vs) < |vs| ==>
                r == Refused(FirstCode(Parts(vs[GoodPrefix(vs)]), false)) && r.code != Ok && !signal
    {
      var index, code := 0, Ok;
      while index < |vs| && code == Ok
        invariant index <= |vs| && Valid() && (rb.buf == old(rb.buf) || fresh(rb.buf))
        invariant items == old(items) + vs[..index] && index <= GoodPrefix(vs)
        invariant code != Ok ==> index == GoodPrefix(vs) < |vs| && code == FirstCode(Parts(vs[index]), false)
        decreases |vs| - index, code == Ok
      {
        code := AppendItem(vs[index]);
        OneMore(vs, index);
        if code == Ok {
          index := index + 1;
        }
      }
      r, signal := if code == Ok then Wrote(OPEN) else Refused(code), code == Ok;
    }
  }
}

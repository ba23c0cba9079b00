/** What happens after sock_send_msg (src/cliser.c:581-595) refused a message.  It does not roll
    the ring back, so whatever the refused message wrote goes out in front of the next one. */
module Refusal {
  import opened Bytes
  import opened Sequences
  import opened RingBuffer
  import opened Serialize
  import opened Acceptance
  import opened SaveLoad
  import opened Framing

  ghost function Encoding(vm: Vm, v: Value): Out {
    Emit(vm, v, true, false)
  }

  ghost predicate Message(vm: Vm, v: Value) {
    WellFormed(vm, v) && Saveable(vm, v, false)
  }

  /** Values that are refused themselves and not for something inside them.  (Userdata that is sent
      directly does not come this way: src/cliser.c:671 gives it to another function.) */
  predicate Atomic(v: Value) {
    v.Userdata? || v.Nameless? || v.Unsupported?
  }

  /** A function is never refused here: its upvalues do not travel. */
  lemma FunctionsPass(vm: Vm, v: Value)
    requires v.Function? && Saveable(vm, v, false)
    ensures Encoding(vm, v).code == Ok
  {
    if CarriesUpvalues(vm, v, false) {
      assert |v.ups| == 0 && EmitEntries(vm, v.ups, true, false) == Put([]);
    }
  }

  /** A refused message wrote nothing exactly if it is atomic; otherwise it is a table. */
  lemma RefusedKinds(vm: Vm, v: Value)
    requires Saveable(vm, v, false) && !Accepts(v, true)
    ensures Encoding(vm, v).bytes == [] <==> Atomic(v)
    ensures !Atomic(v) ==> v.Table?
  {
    SaveAcceptsIff(vm, v, true, false);
    if v.Function? {
      FunctionsPass(vm, v);
    }
  }

  // ----- what the receiver makes of it -----

  /** Behind what a refused value wrote, the parser takes the next value for the missing part:
      it gets the next value if nothing was written, and runs out of bytes otherwise. */
  lemma {:induction false} RefusedThenValue(vm: Vm, v: Value, s: seq<Byte>, next: Value)
    requires Message(vm, v) && Encoding(vm, v).code != Ok && ParseValue(vm, s) == Got(next, [])
    ensures ParseValue(vm, Encoding(vm, v).bytes + s) == if Atomic(v) then Got(next, []) else Bad
    decreases v, 1
  {
    SaveAcceptsIff(vm, v, true, false);
    RefusedKinds(vm, v);
    if Atomic(v) {
      assert [] + s == s;
    } else {
      var es := EmitEntries(vm, v.entries, true, false);
      RefusedEntries(vm, v.entries, s, next);
      TableStarves(vm, es.bytes, s);
    }
  }

  lemma TableStarves(vm: Vm, es: seq<Byte>, s: seq<Byte>)
    requires var p := ParseEntries(vm, es + s); p.Got? ==> p.rest == []
    ensures ParseValue(vm, [T_TABLE] + es + s) == Bad
  {
    assert ([T_TABLE] + es + s)[1..] == es + s;
  }

  lemma {:induction false} RefusedEntries(vm: Vm, entries: seq<Entry>, s: seq<Byte>, next: Value)
    requires WellFormedEntries(vm, entries) && SaveableEntries(vm, entries, false) && ParseValue(vm, s) == Got(next, [])
    requires EmitEntries(vm, entries, true, false).code != Ok
    ensures var p := ParseEntries(vm, EmitEntries(vm, entries, true, false).bytes + s); p.Got? ==> p.rest == []
    decreases entries, 0
  {
    var e, more := entries[0], EmitEntries(vm, entries[1..], true, false);
    var k, v := Encoding(vm, e.key), Encoding(vm, e.value);
    if k.code != Ok {
      RefusedKey(vm, e, s, next);
    } else if v.code != Ok {
      RefusedPart(vm, e, s, next);
    } else {
      RefusedEntries(vm, entries[1..], s, next);
      RefusedLater(vm, e, more.bytes, s);
    }
  }

  /** The entry's key is refused. */
  lemma {:induction false} RefusedKey(vm: Vm, e: Entry, s: seq<Byte>, next: Value)
    requires WellFormedEntry(vm, e) && SaveableEntry(vm, e, false) && ParseValue(vm, s) == Got(next, [])
    requires Encoding(vm, e.key).code != Ok
    ensures var p := ParseEntries(vm, Encoding(vm, e.key).bytes + s); p.Got? ==> p.rest == []
    decreases e, 2
  {
    RefusedThenValue(vm, e.key, s, next);
  }

  /** The entry's value is refused. */
  lemma {:induction false} RefusedPart(vm: Vm, e: Entry, s: seq<Byte>, next: Value)
    requires WellFormedEntry(vm, e) && SaveableEntry(vm, e, false) && ParseValue(vm, s) == Got(next, [])
    requires Encoding(vm, e.key).code == Ok && Encoding(vm, e.value).code != Ok
    ensures ParseEntries(vm, Encoding(vm, e.key).bytes + Encoding(vm, e.value).bytes + s) == Bad
    decreases e, 2
  {
    var k, v := Encoding(vm, e.key).bytes, Encoding(vm, e.value).bytes;
    RefusedThenValue(vm, e.value, s, next);
    RoundTrip(vm, e.key, true, false, v + s);
    Regroup(k, v, s);
  }

  /** The entry is fine, a later one is refused. */
  lemma RefusedLater(vm: Vm, e: Entry, more: seq<Byte>, s: seq<Byte>)
    requires WellFormedEntry(vm, e) && SaveableEntry(vm, e, false)
    requires Encoding(vm, e.key).code == Ok && Encoding(vm, e.value).code == Ok
    requires var p := ParseEntries(vm, more + s); p.Got? ==> p.rest == []
    ensures var p := ParseEntries(vm, Encoding(vm, e.key).bytes + Encoding(vm, e.value).bytes + more + s); p.Got? ==>
            p.rest == []
  {
    var k, v := Encoding(vm, e.key).bytes, Encoding(vm, e.value).bytes;
    EntryRoundTrip(vm, e, true, false, v + (more + s), more + s);
    LongRegroup(k, v, more, s);
  }

  lemma LongRegroup(k: seq<Byte>, v: seq<Byte>, m: seq<Byte>, s: seq<Byte>)
    ensures k + v + m + s == k + (v + (m + s))
  {
  }

  // ----- the messages after it -----

  /** The body of the next frame, and what the receiver loads from it. */
  lemma NextBody(vm: Vm, bad: Value, next: Value)
    requires Message(vm, bad) && !Accepts(bad, true) && Sendable(vm, next)
    ensures ParseValue(vm, Encoding(vm, bad).bytes + Encoding(vm, next).bytes) ==
            if Atomic(bad) then Got(Norm(next), []) else Bad
    ensures Same(next, Norm(next))
  {
    var s := Encoding(vm, next).bytes;
    SaveAcceptsIff(vm, bad, true, false);
    SaveAcceptsIff(vm, next, true, false);
    RoundTrip(vm, next, true, false, []);
    assert s + [] == s;
    RefusedThenValue(vm, bad, s, Norm(next));
  }

  /** What the frames of the messages vs hold when each is sent behind the same stale bytes. */
  ghost function StaleFrames(vm: Vm, stale: seq<Byte>, vs: seq<Value>): seq<Byte> {
    if |vs| == 0 then []
    else StaleFrames(vm, stale, vs[..|vs| - 1]) + Frame(stale + Encoding(vm, vs[|vs| - 1]).bytes)
  }

  ghost predicate Sendable(vm: Vm, v: Value) {
    Message(vm, v) && Accepts(v, true)
  }

  /** A message that is refused for what it is, over a clean ring, and then any others that are not.
      As long as there is room for them and the socket does not fail, each goes out in one frame
      with what the first one wrote.  So the receiver gets all of them if the first one was
      refused itself, and none otherwise: every frame is malformed. */
  method SendAfterRefusal(vm: Vm, bad: Value, later: seq<Value>, w: Wire, rb: Ring)
    returns (first: SendResult, sent: nat, last: SendResult)
    requires rb.Valid() && rb.Aligned() && rb.rp == rb.rcb == 0
    requires Message(vm, bad) && !Accepts(bad, true) && |Encoding(vm, bad).bytes| <= rb.buf.Length
    requires forall v :: v in later ==> Sendable(vm, v)
    modifies w, rb, rb.buf
    ensures first == Unsaved(FirstCode(Parts(bad), true)) && sent <= |later|
    ensures w.broken == (old(w.broken) || last == SendFailed)
    ensures last != SendFailed ==> w.bytes == old(w.bytes) + StaleFrames(vm, Encoding(vm, bad).bytes, later[..sent])
    ensures sent == |later| ==> last == Sent
    ensures sent < |later| ==>
              || last == SendFailed
              || (last == Unsaved(NoMem)
                && |Encoding(vm, bad).bytes| + |Encoding(vm, later[sent]).bytes| > old(rb.buf.Length))
    ensures forall v :: v in later ==>
              && Same(v, Norm(v))
              && ParseValue(vm, Encoding(vm, bad).bytes + Encoding(vm, v).bytes) ==
                if Atomic(bad) then Got(Norm(v), []) else Bad
  {
    ghost var q, out := rb.View(), Encoding(vm, bad);
    SaveAcceptsIff(vm, bad, true, false);
    AfterRefusal(q, out);
    LaterBodies(vm, bad, later);
    first := SendMsg(vm, bad, w, rb);
    sent, last := SendAllLater(vm, later, w, rb, out.bytes);
  }

  lemma LaterBodies(vm: Vm, bad: Value, later: seq<Value>)
    requires Message(vm, bad) && !Accepts(bad, true) && forall v :: v in later ==> Sendable(vm, v)
    ensures forall v :: v in later ==>
              && Same(v, Norm(v))
              && ParseValue(vm, Encoding(vm, bad).bytes + Encoding(vm, v).bytes) ==
                if Atomic(bad) then Got(Norm(v), []) else Bad
  {
    forall v | v in later
      ensures Same(v, Norm(v))
      ensures ParseValue(vm, Encoding(vm, bad).bytes + Encoding(vm, v).bytes) ==
              if Atomic(bad) then Got(Norm(v), []) else Bad
    {
      assert Sendable(vm, v);
      NextBody(vm, bad, v);
    }
  }

  /** Sends until one fails, over a ring that holds stale bytes. */
  method SendAllLater(vm: Vm, later: seq<Value>, w: Wire, rb: Ring, ghost stale: seq<Byte>)
    returns (sent: nat, last: SendResult)
    requires rb.Valid() && rb.Aligned() && rb.rp == 0 && rb.Contents() == stale
    requires forall v :: v in later ==> Sendable(vm, v)
    modifies w, rb, rb.buf
    ensures sent <= |later| && (sent == |later| ==> last == Sent)
    ensures w.broken == (old(w.broken) || last == SendFailed)
    ensures last != SendFailed ==> w.bytes == old(w.bytes) + StaleFrames(vm, stale, later[..sent])
    ensures sent < |later| ==>
              || last == SendFailed
              || (last == Unsaved(NoMem) && |stale| + |Encoding(vm, later[sent]).bytes| > old(rb.buf.Length))
  {
    sent, last := 0, Sent;
    ghost var before := w.bytes;
    assert before + [] == before;
    while sent < |later| && last == Sent
      invariant sent <= |later| && rb.buf == old(rb.buf) && w.broken == (old(w.broken) || last == SendFailed)
      invariant last == Sent ==> rb.Valid() && rb.Aligned() && rb.rp == 0 && rb.Contents() == stale
      invariant last != SendFailed ==> w.bytes == before + StaleFrames(vm, stale, later[..sent])
      invariant last.Unsaved? ==>
                  last.code == NoMem && sent < |later| && |stale| + |Encoding(vm, later[sent]).bytes| > rb.buf.Length
      invariant last == SendFailed ==> sent < |later|
      decreases |later| - sent, last == Sent
    {
      last := SendLater(vm, later, sent, w, rb, stale, before);
      if last == Sent {
        sent := sent + 1;
      }
    }
  }

  method SendLater(
    vm: Vm, later: seq<Value>, i: nat, w: Wire, rb: Ring, ghost stale: seq<Byte>, ghost before: seq<Byte>)
    returns (r: SendResult)
    requires rb.Valid() && rb.Aligned() && rb.rp == 0 && rb.Contents() == stale
    requires i < |later| && forall v :: v in later ==> Sendable(vm, v)
    requires w.bytes == before + StaleFrames(vm, stale, later[..i])
    modifies w, rb`wp, rb`rcb, rb`savedWp, rb`savedRcb, rb.buf
    ensures w.broken == (old(w.broken) || r == SendFailed)
    ensures r == Sent ==>
              && rb.Valid() && rb.Aligned() && rb.rp == 0 && rb.Contents() == stale
              && w.bytes == before + StaleFrames(vm, stale, later[..i + 1])
    ensures r.Unsaved? ==>
            r.code == NoMem && w.bytes == old(w.bytes) && |stale| + |Encoding(vm, later[i]).bytes| > rb.buf.Length
  {
    assert Sendable(vm, later[i]);
    StaleMore(vm, stale, later, i, before);
    SaveAcceptsIff(vm, later[i], true, false);
    r := SendMsg(vm, later[i], w, rb);
  }

  lemma StaleMore(vm: Vm, stale: seq<Byte>, vs: seq<Value>, i: nat, before: seq<Byte>)
    requires i < |vs|
    ensures before + StaleFrames(vm, stale, vs[..i + 1]) ==
            before + StaleFrames(vm, stale, vs[..i]) + Frame(stale + Encoding(vm, vs[i]).bytes)
  {
    assert vs[..i + 1][..i] == vs[..i];
    Regroup(before, StaleFrames(vm, stale, vs[..i]), Frame(stale + Encoding(vm, vs[i]).bytes));
  }

  /** A message that is too long fills the ring, and nothing can be sent any more. */
  method SendAfterOverflow(vm: Vm, bad: Value, later: seq<Value>, w: Wire, rb: Ring)
    returns (first: SendResult, rs: seq<SendResult>)
    requires rb.Valid() && rb.Aligned() && rb.rp == rb.rcb == 0
    requires Message(vm, bad) && |Encoding(vm, bad).bytes| > rb.buf.Length
    requires forall v :: v in later ==> Sendable(vm, v)
    modifies w, rb, rb.buf
    ensures first == Unsaved(NoMem) && w.bytes == old(w.bytes) && w.broken == old(w.broken)
    ensures |rs| == |later| && forall i :: 0 <= i < |rs| ==> rs[i] == Unsaved(NoMem)
  {
    first := SendMsg(vm, bad, w, rb);
    rs := [];
    while |rs| < |later|
      invariant |rs| <= |later| && w.bytes == old(w.bytes) && w.broken == old(w.broken)
      invariant forall i :: 0 <= i < |rs| ==> rs[i] == Unsaved(NoMem)
      invariant rb.Valid() && rb.Aligned() && rb.rp == 0 && rb.rcb == rb.buf.Length && rb.buf == old(rb.buf)
      decreases |later| - |rs|
    {
      assert Sendable(vm, later[|rs|]);
      SaveAcceptsIff(vm, later[|rs|], true, false);
      FirstByteIsType(vm, later[|rs|], true, false);
      var r := SendMsg(vm, later[|rs|], w, rb);
      rs := rs + [r];
    }
  }

  lemma AfterRefusal(q: ByteQueue, out: Out)
    requires q.bytes == []
    ensures Written(q, out.bytes).bytes == if |out.bytes| <= q.capacity then out.bytes else out.bytes[..q.capacity]
  {
  }

  /** Such a message: a table with something in it that cannot be sent. */
  lemma RefusedTable(vm: Vm, next: Value)
    requires Sendable(vm, next)
    ensures var bad := Table([Entry(Bool(true), Unsupported)], []);
            && Message(vm, bad) && Encoding(vm, bad) == Out([T_TABLE, T_BOOLEAN, 1], Perm)
            && ParseValue(vm, Encoding(vm, bad).bytes + Encoding(vm, next).bytes) == Bad
  {
    var entries := [Entry(Bool(true), Unsupported)];
    var bad := Table(entries, []);
    assert entries[1..] == [];
    assert EmitEntry(vm, entries[0], true, false) == Out([T_BOOLEAN, 1] + [], Perm);
    assert EmitEntries(vm, entries, true, false) == Out([T_BOOLEAN, 1], Perm);
    assert [T_TABLE] + [T_BOOLEAN, 1] == [T_TABLE, T_BOOLEAN, 1];
    NextBody(vm, bad, next);
  }
}

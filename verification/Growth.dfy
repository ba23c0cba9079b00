/** The save/rollback/grow/retry loop of channel_write (src/channel.c:150-167) and of
    workqueue_queue_write (src/workqueue.c:184-208). */
module Growth {
  import opened Arithmetic
  import opened Bytes
  import opened RingBuffer
  import opened Serialize
  import opened Acceptance
  import opened SaveLoad

  function Shortfall(need: nat, free: int): nat {
    if need <= free then 0 else need - free
  }

  /** How often `short` bytes of missing room can be reduced by inc. */
  function Rounds(short: nat, inc: nat): nat
    requires inc > 0
    decreases short
  {
    if short == 0 then 0 else 1 + Rounds(if short <= inc then 0 else short - inc, inc)
  }

  lemma {:induction false} RoundsIsCeilDiv(short: nat, inc: nat)
    requires inc > 0
    ensures Rounds(short, inc) == CeilDiv(short, inc)
    decreases short
  {
    if short == 0 {
      DivMod(inc, 0, inc - 1);
    } else if short <= inc {
      DivMod(inc, 1, short - 1);
    } else {
      RoundsIsCeilDiv(short - inc, inc);
      var q, r := (short - inc + inc - 1) / inc, (short - inc + inc - 1) % inc;
      assert short + inc - 1 == inc * (q + 1) + r by { assert inc * (q + 1) == inc * q + inc; }
      DivMod(inc, q + 1, r);
    }
  }

  /** What the ring holds when an attempt to save returned code: one encoding more, or what it held. */
  function After(contents: seq<Byte>, out: Out, code: Code): seq<Byte> {
    if code == Ok then contents + out.bytes else contents
  }

  /** push, save and, unless the save succeeded, pop. */
  method TrySave(vm: Vm, rb: Ring, v: Value, upval: bool) returns (code: Code)
    requires rb.Valid() && rb.Aligned() && Saveable(vm, v, upval)
    modifies rb`wp, rb`rcb, rb`savedWp, rb`savedRcb, rb.buf
    ensures rb.Valid() && rb.Aligned()
    ensures code == SaveCode(Emit(vm, v, false, upval), old(rb.View()).Free())
    ensures rb.Contents() == After(old(rb.Contents()), Emit(vm, v, false, upval), code)
  {
    ghost var bytes := Emit(vm, v, false, upval).bytes;
    rb.PushWritePos();
    ghost var q := rb.View();
    code := Save(vm, rb, v, false, upval);
    RollBackOne(q, bytes);
    if code != Ok {
      rb.PopWritePos();
    }
  }

  /** Appends one value.  It grows the ring exactly as often as the missing room requires,
      appends exactly one encoding to the old bytes, or, when the value is refused, leaves the
      old bytes as they were. */
  method AppendValue(vm: Vm, rb: Ring, v: Value, inc: nat, upval: bool) returns (code: Code, growths: nat)
    requires rb.Valid() && rb.Aligned() && inc > 0 && Saveable(vm, v, upval)
    modifies rb, rb.buf
    ensures rb.Valid() && rb.Aligned() && (rb.buf == old(rb.buf) || fresh(rb.buf))
    ensures code == FirstCode(Parts(v), false) && (code == Ok <==> Accepts(v, false))
    ensures growths == CeilDiv(Shortfall(|Emit(vm, v, false, upval).bytes|, old(rb.View()).Free()), inc)
    ensures rb.buf.Length == old(rb.buf.Length) + inc * growths
    ensures rb.Contents() == After(old(rb.Contents()), Emit(vm, v, false, upval), code)
  {
    SaveAcceptsIff(vm, v, false, upval);
    code, growths := GrowUntilSaved(vm, rb, v, inc, upval);
    RoundsIsCeilDiv(Shortfall(|Emit(vm, v, false, upval).bytes|, old(rb.View()).Free()), inc);
    TimesIsProduct(inc, growths);
  }

  method GrowUntilSaved(vm: Vm, rb: Ring, v: Value, inc: nat, upval: bool) returns (code: Code, growths: nat)
    requires rb.Valid() && rb.Aligned() && inc > 0 && Saveable(vm, v, upval)
    modifies rb, rb.buf
    ensures rb.Valid() && rb.Aligned() && (rb.buf == old(rb.buf) || fresh(rb.buf))
    ensures code == Emit(vm, v, false, upval).code
    ensures growths == Rounds(Shortfall(|Emit(vm, v, false, upval).bytes|, old(rb.View()).Free()), inc)
    ensures rb.buf.Length == old(rb.buf.Length) + Times(inc, growths)
    ensures rb.Contents() == After(old(rb.Contents()), Emit(vm, v, false, upval), code)
  {
    growths := 0;
    ghost var out := Emit(vm, v, false, upval);
    ghost var contents := rb.Contents();
    NeverNoMem(vm, v, false, upval);
    code := TrySave(vm, rb, v, upval);
    if code == NoMem {
      code, growths := GrowLoop(vm, rb, v, inc, upval, out, contents);
    }
  }

  /** The loop, once a first attempt found no room. */
  method GrowLoop(vm: Vm, rb: Ring, v: Value, inc: nat, upval: bool, ghost out: Out, ghost contents: seq<Byte>)
    returns (code: Code, growths: nat)
    requires rb.Valid() && rb.Aligned() && inc > 0 && Saveable(vm, v, upval) && out == Emit(vm, v, false, upval)
    requires rb.Contents() == contents && |out.bytes| > rb.buf.Length - |contents| && out.code != NoMem
    modifies rb, rb.buf
    ensures rb.Valid() && rb.Aligned() && fresh(rb.buf)
    ensures code == out.code && rb.Contents() == After(contents, out, code)
    ensures growths == Rounds(Shortfall(|out.bytes|, old(rb.buf.Length) - |contents|), inc)
    ensures rb.buf.Length == old(rb.buf.Length) + Times(inc, growths)
  {
    ghost var cap, total := rb.buf.Length, Rounds(Shortfall(|out.bytes|, rb.buf.Length - |contents|), inc);
    code, growths := NoMem, 0;
    while code == NoMem
      invariant rb.Valid() && rb.Aligned() && (growths == 0 || fresh(rb.buf))
      invariant rb.buf.Length == cap + Times(inc, growths) && code == SaveCode(out, rb.buf.Length - |contents|)
      invariant rb.Contents() == After(contents, out, code)
      invariant total == growths + Rounds(Shortfall(|out.bytes|, rb.buf.Length - |contents|), inc)
      decreases Shortfall(|out.bytes|, rb.buf.Length - |contents|)
    {
      code := GrowAndTry(vm, rb, v, inc, upval);
      growths := growths + 1;
    }
  }

  method GrowAndTry(vm: Vm, rb: Ring, v: Value, inc: nat, upval: bool) returns (code: Code)
    requires rb.Valid() && inc > 0 && Saveable(vm, v, upval)
    modifies rb
    ensures rb.Valid() && rb.Aligned() && fresh(rb.buf) && rb.buf.Length == old(rb.buf.Length) + inc
    ensures code == SaveCode(Emit(vm, v, false, upval), rb.buf.Length - old(rb.rcb))
    ensures rb.Contents() == After(old(rb.Contents()), Emit(vm, v, false, upval), code)
  {
    rb.GrowBy(inc);
    code := TrySave(vm, rb, v, upval);
  }

  lemma RollBackOne(q: ByteQueue, bytes: seq<Byte>)
    requires |q.bytes| <= q.capacity && q.mark == |q.bytes|
    ensures q.mark <= |Written(q, bytes).bytes| && RolledBack(Written(q, bytes)).bytes == q.bytes
    ensures |bytes| <= q.Free() ==> Written(q, bytes).bytes == q.bytes + bytes
  {
    assert |bytes| <= q.Free() ==> bytes[..|bytes|] == bytes;
  }

  /** A value's own refusal is never mistaken for a lack of room. */
  lemma {:induction false} NeverNoMem(vm: Vm, v: Value, oop: bool, upval: bool)
    ensures Emit(vm, v, oop, upval).code != NoMem
    decreases v, 1
  {
    match v
    case Table(entries, meta) => NeverNoMemEntries(vm, v.entries, oop, upval);
    case Function(dump, env, ups) => NeverNoMemEntries(vm, v.ups, oop, upval);
    case _ =>
  }

  lemma {:induction false} NeverNoMemEntries(vm: Vm, entries: seq<Entry>, oop: bool, upval: bool)
    ensures EmitEntries(vm, entries, oop, upval).code != NoMem
    decreases entries, 0
  {
    if |entries| == 0 {
    } else {
      NeverNoMemEntry(vm, entries[0], oop, upval);
      NeverNoMemEntries(vm, entries[1..], oop, upval);
    }
  }

  lemma {:induction false} NeverNoMemEntry(vm: Vm, e: Entry, oop: bool, upval: bool)
    ensures EmitEntry(vm, e, oop, upval).code != NoMem
    decreases e, 2
  {
    NeverNoMem(vm, e.key, oop, upval);
    NeverNoMem(vm, e.value, oop, upval);
  }
}

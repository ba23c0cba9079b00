/** rb_save and rb_load of src/serialize.c over the ring. */
module SaveLoad {
  import opened Bytes
  import opened Sequences
  import opened RingBuffer
  import opened Serialize
  import opened Acceptance

  /** What a save returns when there is room for `free` bytes. */
  function SaveCode(out: Out, free: int): Code {
    if |out.bytes| <= free then out.code else NoMem
  }

  /** A save that is followed by another only if it succeeds. */
  lemma Follows(q: ByteQueue, a: Out, b: Out)
    requires |q.bytes| <= q.capacity
    ensures |Written(q, a.bytes).bytes| <= q.capacity
    ensures SaveCode(a, q.Free()) == Ok ==>
              && Written(Written(q, a.bytes), b.bytes) == Written(q, Then(a, b).bytes)
              && SaveCode(b, Written(q, a.bytes).Free()) == SaveCode(Then(a, b), q.Free())
    ensures SaveCode(a, q.Free()) != Ok ==>
              && Written(q, a.bytes) == Written(q, Then(a, b).bytes)
              && SaveCode(a, q.Free()) == SaveCode(Then(a, b), q.Free())
  {
    PiecesAreTheWhole(q, a.bytes, b.bytes);
    if |a.bytes| > q.Free() {
      assert (a.bytes + b.bytes)[..q.Free()] == a.bytes[..q.Free()];
    }
  }

  /** RB_WRITE */
  method PutBytes(rb: Ring, s: seq<Byte>) returns (code: Code)
    requires rb.Valid() && rb.Aligned()
    modifies rb`wp, rb`rcb, rb.buf
    ensures rb.Valid() && rb.Aligned() && (old(rb.MarkHolds()) ==> rb.MarkHolds())
    ensures rb.View() == Written(old(rb.View()), s)
    ensures code == SaveCode(Put(s), old(rb.View()).Free())
  {
    var n := rb.Write(s);
    code := if n != |s| then NoMem else Ok;
  }

  /** A length and the bytes it announces. */
  method PutSized(rb: Ring, s: seq<Byte>) returns (code: Code)
    requires rb.Valid() && rb.Aligned()
    modifies rb`wp, rb`rcb, rb.buf
    ensures rb.Valid() && rb.Aligned() && (old(rb.MarkHolds()) ==> rb.MarkHolds())
    ensures rb.View() == Written(old(rb.View()), SizedBytes(s))
    ensures code == SaveCode(Put(SizedBytes(s)), old(rb.View()).Free())
  {
    Follows(rb.View(), Put(SizeBytes(|s|)), Put(s));
    code := PutBytes(rb, SizeBytes(|s|));
    if code == Ok {
      code := PutBytes(rb, s);
    }
  }

  /** rb_lua_writer: `data` shrinks as its chunks are written. */
  method WriteChunks(rb: Ring, piece: seq<Byte>) returns (code: Code)
    requires rb.Valid() && rb.Aligned()
    modifies rb`wp, rb`rcb, rb.buf
    ensures rb.Valid() && rb.Aligned() && (old(rb.MarkHolds()) ==> rb.MarkHolds())
    ensures rb.View() == Written(old(rb.View()), Chunks(piece))
    ensures code == SaveCode(Put(Chunks(piece)), old(rb.View()).Free())
  {
    var data := piece;
    ghost var q, done := rb.View(), [];
    while |data| > 0
      invariant rb.Valid() && rb.Aligned() && (old(rb.MarkHolds()) ==> rb.MarkHolds())
      invariant Chunks(piece) == done + Chunks(data)
      invariant rb.View() == Written(q, done) && |done| <= q.Free()
      decreases |data|
    {
      var n := if CHUNK_SIZE < |data| then CHUNK_SIZE else |data|;
      ghost var chunk := SizedBytes(data[..n]);
      Follows(q, Put(done), Put(chunk));
      Follows(q, Put(done + chunk), Put(Chunks(data[n..])));
      Regroup(done, chunk, Chunks(data[n..]));
      code := PutSized(rb, data[..n]);
      if code != Ok {
        return;
      }
      data := data[n..];
      done := done + chunk;
    }
    assert done + Chunks(data) == done;
    code := Ok;
  }

  /** lua_dump: hands its pieces to the writer and stops at the first refusal. */
  method WriteDump(rb: Ring, dump: seq<seq<Byte>>) returns (code: Code)
    requires rb.Valid() && rb.Aligned()
    modifies rb`wp, rb`rcb, rb.buf
    ensures rb.Valid() && rb.Aligned() && (old(rb.MarkHolds()) ==> rb.MarkHolds())
    ensures rb.View() == Written(old(rb.View()), AllChunks(dump))
    ensures code == SaveCode(Put(AllChunks(dump)), old(rb.View()).Free())
  {
    ghost var q, done := rb.View(), [];
    for i := 0 to |dump|
      invariant rb.Valid() && rb.Aligned() && (old(rb.MarkHolds()) ==> rb.MarkHolds())
      invariant AllChunks(dump) == done + AllChunks(dump[i..])
      invariant rb.View() == Written(q, done) && |done| <= q.Free()
    {
      ghost var chunk, rest := Chunks(dump[i]), AllChunks(dump[i + 1..]);
      assert dump[i..][1..] == dump[i + 1..];
      Follows(q, Put(done), Put(chunk));
      Follows(q, Put(done + chunk), Put(rest));
      Regroup(done, chunk, rest);
      code := WriteChunks(rb, dump[i]);
      if code != Ok {
        return;
      }
      done := done + chunk;
    }
    assert dump[|dump|..] == [] && done + [] == done;
    code := Ok;
  }

  /** rb_save.  Whatever the room: the ring holds its old bytes and as much of the encoding as
      fits, and the code says NoMem exactly when not all of it does, and otherwise Ok exactly for
      the values that are accepted. */
  method Save(vm: Vm, rb: Ring, v: Value, oop: bool, upval: bool) returns (code: Code)
    requires rb.Valid() && rb.Aligned() && Saveable(vm, v, upval)
    modifies rb`wp, rb`rcb, rb.buf
    ensures rb.Valid() && rb.Aligned() && (old(rb.MarkHolds()) ==> rb.MarkHolds())
    ensures rb.View() == Written(old(rb.View()), Emit(vm, v, oop, upval).bytes)
    ensures code == SaveCode(Emit(vm, v, oop, upval), old(rb.View()).Free())
    ensures code == Ok <==> Accepts(v, oop) && |Emit(vm, v, oop, upval).bytes| <= old(rb.View()).Free()
    ensures code != Ok && code != NoMem ==> code == FirstCode(Parts(v), oop)
    decreases v, 3
  {
    SaveAcceptsIff(vm, v, oop, upval);
    match v
    case Table(_, _) => code := SaveTable(vm, rb, v, oop, upval);
    case Function(_, _, _) => code := SaveFunction(vm, rb, v, oop, upval);
    case Userdata(_, _, _, _) => code := SaveOrRefuse(vm, rb, v, oop, upval);
    case Nameless => code := SaveOrRefuse(vm, rb, v, oop, upval);
    case Unsupported => code := SaveOrRefuse(vm, rb, v, oop, upval);
    case _ => code := SavePlain(vm, rb, v, oop, upval);
  }

  method SavePlain(vm: Vm, rb: Ring, v: Value, oop: bool, upval: bool) returns (code: Code)
    requires rb.Valid() && rb.Aligned() && (v.Nil? || v.Bool? || v.Number? || v.Integer? || v.Str?)
    modifies rb`wp, rb`rcb, rb.buf
    ensures rb.Valid() && rb.Aligned() && (old(rb.MarkHolds()) ==> rb.MarkHolds())
    ensures rb.View() == Written(old(rb.View()), Emit(vm, v, oop, upval).bytes)
    ensures code == SaveCode(Emit(vm, v, oop, upval), old(rb.View()).Free())
  {
    match v
    case Nil => code := PutBytes(rb, [T_NIL]);
    case Bool(b) =>
      var flag: Byte := if b then 1 else 0;
      code := PutTwo(rb, [T_BOOLEAN], [flag]);
    case Number(bits) => code := PutTwo(rb, [T_NUMBER], bits);
    case Integer(bits) => code := PutTwo(rb, [T_INTEGER], bits);
    case Str(s) => code := PutTwoSized(rb, [T_STRING], s);
  }

  /** Userdata travels only inside the process, and only if it can be retained. */
  method SaveOrRefuse(vm: Vm, rb: Ring, v: Value, oop: bool, upval: bool) returns (code: Code)
    requires rb.Valid() && rb.Aligned() && (v.Userdata? || v.Nameless? || v.Unsupported?)
    modifies rb`wp, rb`rcb, rb.buf
    ensures rb.Valid() && rb.Aligned() && (old(rb.MarkHolds()) ==> rb.MarkHolds())
    ensures rb.View() == Written(old(rb.View()), Emit(vm, v, oop, upval).bytes)
    ensures code == SaveCode(Emit(vm, v, oop, upval), old(rb.View()).Free())
  {
    if v.Userdata? && !oop {
      code := SaveUserdata(rb, v.torch, v.name, v.ptr, v.retains);
    } else {
      NothingWritten(rb.View());
      code := if v.Nameless? && !oop then Inval else Perm;
    }
  }

  lemma NothingWritten(q: ByteQueue)
    requires |q.bytes| <= q.capacity
    ensures Written(q, []) == q
  {
  }

  method PutTwo(rb: Ring, a: seq<Byte>, b: seq<Byte>) returns (code: Code)
    requires rb.Valid() && rb.Aligned()
    modifies rb`wp, rb`rcb, rb.buf
    ensures rb.Valid() && rb.Aligned() && (old(rb.MarkHolds()) ==> rb.MarkHolds())
    ensures rb.View() == Written(old(rb.View()), a + b)
    ensures code == SaveCode(Put(a + b), old(rb.View()).Free())
  {
    Follows(rb.View(), Put(a), Put(b));
    code := PutBytes(rb, a);
    if code == Ok {
      code := PutBytes(rb, b);
    }
  }

  method PutTwoSized(rb: Ring, a: seq<Byte>, b: seq<Byte>) returns (code: Code)
    requires rb.Valid() && rb.Aligned()
    modifies rb`wp, rb`rcb, rb.buf
    ensures rb.Valid() && rb.Aligned() && (old(rb.MarkHolds()) ==> rb.MarkHolds())
    ensures rb.View() == Written(old(rb.View()), a + SizedBytes(b))
    ensures code == SaveCode(Put(a + SizedBytes(b)), old(rb.View()).Free())
  {
    Follows(rb.View(), Put(a), Put(SizedBytes(b)));
    code := PutBytes(rb, a);
    if code == Ok {
      code := PutSized(rb, b);
    }
  }

  method SaveUserdata(rb: Ring, torch: bool, name: seq<Byte>, ptr: seq<Byte>, retains: bool) returns (code: Code)
    requires rb.Valid() && rb.Aligned()
    modifies rb`wp, rb`rcb, rb.buf
    ensures rb.Valid() && rb.Aligned() && (old(rb.MarkHolds()) ==> rb.MarkHolds())
    ensures var tag := [if torch then T_USERDATA else T_NAMED_USERDATA];
            && rb.View() == Written(old(rb.View()), tag + SizedBytes(name) + ptr)
            && code == SaveCode(Out(tag + SizedBytes(name) + ptr, if retains then Ok else Inval), old(rb.View()).Free())
  {
    var tag: seq<Byte> := [if torch then T_USERDATA else T_NAMED_USERDATA];
    Follows(rb.View(), Put(tag + SizedBytes(name)), Put(ptr));
    code := PutTwoSized(rb, tag, name);
    if code == Ok {
      code := PutBytes(rb, ptr);
      if code == Ok && !retains {
        code := Inval;
      }
    }
  }

  method SaveTable(vm: Vm, rb: Ring, v: Value, oop: bool, upval: bool) returns (code: Code)
    requires v.Table? && rb.Valid() && rb.Aligned() && Saveable(vm, v, upval)
    modifies rb`wp, rb`rcb, rb.buf
    ensures rb.Valid() && rb.Aligned() && (old(rb.MarkHolds()) ==> rb.MarkHolds())
    ensures rb.View() == Written(old(rb.View()), Emit(vm, v, oop, upval).bytes)
    ensures code == SaveCode(Emit(vm, v, oop, upval), old(rb.View()).Free())
    decreases v, 2
  {
    Follows(rb.View(), Put([T_TABLE]), Then(EmitEntries(vm, v.entries, oop, upval), Put([T_NIL] + SizedBytes(v.meta))));
    code := PutBytes(rb, [T_TABLE]);
    if code == Ok {
      code := SaveTableRest(vm, rb, v.entries, v.meta, oop, upval);
    }
  }

  /** The loop over a table's entries, the nil that ends it and the metatable's name. */
  method SaveTableRest(vm: Vm, rb: Ring, entries: seq<Entry>, meta: seq<Byte>, oop: bool, upval: bool)
    returns (code: Code)
    requires rb.Valid() && rb.Aligned() && SaveableEntries(vm, entries, upval)
    modifies rb`wp, rb`rcb, rb.buf
    ensures rb.Valid() && rb.Aligned() && (old(rb.MarkHolds()) ==> rb.MarkHolds())
    ensures var out := Then(EmitEntries(vm, entries, oop, upval), Put([T_NIL] + SizedBytes(meta)));
            rb.View() == Written(old(rb.View()), out.bytes) && code == SaveCode(out, old(rb.View()).Free())
    decreases entries, 1
  {
    Follows(rb.View(), EmitEntries(vm, entries, oop, upval), Put([T_NIL] + SizedBytes(meta)));
    code := SaveEntries(vm, rb, entries, oop, upval);
    if code == Ok {
      code := PutTwoSized(rb, [T_NIL], meta);
    }
  }

  lemma {:induction false} SaveableAt(vm: Vm, entries: seq<Entry>, upval: bool, i: nat)
    requires SaveableEntries(vm, entries, upval) && i < |entries|
    ensures SaveableEntry(vm, entries[i], upval)
  {
    if i == 0 {
    } else {
      SaveableAt(vm, entries[1..], upval, i - 1);
    }
  }

  lemma EntriesUnfold(vm: Vm, entries: seq<Entry>, oop: bool, upval: bool, i: nat)
    requires i < |entries|
    ensures EmitEntries(vm, entries[i..], oop, upval) ==
            Then(EmitEntry(vm, entries[i], oop, upval), EmitEntries(vm, entries[i + 1..], oop, upval))
  {
    assert entries[i..][1..] == entries[i + 1..];
  }

  lemma EntriesEnds(vm: Vm, entries: seq<Entry>, oop: bool, upval: bool, done: seq<Byte>)
    ensures Then(Put([]), EmitEntries(vm, entries[0..], oop, upval)) == EmitEntries(vm, entries, oop, upval)
    ensures Then(Put(done), EmitEntries(vm, entries[|entries|..], oop, upval)) == Put(done)
  {
    assert entries[0..] == entries;
    assert [] + EmitEntries(vm, entries, oop, upval).bytes == EmitEntries(vm, entries, oop, upval).bytes;
    assert done + [] == done;
  }

  method SaveEntries(vm: Vm, rb: Ring, entries: seq<Entry>, oop: bool, upval: bool) returns (code: Code)
    requires rb.Valid() && rb.Aligned() && SaveableEntries(vm, entries, upval)
    modifies rb`wp, rb`rcb, rb.buf
    ensures rb.Valid() && rb.Aligned() && (old(rb.MarkHolds()) ==> rb.MarkHolds())
    ensures var out := EmitEntries(vm, entries, oop, upval);
            rb.View() == Written(old(rb.View()), out.bytes) && code == SaveCode(out, old(rb.View()).Free())
    decreases entries, 0, 2
  {
    ghost var q, all := rb.View(), EmitEntries(vm, entries, oop, upval);
    SavingBegins(vm, entries, oop, upval, q);
    ghost var done;
    code, done := SaveLoop(vm, rb, entries, oop, upval, all, q);
    if code == Ok {
      SavingEnds(vm, entries, oop, upval, all, q, done);
    }
  }

  method SaveLoop(vm: Vm, rb: Ring, entries: seq<Entry>, oop: bool, upval: bool, ghost all: Out, ghost q: ByteQueue)
    returns (code: Code, ghost done: seq<Byte>)
    requires rb.Valid() && rb.Aligned() && SaveableEntries(vm, entries, upval)
    requires SavedSoFar(vm, entries, oop, upval, 0, all, q, []) && rb.View() == Written(q, [])
    modifies rb`wp, rb`rcb, rb.buf
    ensures rb.Valid() && rb.Aligned() && (old(rb.MarkHolds()) ==> rb.MarkHolds())
    ensures code == Ok ==> SavedSoFar(vm, entries, oop, upval, |entries|, all, q, done) && rb.View() == Written(q, done)
    ensures code != Ok ==> rb.View() == Written(q, all.bytes) && code == SaveCode(all, q.Free())
    decreases entries, 0, 1
  {
    code, done := Ok, [];
    for i := 0 to |entries|
      invariant rb.Valid() && rb.Aligned() && (old(rb.MarkHolds()) ==> rb.MarkHolds())
      invariant SavedSoFar(vm, entries, oop, upval, i, all, q, done) && rb.View() == Written(q, done) && code == Ok
    {
      code, done := SaveNext(vm, rb, entries, i, oop, upval, all, q, done);
      if code != Ok {
        return;
      }
    }
  }

  lemma SavingBegins(vm: Vm, entries: seq<Entry>, oop: bool, upval: bool, q: ByteQueue)
    requires |q.bytes| <= q.capacity
    ensures SavedSoFar(vm, entries, oop, upval, 0, EmitEntries(vm, entries, oop, upval), q, []) && q == Written(q, [])
  {
    EntriesEnds(vm, entries, oop, upval, []);
    NothingWritten(q);
  }

  lemma SavingEnds(vm: Vm, entries: seq<Entry>, oop: bool, upval: bool, all: Out, q: ByteQueue, done: seq<Byte>)
    requires SavedSoFar(vm, entries, oop, upval, |entries|, all, q, done)
    ensures all == Put(done) && SaveCode(all, q.Free()) == Ok
  {
    EntriesEnds(vm, entries, oop, upval, done);
  }

  /** Of what all the entries emit, the first i have emitted `done`, for which q had room. */
  ghost predicate SavedSoFar(
    vm: Vm, entries: seq<Entry>, oop: bool, upval: bool, i: nat, all: Out, q: ByteQueue, done: seq<Byte>) {
    && i <= |entries| && |q.bytes| <= q.capacity && |done| <= q.Free()
    && all == Then(Put(done), EmitEntries(vm, entries[i..], oop, upval))
  }

  /** One turn of the loop. */
  method SaveNext(
    vm: Vm, rb: Ring, entries: seq<Entry>, i: nat, oop: bool, upval: bool, ghost all: Out, ghost q: ByteQueue,
      ghost done: seq<Byte>)
    returns (code: Code, ghost more: seq<Byte>)
    requires rb.Valid() && rb.Aligned() && SaveableEntries(vm, entries, upval) && i < |entries|
    requires SavedSoFar(vm, entries, oop, upval, i, all, q, done) && rb.View() == Written(q, done)
    modifies rb`wp, rb`rcb, rb.buf
    ensures rb.Valid() && rb.Aligned() && (old(rb.MarkHolds()) ==> rb.MarkHolds())
    ensures code == Ok ==> SavedSoFar(vm, entries, oop, upval, i + 1, all, q, more) && rb.View() == Written(q, more)
    ensures code != Ok ==> rb.View() == Written(q, all.bytes) && code == SaveCode(all, q.Free())
    decreases entries, 0, 0
  {
    ghost var one, rest := EmitEntry(vm, entries[i], oop, upval), EmitEntries(vm, entries[i + 1..], oop, upval);
    EntriesUnfold(vm, entries, oop, upval, i);
    EntryFollows(q, done, one, rest);
    SaveableAt(vm, entries, upval, i);
    code := SaveEntry(vm, rb, entries[i], oop, upval);
    more := done + one.bytes;
  }

  /** After `done`, one more entry and then the rest. */
  lemma EntryFollows(q: ByteQueue, done: seq<Byte>, one: Out, rest: Out)
    requires |q.bytes| <= q.capacity && |done| <= q.Free()
    ensures |Written(q, done).bytes| <= q.capacity
    ensures var all := Then(Put(done), Then(one, rest)); var code := SaveCode(one, Written(q, done).Free());
            if code == Ok then
              && Written(Written(q, done), one.bytes) == Written(q, done + one.bytes) && |done + one.bytes| <= q.Free()
              && all == Then(Put(done + one.bytes), rest)
            else
              Written(Written(q, done), one.bytes) == Written(q, all.bytes) && code == SaveCode(all, q.Free())
  {
    Follows(q, Put(done), one);
    Follows(q, Then(Put(done), one), rest);
    Regroup(done, one.bytes, rest.bytes);
  }

  method SaveEntry(vm: Vm, rb: Ring, e: Entry, oop: bool, upval: bool) returns (code: Code)
    requires rb.Valid() && rb.Aligned() && SaveableEntry(vm, e, upval)
    modifies rb`wp, rb`rcb, rb.buf
    ensures rb.Valid() && rb.Aligned() && (old(rb.MarkHolds()) ==> rb.MarkHolds())
    ensures var out := EmitEntry(vm, e, oop, upval);
            rb.View() == Written(old(rb.View()), out.bytes) && code == SaveCode(out, old(rb.View()).Free())
    decreases e, 4
  {
    Follows(rb.View(), Emit(vm, e.key, oop, upval), Emit(vm, e.value, oop, upval));
    code := Save(vm, rb, e.key, oop, upval);
    if code == Ok {
      code := Save(vm, rb, e.value, oop, upval);
    }
  }

  /** The dumped body, its end marker, the flag, and the upvalues if they travel. */
  method SaveFunction(vm: Vm, rb: Ring, v: Value, oop: bool, upval: bool) returns (code: Code)
    requires v.Function? && rb.Valid() && rb.Aligned() && Saveable(vm, v, upval)
    modifies rb`wp, rb`rcb, rb.buf
    ensures rb.Valid() && rb.Aligned() && (old(rb.MarkHolds()) ==> rb.MarkHolds())
    ensures rb.View() == Written(old(rb.View()), Emit(vm, v, oop, upval).bytes)
    ensures code == SaveCode(Emit(vm, v, oop, upval), old(rb.View()).Free())
    decreases v, 2
  {
    var carries := CarriesUpvalues(vm, v, upval);
    var flag := if carries then 1 else 0;
    ghost var head := Put([T_FUNCTION] + AllChunks(v.dump) + SizeBytes(0) + IntBytes(flag));
    ghost var tail := if carries then UpvaluesOut(vm, v, oop, upval) else Put([]);
    Follows(rb.View(), head, tail);
    code := SaveFunctionHead(rb, v.dump, flag);
    if code == Ok {
      if carries {
        code := SaveUpvalues(vm, rb, v, oop, upval);
      } else {
        NothingWritten(rb.View());
      }
    }
  }

  method SaveFunctionHead(rb: Ring, dump: seq<seq<Byte>>, flag: int) returns (code: Code)
    requires rb.Valid() && rb.Aligned()
    modifies rb`wp, rb`rcb, rb.buf
    ensures rb.Valid() && rb.Aligned() && (old(rb.MarkHolds()) ==> rb.MarkHolds())
    ensures var head := [T_FUNCTION] + AllChunks(dump) + SizeBytes(0) + IntBytes(flag);
            rb.View() == Written(old(rb.View()), head) && code == SaveCode(Put(head), old(rb.View()).Free())
  {
    var marker := SizeBytes(0);
    ghost var q := rb.View();
    Follows(q, Put([T_FUNCTION]), Put(AllChunks(dump)));
    Follows(q, Put([T_FUNCTION] + AllChunks(dump)), Put(marker + IntBytes(flag)));
    Regroup([T_FUNCTION] + AllChunks(dump), marker, IntBytes(flag));
    code := PutBytes(rb, [T_FUNCTION]);
    if code == Ok {
      code := WriteDump(rb, dump);
      if code == Ok {
        code := PutTwo(rb, marker, IntBytes(flag));
      }
    }
  }

  ghost function UpvaluesOut(vm: Vm, v: Value, oop: bool, upval: bool): Out
    requires v.Function?
  {
    Then(Put(IntBytes(if v.env == 0 then -1 else v.env) + [T_TABLE]),
         Then(EmitEntries(vm, v.ups, oop, upval), Put([T_NIL] + SizedBytes([]))))
  }

  method SaveUpvalues(vm: Vm, rb: Ring, v: Value, oop: bool, upval: bool) returns (code: Code)
    requires v.Function? && rb.Valid() && rb.Aligned() && SaveableEntries(vm, v.ups, upval)
    modifies rb`wp, rb`rcb, rb.buf
    ensures rb.Valid() && rb.Aligned() && (old(rb.MarkHolds()) ==> rb.MarkHolds())
    ensures rb.View() == Written(old(rb.View()), UpvaluesOut(vm, v, oop, upval).bytes)
    ensures code == SaveCode(UpvaluesOut(vm, v, oop, upval), old(rb.View()).Free())
    decreases v, 1
  {
    var envIdx := if v.env == 0 then -1 else v.env;
    Follows(rb.View(), Put(IntBytes(envIdx) + [T_TABLE]),
      Then(EmitEntries(vm, v.ups, oop, upval), Put([T_NIL] + SizedBytes([]))));
    code := PutTwo(rb, IntBytes(envIdx), [T_TABLE]);
    if code == Ok {
      code := SaveTableRest(vm, rb, v.ups, [], oop, upval);
    }
  }

  // ----- loading -----

  /** RB_READ, where the stream is known to hold the bytes. */
  method GetBytes(rb: Ring, n: nat) returns (s: seq<Byte>)
    requires rb.Valid() && Take(rb.Contents(), n).Got?
    modifies rb`rp, rb`rcb
    ensures rb.Valid() && (old(rb.Aligned()) ==> rb.Aligned())
    ensures Take(old(rb.Contents()), n) == Got(s, rb.Contents())
  {
    ghost var before := rb.Contents();
    s := rb.Read(n);
    assert before[..n] == s && before[n..] == rb.Contents();
  }

  method GetSized(rb: Ring) returns (s: seq<Byte>)
    requires rb.Valid() && TakeSized(rb.Contents()).Got?
    modifies rb`rp, rb`rcb
    ensures rb.Valid() && (old(rb.Aligned()) ==> rb.Aligned())
    ensures TakeSized(old(rb.Contents())) == Got(s, rb.Contents())
  {
    var size := GetBytes(rb, SIZE);
    s := GetBytes(rb, FromLittleEndian(size));
  }

  /** lua_load over rb_lua_reader, and the marker if the loader left it. */
  method LoadBody(vm: Vm, rb: Ring) returns (body: seq<Byte>)
    requires rb.Valid() && TakeBody(vm, rb.Contents(), []).Got?
    modifies rb`rp, rb`rcb
    ensures rb.Valid() && (old(rb.Aligned()) ==> rb.Aligned())
    ensures TakeBody(vm, old(rb.Contents()), []) == Got(body, rb.Contents())
  {
    body := [];
    while vm.readsMarker || !vm.whole(body)
      invariant rb.Valid() && (old(rb.Aligned()) ==> rb.Aligned())
      invariant TakeBody(vm, rb.Contents(), body) == TakeBody(vm, old(rb.Contents()), [])
      decreases rb.rcb
    {
      var size := GetBytes(rb, SIZE);
      var n := FromLittleEndian(size);
      if n == 0 {
        return;
      }
      var chunk := GetBytes(rb, n);
      body := body + chunk;
    }
    var marker := GetBytes(rb, SIZE);
  }

  /** rb_load.  From a well-formed stream it takes exactly one value. */
  method Load(vm: Vm, rb: Ring) returns (v: Value)
    requires rb.Valid() && ParseValue(vm, rb.Contents()).Got?
    modifies rb`rp, rb`rcb
    ensures rb.Valid() && (old(rb.Aligned()) ==> rb.Aligned())
    ensures ParseValue(vm, old(rb.Contents())) == Got(v, rb.Contents())
    decreases rb.rcb, 1
  {
    var tag := GetTag(rb);
    if tag == T_NIL {
      v := Nil;
    } else if tag == T_BOOLEAN {
      var b := GetBytes(rb, 1);
      v := Bool(b[0] != 0);
    } else if tag == T_NUMBER {
      var bits := GetBytes(rb, WORD);
      v := Number(bits);
    } else if tag == T_INTEGER {
      var bits := GetBytes(rb, WORD);
      v := Integer(bits);
    } else if tag == T_STRING {
      var s := GetSized(rb);
      v := Str(s);
    } else if tag == T_TABLE {
      v := LoadTable(vm, rb);
    } else if tag == T_FUNCTION {
      v := LoadFunction(vm, rb);
    } else {
      var name := GetSized(rb);
      var ptr := GetBytes(rb, WORD);
      v := Userdata(tag == T_USERDATA, name, ptr, true);
    }
  }

  method GetTag(rb: Ring) returns (tag: Byte)
    requires rb.Valid() && |rb.Contents()| > 0
    modifies rb`rp, rb`rcb
    ensures rb.Valid() && (old(rb.Aligned()) ==> rb.Aligned()) && rb.rcb == old(rb.rcb) - 1
    ensures tag == old(rb.Contents())[0] && rb.Contents() == old(rb.Contents())[1..]
  {
    var s := GetBytes(rb, 1);
    tag := s[0];
  }

  method LoadTable(vm: Vm, rb: Ring) returns (v: Value)
    requires rb.Valid() && ParseTable(vm, rb.Contents()).Got?
    modifies rb`rp, rb`rcb
    ensures rb.Valid() && (old(rb.Aligned()) ==> rb.Aligned())
    ensures ParseTable(vm, old(rb.Contents())) == Got(v, rb.Contents())
    decreases rb.rcb, 3
  {
    var entries := LoadEntries(vm, rb);
    var meta := GetSized(rb);
    v := Table(entries, meta);
  }

  /** The stream s starts with `some` entries, after which `rest` is left to be read. */
  ghost predicate EntriesSoFar(vm: Vm, s: seq<Byte>, some: seq<Entry>, rest: seq<Byte>) {
    var whole, more := ParseEntries(vm, s), ParseEntries(vm, rest);
    whole.Got? && more.Got? && whole.value == some + more.value && whole.rest == more.rest
  }

  lemma OneEntryMore(vm: Vm, s: seq<Byte>, some: seq<Entry>, rest: seq<Byte>, key: Value, rest1: seq<Byte>)
    requires EntriesSoFar(vm, s, some, rest) && ParseValue(vm, rest) == Got(key, rest1)
    ensures key.Nil? ==> ParseEntries(vm, s) == Got(some, rest1)
    ensures !key.Nil? ==>
              && ParseValue(vm, rest1).Got?
              && EntriesSoFar(vm, s, some + [Entry(key, ParseValue(vm, rest1).value)], ParseValue(vm, rest1).rest)
  {
    if key.Nil? {
      assert some + [] == some;
    } else {
      var value := ParseValue(vm, rest1);
      var more := ParseEntries(vm, value.rest);
      assert some + ([Entry(key, value.value)] + more.value) == some + [Entry(key, value.value)] + more.value;
    }
  }

  method LoadEntries(vm: Vm, rb: Ring) returns (entries: seq<Entry>)
    requires rb.Valid() && ParseEntries(vm, rb.Contents()).Got?
    modifies rb`rp, rb`rcb
    ensures rb.Valid() && (old(rb.Aligned()) ==> rb.Aligned())
    ensures ParseEntries(vm, old(rb.Contents())) == Got(entries, rb.Contents())
    decreases rb.rcb, 2
  {
    entries := [];
    ghost var s := rb.Contents();
    while true
      invariant rb.Valid() && (old(rb.Aligned()) ==> rb.Aligned()) && rb.rcb <= old(rb.rcb)
      invariant EntriesSoFar(vm, s, entries, rb.Contents())
      decreases rb.rcb
    {
      ghost var before := rb.Contents();
      var key := Load(vm, rb);
      OneEntryMore(vm, s, entries, before, key, rb.Contents());
      if key.Nil? {
        return;
      }
      var value := Load(vm, rb);
      entries := entries + [Entry(key, value)];
    }
  }

  method LoadFunction(vm: Vm, rb: Ring) returns (v: Value)
    requires rb.Valid() && ParseFunction(vm, rb.Contents()).Got?
    modifies rb`rp, rb`rcb
    ensures rb.Valid() && (old(rb.Aligned()) ==> rb.Aligned())
    ensures ParseFunction(vm, old(rb.Contents())) == Got(v, rb.Contents())
    decreases rb.rcb, 3
  {
    var body := LoadBody(vm, rb);
    var flag := GetBytes(rb, INT);
    if IntOf(flag) == 1 {
      var idx := GetBytes(rb, INT);
      var ups := Load(vm, rb);
      v := Function([body], if IntOf(idx) > 0 then IntOf(idx) else 0, ups.entries);
    } else {
      v := Function([body], 0, []);
    }
  }
}

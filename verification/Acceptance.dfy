/** Which values rb_save (src/serialize.c:67-257) takes, with which code it refuses the others, how
    long an encoding is, and what a load makes of it: stated on the value alone. */
module Acceptance {
  import opened Arithmetic
  import opened Bytes
  import opened Sequences
  import opened Serialize

  // ----- accepted or refused -----

  /** v can be saved: there is nothing in it that has no encoding, no userdata that is nameless or
      cannot be retained, and for another process no userdata at all. */
  predicate Accepts(v: Value, oop: bool)
    decreases v, 1
  {
    match v
    case Table(entries, meta) => AcceptsEntries(v.entries, oop)
    case Function(dump, env, ups) => AcceptsEntries(v.ups, oop)
    case Userdata(torch, name, ptr, retains) => !oop && retains
    case Nameless => false
    case Unsupported => false
    case _ => true
  }

  predicate AcceptsEntries(entries: seq<Entry>, oop: bool)
    decreases entries, 0
  {
    |entries| > 0 ==> AcceptsEntry(entries[0], oop) && AcceptsEntries(entries[1..], oop)
  }

  predicate AcceptsEntry(e: Entry, oop: bool)
    decreases e, 2
  {
    Accepts(e.key, oop) && Accepts(e.value, oop)
  }

  /** The values without parts that are in v, in the order in which a save comes to them: of every
      entry the key first. */
  function Parts(v: Value): seq<Value>
    decreases v, 1
  {
    match v
    case Table(entries, meta) => PartsOf(v.entries)
    case Function(dump, env, ups) => PartsOf(v.ups)
    case _ => [v]
  }

  function PartsOf(entries: seq<Entry>): seq<Value>
    decreases entries, 0
  {
    if |entries| == 0 then [] else EntryParts(entries[0]) + PartsOf(entries[1..])
  }

  function EntryParts(e: Entry): seq<Value>
    decreases e, 2
  {
    Parts(e.key) + Parts(e.value)
  }

  /** The code for a value without parts. */
  function PartCode(v: Value, oop: bool): Code {
    match v
    case Userdata(_, _, _, retains) => if oop then Perm else if retains then Ok else Inval
    case Nameless => if oop then Perm else Inval
    case Unsupported => Perm
    case _ => Ok
  }

  /** The code of the first part that is refused. */
  function FirstCode(parts: seq<Value>, oop: bool): (code: Code)
    ensures code == Ok ==> forall k :: 0 <= k < |parts| ==> PartCode(parts[k], oop) == Ok
    ensures code != Ok ==>
              exists k ::
                && 0 <= k < |parts| && PartCode(parts[k], oop) == code
                && forall j :: 0 <= j < k ==> PartCode(parts[j], oop) == Ok
  {
    if |parts| == 0 then Ok
    else if PartCode(parts[0], oop) != Ok then PartCode(parts[0], oop)
    else
      var code := FirstCode(parts[1..], oop);
      FirstIsLater(parts, oop, code);
      code
  }

  lemma FirstIsLater(parts: seq<Value>, oop: bool, code: Code)
    requires |parts| > 0 && PartCode(parts[0], oop) == Ok
    requires code != Ok ==>
               exists k ::
                 && 0 <= k < |parts| - 1 && PartCode(parts[1..][k], oop) == code
                 && forall j :: 0 <= j < k ==> PartCode(parts[1..][j], oop) == Ok
    requires code == Ok ==> forall k :: 0 <= k < |parts| - 1 ==> PartCode(parts[1..][k], oop) == Ok
    ensures code != Ok ==>
              exists k ::
                && 0 <= k < |parts| && PartCode(parts[k], oop) == code
                && forall j :: 0 <= j < k ==> PartCode(parts[j], oop) == Ok
    ensures code == Ok ==> forall k :: 0 <= k < |parts| ==> PartCode(parts[k], oop) == Ok
  {
    assert forall j :: 0 < j < |parts| ==> parts[j] == parts[1..][j - 1];
    if code != Ok {
      var k :| && 0 <= k < |parts| - 1 && PartCode(parts[1..][k], oop) == code
               && forall j :: 0 <= j < k ==> PartCode(parts[1..][j], oop) == Ok;
      assert PartCode(parts[k + 1], oop) == code;
    }
  }

  lemma {:induction false} FirstCodeAppend(a: seq<Value>, b: seq<Value>, oop: bool)
    ensures FirstCode(a + b, oop) == if FirstCode(a, oop) != Ok then FirstCode(a, oop) else FirstCode(b, oop)
  {
    if |a| == 0 {
      assert a + b == b;
    } else {
      FirstCodeAppend(a[1..], b, oop);
      assert (a + b)[1..] == a[1..] + b;
    }
  }

  /** Inside the process and outside, with upvalues and without: a save has the code Ok exactly for the
      values that it accepts, and otherwise that of the first part that is refused. */
  lemma {:induction false} SaveAcceptsIff(vm: Vm, v: Value, oop: bool, upval: bool)
    requires Saveable(vm, v, upval)
    ensures Emit(vm, v, oop, upval).code == Ok <==> Accepts(v, oop)
    ensures Emit(vm, v, oop, upval).code == FirstCode(Parts(v), oop)
    decreases v, 1
  {
    match v
    case Table(entries, meta) => EntriesAcceptIff(vm, v.entries, oop, upval);
    case Function(dump, env, ups) =>
      EntriesAcceptIff(vm, v.ups, oop, upval);
      assert !CarriesUpvalues(vm, v, upval) ==> v.ups == [];
    case _ => assert Parts(v)[1..] == [];
  }

  lemma {:induction false} EntriesAcceptIff(vm: Vm, entries: seq<Entry>, oop: bool, upval: bool)
    requires SaveableEntries(vm, entries, upval)
    ensures EmitEntries(vm, entries, oop, upval).code == Ok <==> AcceptsEntries(entries, oop)
    ensures EmitEntries(vm, entries, oop, upval).code == FirstCode(PartsOf(entries), oop)
    decreases entries, 0
  {
    if |entries| == 0 {
    } else {
      EntryAcceptsIff(vm, entries[0], oop, upval);
      EntriesAcceptIff(vm, entries[1..], oop, upval);
      FirstCodeAppend(EntryParts(entries[0]), PartsOf(entries[1..]), oop);
    }
  }

  lemma {:induction false} EntryAcceptsIff(vm: Vm, e: Entry, oop: bool, upval: bool)
    requires SaveableEntry(vm, e, upval)
    ensures EmitEntry(vm, e, oop, upval).code == Ok <==> AcceptsEntry(e, oop)
    ensures EmitEntry(vm, e, oop, upval).code == FirstCode(EntryParts(e), oop)
    decreases e, 2
  {
    SaveAcceptsIff(vm, e.key, oop, upval);
    SaveAcceptsIff(vm, e.value, oop, upval);
    FirstCodeAppend(Parts(e.key), Parts(e.value), oop);
  }

  // ----- how long it is -----

  /** The bytes of a value: a tag, eight bytes for a number, a length, a pointer or the end of a body,
      four for an int. */
  function Size(vm: Vm, v: Value, upval: bool): nat
    decreases v, 1
  {
    match v
    case Nil => 1
    case Bool(b) => 2
    case Number(bits) => 9
    case Integer(bits) => 9
    case Str(s) => 9 + |s|
    case Table(entries, meta) => 10 + SizeOf(vm, v.entries, upval) + |meta|
    case Function(dump, env, ups) =>
      var nups := vm.nups(Body(dump));
      13 + DumpSize(dump) + if upval || (nups == 1 && env == 1) then 14 + SizeOf(vm, v.ups, upval) else 0
    case Userdata(torch, name, ptr, retains) => 17 + |name|
    case _ => 0
  }

  function SizeOf(vm: Vm, entries: seq<Entry>, upval: bool): nat
    decreases entries, 0
  {
    if |entries| == 0 then 0 else EntrySize(vm, entries[0], upval) + SizeOf(vm, entries[1..], upval)
  }

  function EntrySize(vm: Vm, e: Entry, upval: bool): nat
    decreases e, 2
  {
    Size(vm, e.key, upval) + Size(vm, e.value, upval)
  }

  /** Every piece, and a length for every 8192 bytes of it or less. */
  function DumpSize(dump: seq<seq<Byte>>): nat {
    if |dump| == 0 then 0 else |dump[0]| + 8 * CeilDiv(|dump[0]|, 8192) + DumpSize(dump[1..])
  }

  lemma {:induction false} ChunksSize(s: seq<Byte>)
    ensures |Chunks(s)| == |s| + 8 * CeilDiv(|s|, 8192)
    decreases |s|
  {
    if |s| == 0 {
    } else {
      ChunksSize(s[FirstChunk(s)..]);
    }
  }

  lemma {:induction false} AllChunksSize(dump: seq<seq<Byte>>)
    ensures |AllChunks(dump)| == DumpSize(dump)
  {
    if |dump| == 0 {
    } else {
      ChunksSize(dump[0]);
      AllChunksSize(dump[1..]);
    }
  }

  lemma {:induction false} EmitSize(vm: Vm, v: Value, oop: bool, upval: bool)
    requires WellFormed(vm, v) && Emit(vm, v, oop, upval).code == Ok
    ensures |Emit(vm, v, oop, upval).bytes| == Size(vm, v, upval)
    decreases v, 1
  {
    match v
    case Table(entries, meta) =>
      EntriesSize(vm, v.entries, oop, upval);
      TableSize(vm, v, oop, upval);
    case Function(dump, env, ups) =>
      EntriesSize(vm, v.ups, oop, upval);
      FunctionSize(vm, v, oop, upval);
    case _ => PlainSize(vm, v, oop, upval);
  }

  lemma PlainSize(vm: Vm, v: Value, oop: bool, upval: bool)
    requires WellFormed(vm, v) && Emit(vm, v, oop, upval).code == Ok && !v.Table? && !v.Function?
    ensures |Emit(vm, v, oop, upval).bytes| == Size(vm, v, upval)
  {
  }

  lemma TableSize(vm: Vm, v: Value, oop: bool, upval: bool)
    requires v.Table? && Emit(vm, v, oop, upval).code == Ok
    requires var es := EmitEntries(vm, v.entries, oop, upval); es.code == Ok ==>
               |es.bytes| == SizeOf(vm, v.entries, upval)
    ensures |Emit(vm, v, oop, upval).bytes| == Size(vm, v, upval)
  {
    ThenOk(EmitEntries(vm, v.entries, oop, upval), Put([T_NIL] + SizedBytes(v.meta)));
  }

  lemma FunctionSize(vm: Vm, v: Value, oop: bool, upval: bool)
    requires v.Function? && Emit(vm, v, oop, upval).code == Ok
    requires var es := EmitEntries(vm, v.ups, oop, upval); es.code == Ok ==> |es.bytes| == SizeOf(vm, v.ups, upval)
    ensures |Emit(vm, v, oop, upval).bytes| == Size(vm, v, upval)
  {
    AllChunksSize(v.dump);
    if CarriesUpvalues(vm, v, upval) {
      Then3([T_FUNCTION] + AllChunks(v.dump) + SizeBytes(0) + IntBytes(1),
            IntBytes(if v.env == 0 then -1 else v.env) + [T_TABLE],
            EmitEntries(vm, v.ups, oop, upval), [T_NIL] + SizedBytes([]));
    }
  }

  lemma {:induction false} EntriesSize(vm: Vm, entries: seq<Entry>, oop: bool, upval: bool)
    requires WellFormedEntries(vm, entries)
    ensures var es := EmitEntries(vm, entries, oop, upval); es.code == Ok ==> |es.bytes| == SizeOf(vm, entries, upval)
    decreases entries, 0
  {
    if |entries| > 0 && EmitEntries(vm, entries, oop, upval).code == Ok {
      EntriesAreOk(vm, entries, oop, upval);
      EntrySizeIs(vm, entries[0], oop, upval);
      EntriesSize(vm, entries[1..], oop, upval);
    }
  }

  lemma {:induction false} EntrySizeIs(vm: Vm, e: Entry, oop: bool, upval: bool)
    requires WellFormedEntry(vm, e)
    requires Emit(vm, e.key, oop, upval).code == Ok && Emit(vm, e.value, oop, upval).code == Ok
    ensures |Emit(vm, e.key, oop, upval).bytes| + |Emit(vm, e.value, oop, upval).bytes| == EntrySize(vm, e, upval)
    decreases e, 2
  {
    EmitSize(vm, e.key, oop, upval);
    EmitSize(vm, e.value, oop, upval);
  }

  // ----- how it begins -----

  /** lua_type of a value, but 127 for an integer and -7 as a byte for userdata that names itself. */
  function TypeByte(v: Value): Byte
    requires !v.Nameless? && !v.Unsupported?
  {
    match v
    case Nil => 0
    case Bool(_) => 1
    case Number(_) => 3
    case Integer(_) => 127
    case Str(_) => 4
    case Table(_, _) => 5
    case Function(_, _, _) => 6
    case Userdata(torch, _, _, _) => if torch then 7 else 249
  }

  lemma FirstByteIsType(vm: Vm, v: Value, oop: bool, upval: bool)
    requires Emit(vm, v, oop, upval).code == Ok
    ensures !v.Nameless? && !v.Unsupported? && |Emit(vm, v, oop, upval).bytes| > 0
    ensures Emit(vm, v, oop, upval).bytes[0] == TypeByte(v)
  {
    match v
    case Table(entries, meta) =>
      var more := Then(EmitEntries(vm, v.entries, oop, upval), Put([T_NIL] + SizedBytes(meta)));
      assert ([T_TABLE] + more.bytes)[0] == T_TABLE;
    case Function(dump, env, ups) => assert ([T_FUNCTION] + AllChunks(dump))[0] == T_FUNCTION;
    case _ =>
  }

  // ----- all of it -----

  /** Every value that is accepted is saved in as many bytes as its size says, beginning with its type, and
      whatever follows them, a load of them gives the same value (an equal one, if there is no function
      in it) and leaves what follows. */
  lemma SavedIsLoaded(vm: Vm, v: Value, oop: bool, upval: bool, rest: seq<Byte>)
    requires WellFormed(vm, v) && Saveable(vm, v, upval) && Accepts(v, oop)
    ensures var out := Emit(vm, v, oop, upval); var back := ParseValue(vm, out.bytes + rest);
            && out.code == Ok && |out.bytes| == Size(vm, v, upval) > 0 && out.bytes[0] == TypeByte(v)
            && back.Got? && back.rest == rest && Same(v, back.value) && (FunctionFree(v) ==> back.value == v)
  {
    SaveAcceptsIff(vm, v, oop, upval);
    EmitSize(vm, v, oop, upval);
    FirstByteIsType(vm, v, oop, upval);
    RoundTrip(vm, v, oop, upval, rest);
    if FunctionFree(v) {
      SameIsEqual(v, Norm(v));
    }
  }
}

/** The wire format of src/serialize.c: what rb_save emits and what rb_load accepts.

    Values are finite trees.  A table is the list of its entries in the order lua_next visits
    them, with the name of its metatable.  A function is the pieces in which lua_dump hands
    over its body, where among its upvalues _ENV is, and the table of its other upvalues.
 */
module Serialize {
  import opened Bytes
  import opened Sequences

  datatype Value =
    | Nil
    | Bool(b: bool)
    | Number(bits: seq<Byte>)
    | Integer(bits: seq<Byte>)
    | Str(s: seq<Byte>)
    | Table(entries: seq<Entry>, meta: seq<Byte>)
    | Function(dump: seq<seq<Byte>>, env: nat, ups: seq<Entry>)
    | Userdata(torch: bool, name: seq<Byte>, ptr: seq<Byte>, retains: bool)
    | Nameless
    | Unsupported

  datatype Entry = Entry(key: Value, value: Value)

  /** What the Lua in use does: whether its loader reads through the closing chunk marker,
      when a loader has a whole function body, and how many upvalues a body has. */
  datatype Vm = Vm(readsMarker: bool, whole: seq<Byte> -> bool, nups: seq<Byte> -> nat)

  datatype Code = Ok | NoMem | Perm | Inval

  const CHUNK_SIZE: nat := 8192

  // lua_type and EXTRA_LUA_TINTEGER, as chars
  const T_NIL: Byte := 0
  const T_BOOLEAN: Byte := 1
  const T_NUMBER: Byte := 3
  const T_STRING: Byte := 4
  const T_TABLE: Byte := 5
  const T_FUNCTION: Byte := 6
  const T_USERDATA: Byte := 7
  const T_INTEGER: Byte := 127
  const T_NAMED_USERDATA: Byte := 249 // (char)-LUA_TUSERDATA

  // ----- saving -----

  /** The bytes a save hands to the ring, given room, and the code it then returns. */
  datatype Out = Out(bytes: seq<Byte>, code: Code)

  function Then(a: Out, b: Out): Out {
    if a.code == Ok then Out(a.bytes + b.bytes, b.code) else a
  }

  function Put(s: seq<Byte>): Out {
    Out(s, Ok)
  }

  function SizedBytes(s: seq<Byte>): seq<Byte> {
    SizeBytes(|s|) + s
  }

  /** rb_lua_writer: pieces of at most CHUNK_SIZE bytes, each behind its size. */
  function Chunks(s: seq<Byte>): seq<Byte>
    decreases |s|
  {
    if |s| == 0 then [] else SizedBytes(s[..FirstChunk(s)]) + Chunks(s[FirstChunk(s)..])
  }

  function FirstChunk(s: seq<Byte>): (n: nat)
    ensures n <= |s| && n <= CHUNK_SIZE && (|s| > 0 ==> n > 0)
  {
    if CHUNK_SIZE < |s| then CHUNK_SIZE else |s|
  }

  function AllChunks(dump: seq<seq<Byte>>): seq<Byte> {
    if |dump| == 0 then [] else Chunks(dump[0]) + AllChunks(dump[1..])
  }

  function Body(dump: seq<seq<Byte>>): seq<Byte> {
    if |dump| == 0 then [] else dump[0] + Body(dump[1..])
  }

  /** Whether the upvalues travel: they were asked for, or the only one is _ENV. */
  predicate CarriesUpvalues(vm: Vm, v: Value, upval: bool)
    requires v.Function?
  {
    upval || (vm.nups(Body(v.dump)) == 1 && v.env == 1)
  }

  function Emit(vm: Vm, v: Value, oop: bool, upval: bool): Out
    decreases v, 1
  {
    match v
    case Nil => Put([T_NIL])
    case Bool(b) => Put([T_BOOLEAN, if b then 1 else 0])
    case Number(bits) => Put([T_NUMBER] + bits)
    case Integer(bits) => Put([T_INTEGER] + bits)
    case Str(s) => Put([T_STRING] + SizedBytes(s))
    case Table(entries, meta) =>
      Then(Put([T_TABLE]), Then(EmitEntries(vm, v.entries, oop, upval), Put([T_NIL] + SizedBytes(meta))))
    case Function(dump, env, ups) =>
      Then(Put([T_FUNCTION] + AllChunks(dump) + SizeBytes(0) +
        IntBytes(if CarriesUpvalues(vm, v, upval) then 1 else 0)),
           if !CarriesUpvalues(vm, v, upval) then Put([])
           else
             Then(Put(IntBytes(if env == 0 then -1 else env) + [T_TABLE]),
                  Then(EmitEntries(vm, v.ups, oop, upval), Put([T_NIL] + SizedBytes([])))))
    case Userdata(torch, name, ptr, retains) =>
      if oop then Out([], Perm)
      else Out([if torch then T_USERDATA else T_NAMED_USERDATA] + SizedBytes(name) + ptr, if retains then Ok else Inval)
    case Nameless => Out([], if oop then Perm else Inval)
    case Unsupported => Out([], Perm)
  }

  function EmitEntries(vm: Vm, entries: seq<Entry>, oop: bool, upval: bool): Out
    decreases entries, 0
  {
    if |entries| == 0 then Put([])
    else
      Then(EmitEntry(vm, entries[0], oop, upval), EmitEntries(vm, entries[1..], oop, upval))
  }

  function EmitEntry(vm: Vm, e: Entry, oop: bool, upval: bool): Out
    decreases e, 2
  {
    Then(Emit(vm, e.key, oop, upval), Emit(vm, e.value, oop, upval))
  }

  // ----- loading -----

  datatype Parsed<+T> = Got(value: T, rest: seq<Byte>) | Bad {
    predicate IsFailure() { Bad? }
    function PropagateFailure<U>(): Parsed<U> requires Bad? { Bad }
    function Extract(): (T, seq<Byte>) requires Got? { (value, rest) }
  }

  function Take(s: seq<Byte>, n: nat): (r: Parsed<seq<Byte>>)
    ensures r.Got? ==> |r.value| == n && |r.rest| == |s| - n
  {
    if n <= |s| then Got(s[..n], s[n..]) else Bad
  }

  function TakeSized(s: seq<Byte>): (r: Parsed<seq<Byte>>)
    ensures r.Got? ==> |r.rest| + SIZE <= |s|
  {
    var (size, s1) :- Take(s, SIZE);
    Take(s1, FromLittleEndian(size))
  }

  /** lua_load over rb_lua_reader: chunks until the loader has what it needs, and the closing
      marker, read by the loader or after it.  `sofar` is what the loader has seen. */
  function TakeBody(vm: Vm, s: seq<Byte>, sofar: seq<Byte>): (r: Parsed<seq<Byte>>)
    ensures r.Got? ==> |r.rest| + SIZE <= |s|
    decreases |s|
  {
    if !vm.readsMarker && vm.whole(sofar) then
      var (_, s1) :- Take(s, SIZE);
      Got(sofar, s1)
    else
      var (size, s1) :- Take(s, SIZE);
      var n := FromLittleEndian(size);
      if n == 0 then (if vm.whole(sofar) then Got(sofar, s1) else Bad)
      else
        var (chunk, s2) :- Take(s1, n);
        if n > CHUNK_SIZE then Bad else TakeBody(vm, s2, sofar + chunk)
  }

  function ParseValue(vm: Vm, s: seq<Byte>): (r: Parsed<Value>)
    ensures r.Got? ==> |r.rest| < |s|
    decreases |s|, 1
  {
    if |s| == 0 then Bad
    else
      var t, s1 := s[0], s[1..];
      if t == T_NIL then Got(Nil, s1)
      else if t == T_BOOLEAN then
        var (b, s2) :- Take(s1, 1);
        Got(Bool(b[0] != 0), s2)
      else if t == T_NUMBER then
        var (bits, s2) :- Take(s1, WORD);
        Got(Number(bits), s2)
      else if t == T_INTEGER then
        var (bits, s2) :- Take(s1, WORD);
        Got(Integer(bits), s2)
      else if t == T_STRING then
        var (str, s2) :- TakeSized(s1);
        Got(Str(str), s2)
      else if t == T_TABLE then ParseTable(vm, s1)
      else if t == T_FUNCTION then ParseFunction(vm, s1)
      else if t == T_USERDATA || t == T_NAMED_USERDATA then
        var (name, s2) :- TakeSized(s1);
        var (ptr, s3) :- Take(s2, WORD);
        Got(Userdata(t == T_USERDATA, name, ptr, true), s3)
      else Bad
  }

  /** After the tag of a table: entries, the nil that ends them, the metatable's name. */
  function ParseTable(vm: Vm, s: seq<Byte>): (r: Parsed<Value>)
    ensures r.Got? ==> |r.rest| < |s|
    decreases |s|, 3
  {
    var (entries, s1) :- ParseEntries(vm, s);
    var (meta, s2) :- TakeSized(s1);
    Got(Table(entries, meta), s2)
  }

  function ParseFunction(vm: Vm, s: seq<Byte>): (r: Parsed<Value>)
    ensures r.Got? ==> |r.rest| < |s|
    decreases |s|, 3
  {
    var (body, s1) :- TakeBody(vm, s, []);
    var (flag, s2) :- Take(s1, INT);
    if IntOf(flag) != 1 then Got(Function([body], 0, []), s2)
    else
      var (idx, s3) :- Take(s2, INT);
      var (ups, s4) :- ParseValue(vm, s3);
      if !ups.Table? then Bad
      else Got(Function([body], if IntOf(idx) > 0 then IntOf(idx) else 0, ups.entries), s4)
  }

  function ParseEntries(vm: Vm, s: seq<Byte>): (r: Parsed<seq<Entry>>)
    ensures r.Got? ==> |r.rest| < |s|
    decreases |s|, 2
  {
    var (key, s1) :- ParseValue(vm, s);
    if key.Nil? then Got([], s1)
    else
      var (value, s2) :- ParseValue(vm, s1);
      var (more, s3) :- ParseEntries(vm, s2);
      Got([Entry(key, value)] + more, s3)
  }

  // ----- the round trip -----

  /** What arrives: the pieces of a function body are one. */
  function Norm(v: Value): Value
    decreases v, 1
  {
    match v
    case Table(entries, meta) => Table(NormEntries(v.entries), meta)
    case Function(dump, env, ups) => Function([Body(dump)], env, NormEntries(v.ups))
    case _ => v
  }

  function NormEntries(entries: seq<Entry>): (r: seq<Entry>)
    ensures |r| == |entries|
    decreases entries, 0
  {
    if |entries| == 0 then [] else [NormEntry(entries[0])] + NormEntries(entries[1..])
  }

  function NormEntry(e: Entry): Entry
    decreases e, 2
  {
    Entry(Norm(e.key), Norm(e.value))
  }

  /** w is the value v: of the same kind with the same contents, the entries of tables one by one in
      order; of a function body only the bytes count, not the pieces it is in. */
  predicate Same(v: Value, w: Value)
    decreases v, 1
  {
    match v
    case Table(entries, meta) => w.Table? && w.meta == meta && SameEntries(v.entries, w.entries)
    case Function(dump, env, ups) =>
      w.Function? && Body(w.dump) == Body(dump) && w.env == env && SameEntries(v.ups, w.ups)
    case _ => w == v
  }

  predicate SameEntries(a: seq<Entry>, b: seq<Entry>)
    decreases a, 0
  {
    |a| == |b| && (|a| > 0 ==> SameEntry(a[0], b[0]) && SameEntries(a[1..], b[1..]))
  }

  predicate SameEntry(a: Entry, b: Entry)
    decreases a, 2
  {
    Same(a.key, b.key) && Same(a.value, b.value)
  }

  lemma {:induction false} NormIsSame(v: Value)
    ensures Same(v, Norm(v))
    decreases v, 1
  {
    match v
    case Table(entries, meta) => NormEntriesAreSame(v.entries);
    case Function(dump, env, ups) =>
      NormEntriesAreSame(v.ups);
      assert Body([Body(dump)]) == Body(dump) + Body([]) == Body(dump);
    case _ =>
  }

  lemma {:induction false} NormEntriesAreSame(entries: seq<Entry>)
    ensures SameEntries(entries, NormEntries(entries))
    decreases entries, 0
  {
    if |entries| == 0 {
    } else {
      NormEntryIsSame(entries[0]);
      NormEntriesAreSame(entries[1..]);
      assert NormEntries(entries)[1..] == NormEntries(entries[1..]);
    }
  }

  lemma {:induction false} NormEntryIsSame(e: Entry)
    ensures SameEntry(e, NormEntry(e))
    decreases e, 2
  {
    NormIsSame(e.key);
    NormIsSame(e.value);
  }

  /** There is no function in it. */
  predicate FunctionFree(v: Value)
    decreases v, 1
  {
    match v
    case Table(entries, meta) => FunctionFreeEntries(v.entries)
    case Function(dump, env, ups) => false
    case _ => true
  }

  predicate FunctionFreeEntries(entries: seq<Entry>)
    decreases entries, 0
  {
    |entries| > 0 ==> FunctionFreeEntry(entries[0]) && FunctionFreeEntries(entries[1..])
  }

  predicate FunctionFreeEntry(e: Entry)
    decreases e, 2
  {
    FunctionFree(e.key) && FunctionFree(e.value)
  }

  /** Without functions the same value is an equal one. */
  lemma {:induction false} SameIsEqual(v: Value, w: Value)
    requires Same(v, w) && FunctionFree(v)
    ensures v == w
    decreases v, 1
  {
    match v
    case Table(entries, meta) => SameEntriesAreEqual(v.entries, w.entries);
    case _ =>
  }

  lemma {:induction false} SameEntriesAreEqual(a: seq<Entry>, b: seq<Entry>)
    requires SameEntries(a, b) && FunctionFreeEntries(a)
    ensures a == b
    decreases a, 0
  {
    if |a| == 0 {
    } else {
      SameEntryIsEqual(a[0], b[0]);
      SameEntriesAreEqual(a[1..], b[1..]);
      assert a == [a[0]] + a[1..] && b == [b[0]] + b[1..];
    }
  }

  lemma {:induction false} SameEntryIsEqual(a: Entry, b: Entry)
    requires SameEntry(a, b) && FunctionFreeEntry(a)
    ensures a == b
    decreases a, 2
  {
    SameIsEqual(a.key, b.key);
    SameIsEqual(a.value, b.value);
  }

  /** What Lua guarantees of a value: words are words, lengths are sizes, keys are not nil, a
      body is whole at its end and not before, an _ENV index is an index. */
  ghost predicate WellFormed(vm: Vm, v: Value)
    decreases v, 1
  {
    match v
    case Number(bits) => |bits| == WORD
    case Integer(bits) => |bits| == WORD
    case Str(s) => |s| < SIZE_LIMIT
    case Table(entries, meta) => |meta| < SIZE_LIMIT && WellFormedEntries(vm, v.entries)
    case Function(dump, env, ups) => env < INT_LIMIT && WholeAtEnd(vm, Body(dump)) && WellFormedEntries(vm, v.ups)
    case Userdata(torch, name, ptr, retains) => |name| < SIZE_LIMIT && |ptr| == WORD
    case _ => true
  }

  ghost predicate WellFormedEntries(vm: Vm, entries: seq<Entry>)
    decreases entries, 0
  {
    |entries| > 0 ==> WellFormedEntry(vm, entries[0]) && WellFormedEntries(vm, entries[1..])
  }

  ghost predicate WellFormedEntry(vm: Vm, e: Entry)
    decreases e, 2
  {
    !e.key.Nil? && WellFormed(vm, e.key) && WellFormed(vm, e.value)
  }

  ghost predicate WholeAtEnd(vm: Vm, body: seq<Byte>) {
    |body| > 0 && vm.whole(body) && forall k: nat :: k < |body| ==> !vm.whole(body[..k])
  }

  /** A closure whose upvalues were not asked for is refused, unless it has none, or only _ENV. */
  ghost predicate Saveable(vm: Vm, v: Value, upval: bool)
    decreases v, 1
  {
    match v
    case Table(entries, meta) => SaveableEntries(vm, v.entries, upval)
    case Function(dump, env, ups) =>
      && (upval || vm.nups(Body(dump)) == 0 || (vm.nups(Body(dump)) == 1 && env == 1))
      && |ups| + (if env == 0 then 0 else 1) <= vm.nups(Body(dump))
      && SaveableEntries(vm, v.ups, upval)
    case _ => true
  }

  ghost predicate SaveableEntries(vm: Vm, entries: seq<Entry>, upval: bool)
    decreases entries, 0
  {
    |entries| > 0 ==> SaveableEntry(vm, entries[0], upval) && SaveableEntries(vm, entries[1..], upval)
  }

  ghost predicate SaveableEntry(vm: Vm, e: Entry, upval: bool)
    decreases e, 2
  {
    Saveable(vm, e.key, upval) && Saveable(vm, e.value, upval)
  }

  lemma TakePrefix(a: seq<Byte>, rest: seq<Byte>)
    ensures Take(a + rest, |a|) == Got(a, rest)
  {
  }

  lemma TakeSizedBack(a: seq<Byte>, rest: seq<Byte>)
    requires |a| < SIZE_LIMIT
    ensures TakeSized(SizedBytes(a) + rest) == Got(a, rest)
  {
    SizeRoundTrip(|a|);
    assert SizedBytes(a) + rest == SizeBytes(|a|) + (a + rest);
    TakePrefix(SizeBytes(|a|), a + rest);
    TakePrefix(a, rest);
  }

  /** One chunk of a body still incomplete. */
  lemma TakesChunk(vm: Vm, chunk: seq<Byte>, rest: seq<Byte>, sofar: seq<Byte>)
    requires 0 < |chunk| <= CHUNK_SIZE && !vm.whole(sofar)
    ensures TakeBody(vm, SizedBytes(chunk) + rest, sofar) == TakeBody(vm, rest, sofar + chunk)
  {
    SizeRoundTrip(|chunk|);
    assert SizedBytes(chunk) + rest == SizeBytes(|chunk|) + (chunk + rest);
    TakePrefix(SizeBytes(|chunk|), chunk + rest);
    TakePrefix(chunk, rest);
  }

  /** Nothing before the end of the body looks whole. */
  ghost predicate Pending(vm: Vm, sofar: seq<Byte>, more: seq<Byte>) {
    forall k: nat :: k < |more| ==> !vm.whole(sofar + more[..k])
  }

  lemma PendingStep(vm: Vm, sofar: seq<Byte>, a: seq<Byte>, b: seq<Byte>)
    requires Pending(vm, sofar, a + b)
    ensures |a| > 0 ==> !vm.whole(sofar)
    ensures Pending(vm, sofar, a) && Pending(vm, sofar + a, b)
  {
    if |a| > 0 {
      assert (a + b)[..0] == [] && sofar + [] == sofar;
      assert !vm.whole(sofar + (a + b)[..0]);
    }
    forall k: nat | k < |a|
      ensures !vm.whole(sofar + a[..k])
    {
      assert (a + b)[..k] == a[..k];
    }
    forall k: nat | k < |b|
      ensures !vm.whole(sofar + a + b[..k])
    {
      assert sofar + (a + b)[..|a| + k] == sofar + a + b[..k];
    }
  }

  lemma {:induction false} TakesChunks(vm: Vm, piece: seq<Byte>, rest: seq<Byte>, sofar: seq<Byte>)
    requires Pending(vm, sofar, piece)
    ensures TakeBody(vm, Chunks(piece) + rest, sofar) == TakeBody(vm, rest, sofar + piece)
    decreases |piece|
  {
    if |piece| == 0 {
      assert Chunks(piece) + rest == rest && sofar + piece == sofar;
    } else {
      var a, b := piece[..FirstChunk(piece)], piece[FirstChunk(piece)..];
      assert piece == a + b;
      PendingStep(vm, sofar, a, b);
      TakesChunk(vm, a, Chunks(b) + rest, sofar);
      TakesChunks(vm, b, rest, sofar + a);
      Regroup(SizedBytes(a), Chunks(b), rest);
      Regroup(sofar, a, b);
    }
  }

  lemma {:induction false} TakesAllChunks(vm: Vm, dump: seq<seq<Byte>>, rest: seq<Byte>, sofar: seq<Byte>)
    requires Pending(vm, sofar, Body(dump))
    ensures TakeBody(vm, AllChunks(dump) + rest, sofar) == TakeBody(vm, rest, sofar + Body(dump))
    decreases |dump|
  {
    if |dump| == 0 {
      assert AllChunks(dump) + rest == rest && sofar + Body(dump) == sofar;
    } else {
      var piece, more := dump[0], dump[1..];
      PendingStep(vm, sofar, piece, Body(more));
      TakesChunks(vm, piece, AllChunks(more) + rest, sofar);
      TakesAllChunks(vm, more, rest, sofar + piece);
      Regroup(Chunks(piece), AllChunks(more), rest);
      Regroup(sofar, piece, Body(more));
    }
  }

  /** A body comes back whole and the marker is consumed, whichever way the loader stops. */
  lemma TakesBody(vm: Vm, dump: seq<seq<Byte>>, rest: seq<Byte>)
    requires WholeAtEnd(vm, Body(dump))
    ensures TakeBody(vm, AllChunks(dump) + SizeBytes(0) + rest, []) == Got(Body(dump), rest)
  {
    var body := Body(dump);
    forall k: nat | k < |body|
      ensures !vm.whole([] + body[..k])
    {
      assert [] + body[..k] == body[..k];
    }
    assert AllChunks(dump) + SizeBytes(0) + rest == AllChunks(dump) + (SizeBytes(0) + rest);
    TakesAllChunks(vm, dump, SizeBytes(0) + rest, []);
    assert [] + body == body;
    SizeRoundTrip(0);
    TakePrefix(SizeBytes(0), rest);
  }

  // Emit without the error paths: what is on the wire when the save succeeds.

  lemma ThenOk(a: Out, b: Out)
    ensures Then(a, b).code == Ok <==> a.code == Ok && b.code == Ok
    ensures Then(a, b).code == Ok ==> Then(a, b).bytes == a.bytes + b.bytes
  {
  }

  lemma EntriesStep(
    vm: Vm, s: seq<Byte>, key: Value, s1: seq<Byte>, value: Value, s2: seq<Byte>, more: seq<Entry>, rest: seq<Byte>)
    requires ParseValue(vm, s) == Got(key, s1) && !key.Nil?
    requires ParseValue(vm, s1) == Got(value, s2)
    requires ParseEntries(vm, s2) == Got(more, rest)
    ensures ParseEntries(vm, s) == Got([Entry(key, value)] + more, rest)
  {
  }

  lemma FirstEntryBytes(k: seq<Byte>, v: seq<Byte>, m: seq<Byte>, z: seq<Byte>, rest: seq<Byte>)
    ensures k + v + m + z + rest == k + (v + (m + z + rest))
  {
  }

  lemma EntriesAreOk(vm: Vm, entries: seq<Entry>, oop: bool, upval: bool)
    requires |entries| > 0 && EmitEntries(vm, entries, oop, upval).code == Ok
    ensures var key, value := Emit(vm, entries[0].key, oop, upval), Emit(vm, entries[0].value, oop, upval);
            var more := EmitEntries(vm, entries[1..], oop, upval);
            && key.code == value.code == more.code == Ok
            && EmitEntries(vm, entries, oop, upval).bytes == key.bytes + value.bytes + more.bytes
  {
  }

  lemma {:induction false} EntriesRoundTrip(vm: Vm, entries: seq<Entry>, oop: bool, upval: bool, rest: seq<Byte>)
    requires WellFormedEntries(vm, entries) && SaveableEntries(vm, entries, upval)
    requires EmitEntries(vm, entries, oop, upval).code == Ok
    ensures ParseEntries(vm, EmitEntries(vm, entries, oop, upval).bytes + [T_NIL] + rest) ==
            Got(NormEntries(entries), rest)
    decreases entries, 0
  {
    if |entries| == 0 {
      EndOfEntries(vm, EmitEntries(vm, entries, oop, upval).bytes, rest);
    } else {
      var e := entries[0];
      EntriesAreOk(vm, entries, oop, upval);
      var kb, vb := Emit(vm, e.key, oop, upval).bytes, Emit(vm, e.value, oop, upval).bytes;
      var mb := EmitEntries(vm, entries[1..], oop, upval).bytes;
      var s2 := mb + [T_NIL] + rest;
      EntriesRoundTrip(vm, entries[1..], oop, upval, rest);
      EntryRoundTrip(vm, e, oop, upval, vb + s2, s2);
      EntriesStep(vm, kb + (vb + s2), Norm(e.key), vb + s2, Norm(e.value), s2, NormEntries(entries[1..]), rest);
      FirstEntryBytes(kb, vb, mb, [T_NIL], rest);
    }
  }

  lemma EndOfEntries(vm: Vm, none: seq<Byte>, rest: seq<Byte>)
    requires none == []
    ensures ParseEntries(vm, none + [T_NIL] + rest) == Got([], rest)
  {
    assert (none + [T_NIL] + rest)[1..] == rest;
  }

  lemma {:induction false} EntryRoundTrip(vm: Vm, e: Entry, oop: bool, upval: bool, s1: seq<Byte>, s2: seq<Byte>)
    requires WellFormedEntry(vm, e) && SaveableEntry(vm, e, upval)
    requires Emit(vm, e.key, oop, upval).code == Ok && Emit(vm, e.value, oop, upval).code == Ok
    requires s1 == Emit(vm, e.value, oop, upval).bytes + s2
    ensures ParseValue(vm, Emit(vm, e.key, oop, upval).bytes + s1) == Got(Norm(e.key), s1)
    ensures ParseValue(vm, s1) == Got(Norm(e.value), s2)
    decreases e, 2
  {
    RoundTrip(vm, e.key, oop, upval, s1);
    RoundTrip(vm, e.value, oop, upval, s2);
  }

  /** Loading what was saved gives the value back and consumes exactly its bytes. */
  lemma {:induction false} RoundTrip(vm: Vm, v: Value, oop: bool, upval: bool, rest: seq<Byte>)
    requires WellFormed(vm, v) && Saveable(vm, v, upval) && Emit(vm, v, oop, upval).code == Ok
    ensures ParseValue(vm, Emit(vm, v, oop, upval).bytes + rest) == Got(Norm(v), rest) && Same(v, Norm(v))
    decreases v, 1
  {
    NormIsSame(v);
    match v
    case Table(entries, meta) => TableRoundTrip(vm, v, oop, upval, rest);
    case Function(dump, env, ups) => FunctionRoundTrip(vm, v, oop, upval, rest);
    case Userdata(torch, name, ptr, retains) => UserdataRoundTrip(vm, torch, name, ptr, rest);
    case _ => PlainRoundTrip(vm, v, oop, upval, rest);
  }

  lemma PlainRoundTrip(vm: Vm, v: Value, oop: bool, upval: bool, rest: seq<Byte>)
    requires v.Nil? || v.Bool? || v.Number? || v.Integer? || v.Str?
    requires WellFormed(vm, v)
    ensures ParseValue(vm, Emit(vm, v, oop, upval).bytes + rest) == Got(Norm(v), rest)
  {
    var s := Emit(vm, v, oop, upval).bytes + rest;
    match v
    case Nil => assert s[1..] == rest;
    case Bool(b) => assert s[1..] == [if b then 1 else 0] + rest; TakePrefix([if b then 1 else 0], rest);
    case Number(bits) => assert s[1..] == bits + rest; TakePrefix(bits, rest);
    case Integer(bits) => assert s[1..] == bits + rest; TakePrefix(bits, rest);
    case Str(str) => assert s[1..] == SizedBytes(str) + rest; TakeSizedBack(str, rest);
  }

  lemma UserdataRoundTrip(vm: Vm, torch: bool, name: seq<Byte>, ptr: seq<Byte>, rest: seq<Byte>)
    requires |name| < SIZE_LIMIT && |ptr| == WORD
    ensures ParseValue(vm, [if torch then T_USERDATA else T_NAMED_USERDATA] + SizedBytes(name) + ptr + rest) ==
            Got(Userdata(torch, name, ptr, true), rest)
  {
    var s := [if torch then T_USERDATA else T_NAMED_USERDATA] + SizedBytes(name) + ptr + rest;
    assert s[1..] == SizedBytes(name) + (ptr + rest);
    TakeSizedBack(name, ptr + rest);
    TakePrefix(ptr, rest);
  }

  lemma {:induction false} TableRoundTrip(vm: Vm, v: Value, oop: bool, upval: bool, rest: seq<Byte>)
    requires v.Table? && WellFormed(vm, v) && Saveable(vm, v, upval) && Emit(vm, v, oop, upval).code == Ok
    ensures ParseValue(vm, Emit(vm, v, oop, upval).bytes + rest) == Got(Norm(v), rest)
    decreases v, 0
  {
    var s := Emit(vm, v, oop, upval).bytes + rest;
    var es := EmitEntries(vm, v.entries, oop, upval);
    var tail := SizedBytes(v.meta) + rest;
    ThenOk(es, Put([T_NIL] + SizedBytes(v.meta)));
    assert s[1..] == es.bytes + [T_NIL] + tail;
    EntriesRoundTrip(vm, v.entries, oop, upval, tail);
    TakeSizedBack(v.meta, rest);
  }

  lemma FunctionConcat(
    t: seq<Byte>, c: seq<Byte>, z: seq<Byte>, f: seq<Byte>, i: seq<Byte>, tt: seq<Byte>, es: seq<Byte>, n: seq<Byte>,
      m: seq<Byte>, rest: seq<Byte>)
    ensures t + c + z + f + (i + tt + (es + (n + m))) + rest == t + (c + z + (f + (i + (tt + (es + n + (m + rest))))))
  {
  }

  lemma Then3(a: seq<Byte>, b: seq<Byte>, es: Out, d: seq<Byte>)
    requires Then(Put(a), Then(Put(b), Then(es, Put(d)))).code == Ok
    ensures es.code == Ok && Then(Put(a), Then(Put(b), Then(es, Put(d)))).bytes == a + (b + (es.bytes + d))
  {
  }

  lemma {:induction false} FunctionRoundTrip(vm: Vm, v: Value, oop: bool, upval: bool, rest: seq<Byte>)
    requires v.Function? && WellFormed(vm, v) && Saveable(vm, v, upval) && Emit(vm, v, oop, upval).code == Ok
    ensures ParseValue(vm, Emit(vm, v, oop, upval).bytes + rest) == Got(Norm(v), rest)
    decreases v, 0
  {
    if CarriesUpvalues(vm, v, upval) {
      OpenFunctionRoundTrip(vm, v, oop, upval, rest);
    } else {
      ClosedFunctionRoundTrip(vm, v, oop, upval, rest);
    }
  }

  lemma ClosedConcat(t: seq<Byte>, c: seq<Byte>, z: seq<Byte>, f: seq<Byte>, none: seq<Byte>, rest: seq<Byte>)
    requires none == []
    ensures t + c + z + f + none + rest == t + (c + z + (f + rest))
  {
  }

  lemma ClosedFunctionRoundTrip(vm: Vm, v: Value, oop: bool, upval: bool, rest: seq<Byte>)
    requires v.Function? && !CarriesUpvalues(vm, v, upval) && WellFormed(vm, v) && Saveable(vm, v, upval)
    ensures ParseValue(vm, Emit(vm, v, oop, upval).bytes + rest) == Got(Norm(v), rest)
  {
    ClosedConcat([T_FUNCTION], AllChunks(v.dump), SizeBytes(0), IntBytes(0), [], rest);
    assert v.env == 0 && |v.ups| == 0;
    ClosedFunctionBytes(vm, v.dump, rest);
  }

  lemma ClosedFunctionBytes(vm: Vm, dump: seq<seq<Byte>>, rest: seq<Byte>)
    requires WholeAtEnd(vm, Body(dump))
    ensures ParseValue(vm, [T_FUNCTION] + (AllChunks(dump) + SizeBytes(0) + (IntBytes(0) + rest))) ==
            Got(Function([Body(dump)], 0, []), rest)
  {
    var s := AllChunks(dump) + SizeBytes(0) + (IntBytes(0) + rest);
    NoUpvalues(vm, dump, s, rest);
    AfterTag(vm, s, Function([Body(dump)], 0, []), rest);
  }

  lemma {:induction false} OpenFunctionRoundTrip(vm: Vm, v: Value, oop: bool, upval: bool, rest: seq<Byte>)
    requires v.Function? && CarriesUpvalues(vm, v, upval) && WellFormed(vm, v) && Saveable(vm, v, upval)
             && Emit(vm, v, oop, upval).code == Ok
    ensures ParseValue(vm, Emit(vm, v, oop, upval).bytes + rest) == Got(Norm(v), rest)
    decreases v, 0, 0
  {
    var idx := if v.env == 0 then -1 else v.env;
    var es := EmitEntries(vm, v.ups, oop, upval);
    var none: seq<Byte> := [];
    Then3([T_FUNCTION] + AllChunks(v.dump) + SizeBytes(0) + IntBytes(1), IntBytes(idx) + [T_TABLE], es, [T_NIL] +
      SizedBytes(none));
    var tail := SizedBytes(none) + rest;
    var entries := es.bytes + [T_NIL] + tail;
    EntriesRoundTrip(vm, v.ups, oop, upval, tail);
    UpvalueTable(vm, entries, NormEntries(v.ups), none, rest);
    OpenFunctionBytes(vm, v, idx, es.bytes, none, NormEntries(v.ups), rest);
  }

  lemma OpenFunctionBytes(vm: Vm, v: Value, idx: int, es: seq<Byte>, none: seq<Byte>, ups: seq<Entry>, rest: seq<Byte>)
    requires v.Function? && WellFormed(vm, v) && idx == (if v.env == 0 then -1 else v.env)
    requires ParseValue(vm, [T_TABLE] + (es + [T_NIL] + (SizedBytes(none) + rest))) == Got(Table(ups, none), rest)
    ensures ParseValue(vm, [T_FUNCTION] + AllChunks(v.dump) + SizeBytes(0) + IntBytes(1) +
            (IntBytes(idx) + [T_TABLE] + (es + ([T_NIL] + SizedBytes(none)))) + rest)
            == Got(Function([Body(v.dump)], v.env, ups), rest)
  {
    var table := [T_TABLE] + (es + [T_NIL] + (SizedBytes(none) + rest));
    var s := AllChunks(v.dump) + SizeBytes(0) + (IntBytes(1) + (IntBytes(idx) + table));
    FunctionParts(vm, v, s, 1, idx, table);
    AfterTag(vm, s, Function([Body(v.dump)], v.env, ups), rest);
    FunctionConcat([T_FUNCTION], AllChunks(v.dump), SizeBytes(0), IntBytes(1), IntBytes(idx), [T_TABLE], es, [T_NIL],
      SizedBytes(none), rest);
  }

  lemma AfterTag(vm: Vm, s: seq<Byte>, v: Value, rest: seq<Byte>)
    requires ParseFunction(vm, s) == Got(v, rest)
    ensures ParseValue(vm, [T_FUNCTION] + s) == Got(v, rest)
  {
    assert ([T_FUNCTION] + s)[1..] == s;
  }

  lemma UpvalueTable(vm: Vm, s: seq<Byte>, entries: seq<Entry>, meta: seq<Byte>, rest: seq<Byte>)
    requires |meta| < SIZE_LIMIT && ParseEntries(vm, s) == Got(entries, SizedBytes(meta) + rest)
    ensures ParseValue(vm, [T_TABLE] + s) == Got(Table(entries, meta), rest)
  {
    TakeSizedBack(meta, rest);
    assert ([T_TABLE] + s)[1..] == s;
  }

  lemma NoUpvalues(vm: Vm, dump: seq<seq<Byte>>, s: seq<Byte>, rest: seq<Byte>)
    requires WholeAtEnd(vm, Body(dump)) && s == AllChunks(dump) + SizeBytes(0) + (IntBytes(0) + rest)
    ensures ParseFunction(vm, s) == Got(Function([Body(dump)], 0, []), rest)
  {
    TakesBody(vm, dump, IntBytes(0) + rest);
    TakePrefix(IntBytes(0), rest);
    IntRoundTrip(0);
  }

  lemma FunctionParts(vm: Vm, v: Value, s: seq<Byte>, flag: int, idx: int, table: seq<Byte>)
    requires v.Function? && WellFormed(vm, v) && flag == 1 && idx == (if v.env == 0 then -1 else v.env)
    requires s == AllChunks(v.dump) + SizeBytes(0) + (IntBytes(flag) + (IntBytes(idx) + table))
    requires ParseValue(vm, table).Got? && ParseValue(vm, table).value.Table?
    ensures ParseFunction(vm, s) ==
            Got(Function([Body(v.dump)], v.env, ParseValue(vm, table).value.entries), ParseValue(vm, table).rest)
  {
    TakesBody(vm, v.dump, IntBytes(flag) + (IntBytes(idx) + table));
    TakePrefix(IntBytes(flag), IntBytes(idx) + table);
    TakePrefix(IntBytes(idx), table);
    IntRoundTrip(flag);
    IntRoundTrip(idx);
  }
}

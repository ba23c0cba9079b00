/** The byte ring of src/ringbuffer.c. */
module RingBuffer {
  import opened Arithmetic
  import opened Bytes
  import opened Sequences

  // ----- the bounded queue that the ring refines -----

  /** `mark`: how many bytes the queue held at the last push of the write position. */
  datatype ByteQueue = ByteQueue(capacity: nat, bytes: seq<Byte>, mark: nat) {
    function Free(): int {
      capacity - |bytes|
    }
  }

  function Min(a: int, b: int): int {
    if a < b then a else b
  }

  /** As much of data as fits. */
  function Written(q: ByteQueue, data: seq<Byte>): ByteQueue
    requires |q.bytes| <= q.capacity
  {
    q.(bytes := q.bytes + data[..Min(|data|, q.Free())])
  }

  function Marked(q: ByteQueue): ByteQueue {
    q.(mark := |q.bytes|)
  }

  function RolledBack(q: ByteQueue): ByteQueue
    requires q.mark <= |q.bytes|
  {
    q.(bytes := q.bytes[..q.mark])
  }

  function WriteAll(q: ByteQueue, writes: seq<seq<Byte>>): (r: ByteQueue)
    requires |q.bytes| <= q.capacity
    ensures |r.bytes| <= r.capacity == q.capacity && r.mark == q.mark && q.bytes <= r.bytes
    decreases |writes|
  {
    if |writes| == 0 then q else WriteAll(Written(q, writes[0]), writes[1..])
  }

  /** Rolling back undoes any writes since the mark, whether or not they fitted. */
  lemma RollBackUndoesWrites(q: ByteQueue, writes: seq<seq<Byte>>)
    requires |q.bytes| <= q.capacity
    ensures RolledBack(WriteAll(Marked(q), writes)) == Marked(q)
  {
    var r := WriteAll(Marked(q), writes);
    assert r.bytes[..|q.bytes|] == q.bytes;
  }

  /** Writing in pieces is writing the whole, cut where the room ends. */
  lemma {:induction false} PiecesAreTheWhole(q: ByteQueue, a: seq<Byte>, b: seq<Byte>)
    requires |q.bytes| <= q.capacity
    ensures Written(Written(q, a), b) == Written(q, a + b)
  {
    var n := Min(|a|, q.Free());
    var q1 := Written(q, a);
    var m := Min(|b|, q1.Free());
    assert n < |a| ==> m == 0;
    assert (a + b)[..Min(|a + b|, q.Free())] == a[..n] + b[..m];
  }

  // ----- reading around the end of the buffer -----

  function Around(x: nat, size: nat): nat {
    if x < size then x else x - size
  }

  /** The n bytes from position `from` on. */
  function Unroll(s: seq<Byte>, from: nat, n: nat): (r: seq<Byte>)
    requires from < |s| && n <= |s|
    ensures |r| == n
  {
    seq(n, k requires 0 <= k < n => s[Around(from + k, |s|)])
  }

  /** The buffer after data was copied to position `at`, continuing at the front. */
  function Stored(s: seq<Byte>, at: nat, data: seq<Byte>): (r: seq<Byte>)
    requires at < |s| && |data| <= |s|
    ensures |r| == |s|
  {
    seq(|s|, k requires 0 <= k < |s| =>
      if at <= k < at + |data| then data[k - at] else if k + |s| < at + |data| then data[k + |s| - at] else s[k])
  }

  /** Without going around, one copy does it. */
  lemma StoredAtOnce(s: seq<Byte>, at: nat, data: seq<Byte>)
    requires at < |s| && at + |data| <= |s|
    ensures Stored(s, at, data) == Splice(s, at, data)
  {
  }

  /** Two copies always do, split at the end of the buffer. */
  lemma StoredInTwo(s: seq<Byte>, at: nat, data: seq<Byte>)
    requires at < |s| && |data| <= |s| <= at + |data|
    ensures Stored(s, at, data) == Splice(Splice(s, at, data[..|s| - at]), 0, data[|s| - at..])
  {
  }

  /** The new bytes follow the n old ones, which are untouched. */
  lemma StoredExtends(s: seq<Byte>, from: nat, n: nat, data: seq<Byte>)
    requires from < |s| && n + |data| <= |s|
    ensures Around(from + n, |s|) < |s|
    ensures Unroll(Stored(s, Around(from + n, |s|), data), from, n + |data|) == Unroll(s, from, n) + data
  {
    var t := Stored(s, Around(from + n, |s|), data);
    var l, r := Unroll(t, from, n + |data|), Unroll(s, from, n) + data;
    forall k | 0 <= k < |l|
      ensures l[k] == r[k]
    {
      UnrollAt(t, from, n + |data|, k);
      if k < n { UnrollAt(s, from, n, k); }
      StoredAt(s, from, n, data, k);
    }
  }

  /** Byte k from position `from` on, after data was stored behind n bytes. */
  lemma StoredAt(s: seq<Byte>, from: nat, n: nat, data: seq<Byte>, k: nat)
    requires from < |s| && k < n + |data| <= |s|
    ensures Stored(s, Around(from + n, |s|), data)[Around(from + k, |s|)] == if k < n then s[Around(from + k, |s|)]
            else data[k - n]
  {
  }

  lemma UnrollAt(s: seq<Byte>, from: nat, n: nat, k: nat)
    requires from < |s| && n <= |s| && k < n
    ensures Around(from + k, |s|) < |s| && Unroll(s, from, n)[k] == s[Around(from + k, |s|)]
  {
  }

  lemma UnrollSplits(s: seq<Byte>, from: nat, n: nat, i: nat)
    requires from < |s| && i <= n <= |s|
    ensures Around(from + i, |s|) < |s|
    ensures Unroll(s, from, n) == Unroll(s, from, i) + Unroll(s, Around(from + i, |s|), n - i)
  {
    var l, r := Unroll(s, from, n), Unroll(s, from, i) + Unroll(s, Around(from + i, |s|), n - i);
    forall k | 0 <= k < n
      ensures l[k] == r[k]
    {
      UnrollAt(s, from, n, k);
      if k < i { UnrollAt(s, from, i, k); } else { UnrollAt(s, Around(from + i, |s|), n - i, k - i); }
    }
  }

  /** (x % size) where the source takes it. */
  method Position(x: nat, size: nat) returns (r: nat)
    requires 0 < size <= x < 2 * size
    ensures r == x - size
  {
    WrapOnce(x, size);
    r := x % size;
  }

  method Copy(dst: array<Byte>, at: nat, data: seq<Byte>)
    requires at + |data| <= dst.Length
    modifies dst
    ensures dst[..] == Splice(old(dst[..]), at, data)
  {
    ghost var after := Splice(dst[..], at, data);
    forall k | 0 <= k < |data| { dst[at + k] := data[k]; }
    assert forall k :: 0 <= k < dst.Length ==> dst[..][k] == after[k];
  }

  /** The copying half of ringbuffer_write: one memcpy, or two around the end of the buffer. */
  method Store(dst: array<Byte>, at: nat, data: seq<Byte>)
    requires at < dst.Length && |data| <= dst.Length
    modifies dst
    ensures dst[..] == Stored(old(dst[..]), at, data)
  {
    if at + |data| < dst.Length {
      StoredAtOnce(dst[..], at, data);
      Copy(dst, at, data);
    } else {
      StoredInTwo(dst[..], at, data);
      var size2 := Position(at + |data|, dst.Length);
      var size1 := |data| - size2;
      Copy(dst, at, data[..size1]);
      Copy(dst, 0, data[size1..]);
    }
  }

  /** The copying half of ringbuffer_read. */
  method Fetch(src: array<Byte>, at: nat, n: nat) returns (out: seq<Byte>)
    requires at < src.Length && n <= src.Length
    ensures out == Unroll(src[..], at, n)
  {
    if at + n < src.Length {
      out := src[at..at + n];
    } else {
      var size2 := Position(at + n, src.Length);
      var size1 := n - size2;
      out := src[at..at + size1] + src[..size2];
    }
    forall k | 0 <= k < n
      ensures out[k] == Unroll(src[..], at, n)[k]
    {
      UnrollAt(src[..], at, n, k);
    }
  }

  /** Bytes copied to the front are read from the front. */
  lemma FrontIsRead(s: seq<Byte>, data: seq<Byte>)
    requires 0 < |s| && |data| <= |s|
    ensures Unroll(Splice(s, 0, data), 0, |data|) == data
  {
    forall k | 0 <= k < |data|
      ensures Unroll(Splice(s, 0, data), 0, |data|)[k] == data[k]
    {
      UnrollAt(Splice(s, 0, data), 0, |data|, k);
    }
  }

  // ----- the ring -----

  class Ring {
    var buf: array<Byte>
    var rp: nat
    var wp: nat
    var rcb: nat
    var savedWp: nat
    var savedRcb: nat

    ghost predicate Valid()
      reads this
    {
      rp < buf.Length && wp < buf.Length && rcb <= buf.Length
    }

    /** The write position follows the last readable byte. */
    ghost predicate Aligned()
      reads this
    {
      wp == Around(rp + rcb, buf.Length)
    }

    /** Nothing but writes happened since the last push. */
    ghost predicate MarkHolds()
      reads this
    {
      savedRcb <= rcb && savedWp == Around(rp + savedRcb, buf.Length)
    }

    ghost function Contents(): (s: seq<Byte>)
      requires Valid()
      reads this, buf
      ensures |s| == rcb
    {
      Unroll(buf[..], rp, rcb)
    }

    ghost function View(): ByteQueue
      requires Valid()
      reads this, buf
    {
      ByteQueue(buf.Length, Contents(), savedRcb)
    }

    constructor (cb: nat)
      requires cb > 0
      ensures Valid() && Aligned() && fresh(buf)
      ensures View() == ByteQueue(cb, [], 0)
      ensures rp == wp == 0
    {
      buf := new Byte[cb];
      rp, wp, rcb, savedWp, savedRcb := 0, 0, 0, 0, 0;
    }

    /** ringbuffer_write: as many bytes as there is room for, in order. */
    method Write(data: seq<Byte>) returns (i: nat)
      requires Valid() && Aligned()
      modifies this`wp, this`rcb, buf
      ensures Valid() && Aligned()
      ensures i == Min(|data|, old(View()).Free())
      ensures View() == Written(old(View()), data)
      ensures old(MarkHolds()) ==> MarkHolds()
    {
      i := if |data| < buf.Length - rcb then |data| else buf.Length - rcb;
      ghost var before := buf[..];
      StoredExtends(before, rp, rcb, data[..i]);
      Store(buf, wp, data[..i]);
      ghost var after := buf[..];
      Advance(i);
      assert buf[..] == after;
    }

    /** ringbuffer_write without input: the bytes are already in the buffer. */
    method Claim(cb: nat) returns (i: nat)
      requires Valid()
      modifies this`wp, this`rcb
      ensures Valid()
      ensures i == Min(cb, buf.Length - old(rcb)) && rcb == old(rcb) + i
    {
      i := if cb < buf.Length - rcb then cb else buf.Length - rcb;
      Advance(i);
    }

    /** The cursor half of ringbuffer_write. */
    method Advance(i: nat)
      requires Valid() && rcb + i <= buf.Length
      modifies this`wp, this`rcb
      ensures Valid() && rcb == old(rcb) + i
      ensures old(Aligned()) ==> Aligned()
    {
      if wp + i < buf.Length {
        wp := wp + i;
      } else {
        wp := Position(wp + i, buf.Length);
      }
      rcb := rcb + i;
    }

    /** ringbuffer_read */
    method Read(cb: nat) returns (out: seq<Byte>)
      requires Valid()
      modifies this`rp, this`rcb
      ensures Valid()
      ensures |out| == Min(cb, old(rcb))
      ensures old(Contents()) == out + Contents()
      ensures old(Aligned()) ==> Aligned()
    {
      var i := if cb < rcb then cb else rcb;
      out := Fetch(buf, rp, i);
      UnrollSplits(buf[..], rp, rcb, i);
      if rp + i < buf.Length {
        rp := rp + i;
      } else {
        rp := Position(rp + i, buf.Length);
      }
      rcb := rcb - i;
    }

    /** ringbuffer_grow_by */
    method GrowBy(cb: nat)
      requires Valid() && cb > 0
      modifies this
      ensures Valid() && Aligned() && fresh(buf)
      ensures View() == ByteQueue(old(buf.Length) + cb, old(Contents()), 0)
    {
      var newBuf := new Byte[buf.Length + cb];
      var bytes := Read(newBuf.Length);
      var n := |bytes|;
      FrontIsRead(newBuf[..], bytes);
      Copy(newBuf, 0, bytes);
      buf := newBuf;
      rp, wp, rcb, savedWp, savedRcb := 0, n, n, 0, 0;
    }

    method PushWritePos()
      requires Valid()
      modifies this`savedWp, this`savedRcb
      ensures Valid() && View() == Marked(old(View()))
      ensures savedWp == wp && savedRcb == rcb
      ensures Aligned() ==> MarkHolds()
    {
      savedWp, savedRcb := wp, rcb;
    }

    /** ringbuffer_pop_write_pos.  It restores the queue if nothing but writes happened. */
    method PopWritePos()
      requires Valid() && savedWp < buf.Length && savedRcb <= buf.Length
      modifies this`wp, this`rcb
      ensures Valid() && wp == savedWp && rcb == savedRcb
      ensures old(MarkHolds()) ==> Aligned() && MarkHolds() && View() == RolledBack(old(View()))
    {
      wp, rcb := savedWp, savedRcb;
    }

    /** ringbuffer_reset_read_pos */
    method ResetReadPos()
      requires Valid()
      modifies this`rp
      ensures Valid() && rp == 0
    {
      rp := 0;
    }
  }
}

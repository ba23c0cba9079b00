/** Messages over a byte stream: sock_send, sock_recv, sock_send_msg and sock_recv_msg of src/cliser.c. */
module Framing {
  import opened Bytes
  import opened Sequences
  import opened RingBuffer
  import opened Serialize
  import opened Acceptance
  import opened SaveLoad
  import opened Growth

  const SEND_RECV_SIZE: nat := 16 * 1024
  const LEN_INVALID: nat := 0xFFFF_FFFF_FFFF_FFFF

  /** One direction of a connected pair of sockets.  A call moves as many bytes as it likes, but
      at least one, or fails; `broken` says that one has failed. */
  class Wire {
    var bytes: seq<Byte>
    var broken: bool

    constructor ()
      ensures bytes == [] && !broken
    {
      bytes, broken := [], false;
    }

    method Send(data: seq<Byte>) returns (ret: int)
      requires |data| > 0
      modifies this
      ensures broken == (old(broken) || ret < 0)
      ensures ret < 0 ==> bytes == old(bytes)
      ensures ret >= 0 ==> 0 < ret <= |data| && bytes == old(bytes) + data[..ret]
    {
      if * {
        broken := true;
        return -1;
      }
      ret :| 0 < ret <= |data|;
      bytes := bytes + data[..ret];
    }

    method Recv(max: nat) returns (ret: int, data: seq<Byte>)
      requires max > 0 && |bytes| > 0
      modifies this
      ensures broken == (old(broken) || ret < 0)
      ensures ret < 0 ==> bytes == old(bytes)
      ensures ret >= 0 ==> 0 < ret <= max && |data| == ret && old(bytes) == data + bytes
    {
      if * {
        broken := true;
        return -1, [];
      }
      ret :| 0 < ret <= max && ret <= |bytes|;
      data, bytes := bytes[..ret], bytes[ret..];
    }
  }

  lemma SendsMore(before: seq<Byte>, data: seq<Byte>, done: nat, ret: nat)
    requires done + ret <= |data|
    ensures before + data[..done] + data[done..][..ret] == before + data[..done + ret]
  {
    assert data[..done] + data[done..][..ret] == data[..done + ret];
  }

  /** sock_send: everything, or 0 after some part of it, when a call failed. */
  method SockSend(w: Wire, data: seq<Byte>) returns (n: nat, ghost sent: nat)
    modifies w
    ensures w.broken == (old(w.broken) || sent < |data|)
    ensures sent <= |data| && w.bytes == old(w.bytes) + data[..sent]
    ensures n == if sent == |data| then |data| else 0
  {
    var rem := |data|;
    while rem > 0
      invariant 0 <= rem <= |data| && w.bytes == old(w.bytes) + data[..|data| - rem] && w.broken == old(w.broken)
    {
      var done := |data| - rem;
      var ret := w.Send(data[done..]);
      if ret < 0 {
        return 0, done;
      }
      SendsMore(old(w.bytes), data, done, ret);
      rem := rem - ret;
    }
    n, sent := |data|, |data|;
  }

  lemma SplicesMore(s: seq<Byte>, a: seq<Byte>, b: seq<Byte>)
    requires |a| + |b| <= |s|
    ensures Splice(Splice(s, 0, a), |a|, b) == Splice(s, 0, a + b)
  {
  }

  lemma ReceivesMore(all: seq<Byte>, got: seq<Byte>, data: seq<Byte>, rest: seq<Byte>)
    requires all == got + (data + rest)
    ensures all == (got + data) + rest
  {
  }

  /** sock_recv of len bytes to the front of dst, once they are on their way.  `ok`: no call failed. */
  method SockRecv(w: Wire, dst: array<Byte>, len: nat) returns (n: nat, ghost ok: bool)
    requires len <= dst.Length && len <= |w.bytes|
    modifies w, dst
    ensures w.broken == (old(w.broken) || !ok)
    ensures ok ==> n == len && w.bytes == old(w.bytes)[len..]
    ensures ok ==> dst[..] == Splice(old(dst[..]), 0, old(w.bytes)[..len])
    ensures !ok ==> n == 0 && len > 0
  {
    var rem := len;
    ghost var got := [];
    ghost var before, all := dst[..], w.bytes;
    while rem > 0
      invariant 0 <= rem <= len && |got| == len - rem
      invariant all == got + w.bytes && w.broken == old(w.broken)
      invariant dst[..] == Splice(before, 0, got)
    {
      var ret, data := w.Recv(rem);
      if ret < 0 {
        return 0, false;
      }
      ReceivesMore(all, got, data, w.bytes);
      SplicesMore(before, got, data);
      Copy(dst, len - rem, data);
      got := got + data;
      rem := rem - ret;
    }
    assert all[..len] == got && all[len..] == w.bytes;
    n, ok := len, true;
  }

  // ----- messages -----

  function Frame(body: seq<Byte>): seq<Byte> {
    SizeBytes(|body|) + body
  }

  datatype SendResult = Sent | Unsaved(code: Code) | SendFailed

  /** sock_send_msg.  The message is saved behind whatever the ring holds, and everything the ring
      then holds is sent.  A refused message stays in the ring as far as it went. */
  method SendMsg(vm: Vm, v: Value, w: Wire, rb: Ring) returns (r: SendResult)
    requires rb.Valid() && rb.Aligned() && rb.rp == 0 && Saveable(vm, v, false)
    modifies w, rb`wp, rb`rcb, rb`savedWp, rb`savedRcb, rb.buf
    ensures rb.Valid() && rb.Aligned() && rb.rp == 0 && w.broken == (old(w.broken) || r == SendFailed)
    ensures r.Unsaved? <==> !(Accepts(v, true) && |Emit(vm, v, true, false).bytes| <= old(rb.View()).Free())
    ensures SaveCode(Emit(vm, v, true, false), old(rb.View()).Free()) != Ok ==>
              && r == Unsaved(SaveCode(Emit(vm, v, true, false), old(rb.View()).Free())) && w.bytes == old(w.bytes)
              && rb.View().bytes == Written(old(rb.View()), Emit(vm, v, true, false).bytes).bytes
    ensures SaveCode(Emit(vm, v, true, false), old(rb.View()).Free()) == Ok ==>
              && rb.Contents() == old(rb.Contents()) && !r.Unsaved?
              && (r == Sent ==> w.bytes == old(w.bytes) + Frame(old(rb.Contents()) + Emit(vm, v, true, false).bytes))
  {
    rb.PushWritePos();
    ghost var q, out := rb.View(), Emit(vm, v, true, false);
    RollBackOne(q, out.bytes);
    var code := Save(vm, rb, v, true, false);
    if code != Ok {
      return Unsaved(code);
    }
    var len := rb.rcb;
    FrontIsContents(rb.buf[..], len);
    ghost var body := rb.Contents();
    rb.PopWritePos();
    var front := rb.buf[..len];
    r := SendFrame(w, front);
  }

  lemma FrontIsContents(s: seq<Byte>, n: nat)
    requires 0 < |s| && n <= |s|
    ensures Unroll(s, 0, n) == s[..n]
  {
    forall k | 0 <= k < n
      ensures Unroll(s, 0, n)[k] == s[..n][k]
    {
      UnrollAt(s, 0, n, k);
    }
  }

  /** The length, then that many bytes. */
  method SendFrame(w: Wire, body: seq<Byte>) returns (r: SendResult)
    modifies w
    ensures w.broken == (old(w.broken) || r == SendFailed)
    ensures !r.Unsaved? && (r == Sent ==> w.bytes == old(w.bytes) + Frame(body))
  {
    var n, _ := SockSend(w, SizeBytes(|body|));
    if n != SIZE {
      return SendFailed;
    }
    var m, sent := SockSend(w, body);
    if m != |body| {
      return SendFailed;
    }
    assert SizeBytes(|body|)[..SIZE] == SizeBytes(|body|);
    assert body[..sent] == body;
    return Sent;
  }

  datatype RecvResult = Received(value: Value) | Disconnected | TooLarge | NoRoom | RecvFailed

  function LengthAhead(bytes: seq<Byte>): nat
    requires |bytes| >= SIZE
  {
    FromLittleEndian(bytes[..SIZE])
  }

  /** The bytes that the next load sees: the body that arrived at the front of the buffer, and
      what lies behind it if earlier messages left some of theirs unread. */
  ghost function Ahead(bytes: seq<Byte>, buf: seq<Byte>, left: nat): seq<Byte>
    requires |bytes| >= SIZE && |bytes| >= SIZE + LengthAhead(bytes) && LengthAhead(bytes) + left <= |buf|
  {
    bytes[SIZE..SIZE + LengthAhead(bytes)] + buf[LengthAhead(bytes)..LengthAhead(bytes) + left]
  }

  lemma FrontAndLeft(s: seq<Byte>, body: seq<Byte>, left: nat)
    requires 0 < |s| && |body| + left <= |s|
    ensures Unroll(Splice(s, 0, body), 0, |body| + left) == body + s[|body|..|body| + left]
  {
    FrontIsContents(Splice(s, 0, body), |body| + left);
  }

  /** A whole message is on its way, and what the load will see is well formed. */
  ghost predicate Arriving(vm: Vm, bytes: seq<Byte>, buf: seq<Byte>, left: nat) {
    && |bytes| >= SIZE
    && (LengthAhead(bytes) <= SEND_RECV_SIZE ==>
          && |bytes| >= SIZE + LengthAhead(bytes)
          && (LengthAhead(bytes) + left <= |buf| ==> ParseValue(vm, Ahead(bytes, buf, left)).Got?))
  }

  /** The local that receives the length; nobody knows what it holds when the call fails. */
  method RecvLength(w: Wire) returns (n: nat, len: nat, ghost ok: bool)
    requires |w.bytes| >= SIZE
    modifies w
    ensures w.broken == (old(w.broken) || !ok)
    ensures ok ==> n == SIZE && len == LengthAhead(old(w.bytes)) && w.bytes == old(w.bytes)[SIZE..]
    ensures !ok ==> n == 0
  {
    var local := new Byte[SIZE];
    n, ok := SockRecv(w, local, SIZE);
    var bytes := local[..];
    assert ok ==> bytes == old(w.bytes)[..SIZE];
    len := FromLittleEndian(bytes);
  }

  lemma SkipTwice(later: seq<Byte>, bytes: seq<Byte>, len: nat)
    requires SIZE + len <= |bytes| && later == bytes[SIZE..]
    ensures later[..len] == bytes[SIZE..SIZE + len] && later[len..] == bytes[SIZE + len..]
  {
  }

  /** sock_recv_msg.  `ok`: no call on the socket failed. */
  method RecvMsg(vm: Vm, w: Wire, rb: Ring) returns (r: RecvResult, ghost ok: bool)
    requires rb.Valid() && rb.buf.Length == SEND_RECV_SIZE
    requires Arriving(vm, w.bytes, rb.buf[..], rb.rcb)
    modifies w, rb, rb.buf
    ensures rb.Valid() && rb.buf == old(rb.buf) && w.broken == (old(w.broken) || !ok)
    ensures !ok ==> r == RecvFailed || r == Disconnected
    ensures ok && LengthAhead(old(w.bytes)) > SEND_RECV_SIZE ==>
              && r == (if LengthAhead(old(w.bytes)) == LEN_INVALID then Disconnected else TooLarge)
              && w.bytes == old(w.bytes)[SIZE..] && rb.rcb == old(rb.rcb)
    ensures ok && LengthAhead(old(w.bytes)) <= SEND_RECV_SIZE ==>
              w.bytes == old(w.bytes)[SIZE + LengthAhead(old(w.bytes))..]
    ensures ok && LengthAhead(old(w.bytes)) <= SEND_RECV_SIZE < LengthAhead(old(w.bytes)) + old(rb.rcb) ==>
              r == NoRoom && rb.rcb == old(rb.rcb)
    ensures ok && LengthAhead(old(w.bytes)) + old(rb.rcb) <= SEND_RECV_SIZE ==>
              && r.Received?
              && ParseValue(vm, Ahead(old(w.bytes), old(rb.buf[..]), old(rb.rcb))) == Got(r.value, rb.Contents())
  {
    var n, len;
    n, len, ok := RecvLength(w);
    if len == LEN_INVALID {
      return Disconnected, ok;
    }
    if n != SIZE {
      return RecvFailed, false;
    }
    if len > SEND_RECV_SIZE {
      return TooLarge, ok;
    }
    SkipTwice(w.bytes, old(w.bytes), len);
    n, ok := SockRecv(w, rb.buf, len);
    if n != len {
      return RecvFailed, false;
    }
    r := LoadReceived(vm, rb, len, old(w.bytes)[SIZE..SIZE + len], old(rb.buf[..]));
  }

  /** The rest of sock_recv_msg: the body is at the front of the buffer. */
  method LoadReceived(vm: Vm, rb: Ring, len: nat, ghost body: seq<Byte>, ghost buf: seq<Byte>) returns (r: RecvResult)
    requires rb.Valid() && len == |body| <= rb.buf.Length == |buf| && rb.buf[..] == Splice(buf, 0, body)
    requires len + rb.rcb <= |buf| ==> ParseValue(vm, body + buf[len..len + rb.rcb]).Got?
    modifies rb
    ensures rb.Valid() && rb.buf == old(rb.buf)
    ensures len + old(rb.rcb) > |buf| ==> r == NoRoom && rb.rcb == old(rb.rcb)
    ensures len + old(rb.rcb) <= |buf| ==>
              r.Received? && ParseValue(vm, body + buf[len..len + old(rb.rcb)]) == Got(r.value, rb.Contents())
  {
    ghost var left := rb.rcb;
    rb.ResetReadPos();
    rb.PushWritePos();
    var i := rb.Claim(len);
    if i != len {
      rb.PopWritePos();
      return NoRoom;
    }
    FrontAndLeft(buf, body, left);
    var v := Load(vm, rb);
    r := Received(v);
  }

  // ----- any sequence of messages -----

  /** Values that travel in one message: 16 KB at most. */
  ghost predicate Fits(vm: Vm, v: Value) {
    WellFormed(vm, v) && Saveable(vm, v, false) && Accepts(v, true) && Size(vm, v, false) <= 16384
  }

  lemma FitsIsSaved(vm: Vm, v: Value)
    requires Fits(vm, v)
    ensures Emit(vm, v, true, false).code == Ok && |Emit(vm, v, true, false).bytes| <= SEND_RECV_SIZE
  {
    SaveAcceptsIff(vm, v, true, false);
    EmitSize(vm, v, true, false);
  }

  ghost function Frames(vm: Vm, vs: seq<Value>): seq<Byte> {
    if |vs| == 0 then [] else Frame(Emit(vm, vs[0], true, false).bytes) + Frames(vm, vs[1..])
  }

  lemma {:induction false} FramesAppend(vm: Vm, vs: seq<Value>, v: Value)
    ensures Frames(vm, vs + [v]) == Frames(vm, vs) + Frame(Emit(vm, v, true, false).bytes)
  {
    var one := Frame(Emit(vm, v, true, false).bytes);
    if |vs| == 0 {
      assert [v][1..] == [] && vs + [v] == [v];
      assert Frames(vm, [v]) == one + [];
    } else {
      FramesAppend(vm, vs[1..], v);
      assert (vs + [v])[1..] == vs[1..] + [v];
      Regroup(Frame(Emit(vm, vs[0], true, false).bytes), Frames(vm, vs[1..]), one);
    }
  }

  /** The frame in front is the one that is received. */
  lemma FrameArrives(vm: Vm, v: Value, rest: seq<Byte>, bytes: seq<Byte>, buf: seq<Byte>)
    requires Fits(vm, v) && bytes == Frame(Emit(vm, v, true, false).bytes) + rest && |buf| == SEND_RECV_SIZE
    ensures Arriving(vm, bytes, buf, 0) && LengthAhead(bytes) == |Emit(vm, v, true, false).bytes| <= SEND_RECV_SIZE
    ensures ParseValue(vm, Ahead(bytes, buf, 0)) == Got(Norm(v), []) && Same(v, Norm(v))
    ensures bytes[SIZE + LengthAhead(bytes)..] == rest
  {
    var body := Emit(vm, v, true, false).bytes;
    FitsIsSaved(vm, v);
    SizeRoundTrip(|body|);
    FrameParts(body, rest, bytes);
    RoundTrip(vm, v, true, false, []);
    assert buf[|body|..|body| + 0] == [];
  }

  lemma FrameParts(body: seq<Byte>, rest: seq<Byte>, bytes: seq<Byte>)
    requires bytes == Frame(body) + rest
    ensures |bytes| >= SIZE + |body| && bytes[..SIZE] == SizeBytes(|body|)
    ensures bytes[SIZE..SIZE + |body|] == body && bytes[SIZE + |body|..] == rest
  {
  }

  lemma OneMoreIn<T>(s: seq<T>, lo: nat, hi: nat)
    requires lo <= hi < |s|
    ensures s[lo..hi] + [s[hi]] == s[lo..hi + 1]
  {
  }

  lemma OneFewerIn<T>(s: seq<T>, lo: nat, hi: nat)
    requires lo < hi <= |s|
    ensures s[lo..hi][0] == s[lo] && s[lo..hi][1..] == s[lo + 1..hi]
  {
  }

  /** One direction of a connection: the sender's ring, the wire, the receiver's ring. */
  class Connection {
    const vm: Vm
    const wire: Wire
    const sendRb: Ring
    const recvRb: Ring
    ghost var pending: seq<Value>

    ghost predicate Valid()
      reads this, wire, sendRb, sendRb.buf, recvRb, recvRb.buf
    {
      && sendRb != recvRb && sendRb.buf != recvRb.buf
      && sendRb.Valid() && sendRb.Aligned() && sendRb.rp == sendRb.rcb == 0 && sendRb.buf.Length == SEND_RECV_SIZE
      && recvRb.Valid() && recvRb.rcb == 0 && recvRb.buf.Length == SEND_RECV_SIZE
      && (forall v :: v in pending ==> Fits(vm, v))
      && wire.bytes == Frames(vm, pending) && !wire.broken
    }

    constructor (vm: Vm)
      ensures Valid() && pending == [] && this.vm == vm
      ensures fresh(wire) && fresh(sendRb) && fresh(recvRb) && fresh(sendRb.buf) && fresh(recvRb.buf)
    {
      this.vm := vm;
      wire := new Wire();
      sendRb := new Ring(SEND_RECV_SIZE);
      recvRb := new Ring(SEND_RECV_SIZE);
      pending := [];
    }

    /** A message that fits is on its way, unless the socket failed. */
    method Send(v: Value) returns (sent: bool)
      requires Valid() && Fits(vm, v)
      modifies this, wire, sendRb, sendRb.buf
      ensures sent <==> !wire.broken
      ensures sent ==> Valid() && pending == old(pending) + [v] && sendRb.buf == old(sendRb.buf)
    {
      ghost var out := Emit(vm, v, true, false).bytes;
      FitsIsSaved(vm, v);
      var r := SendMsg(vm, v, wire, sendRb);
      sent := r == Sent;
      if sent {
        FramesAppend(vm, pending, v);
        assert [] + out == out;
        pending := pending + [v];
      }
    }

    /** However the stream is cut, the receiver gets the oldest message, and its ring is empty
        again although the write position is wherever it was left. */
    method Recv() returns (r: RecvResult)
      requires Valid() && |pending| > 0
      modifies this, wire, recvRb, recvRb.buf
      ensures r.Received? <==> !wire.broken
      ensures r.Received? ==>
                && Valid() && pending == old(pending)[1..]
                && r.value == Norm(old(pending)[0]) && Same(old(pending)[0], r.value)
      ensures recvRb.buf == old(recvRb.buf)
      ensures r.Received? || r == RecvFailed || r == Disconnected
    {
      assert Fits(vm, pending[0]);
      FrameArrives(vm, pending[0], Frames(vm, pending[1..]), wire.bytes, recvRb.buf[..]);
      ghost var ok;
      r, ok := RecvMsg(vm, wire, recvRb);
      if r.Received? {
        pending := pending[1..];
      }
    }

    /** A whole conversation, with sends and receives in any order that has something to receive. */
    method Converse(vs: seq<Value>) returns (ok: bool, out: seq<Value>)
      requires Valid() && pending == [] && forall v :: v in vs ==> Fits(vm, v)
      modifies this, wire, sendRb, sendRb.buf, recvRb, recvRb.buf
      ensures ok <==> !wire.broken
      ensures ok ==> |out| == |vs| && forall i :: 0 <= i < |vs| ==> out[i] == Norm(vs[i]) && Same(vs[i], out[i])
      ensures ok ==> Valid() && pending == []
    {
      var sent: nat := 0;
      out, ok := [], true;
      while ok && |out| < |vs|
        invariant ok ==> sendRb.buf == old(sendRb.buf) && recvRb.buf == old(recvRb.buf)
        invariant (ok ==> Midway(vs, sent, out)) && ok == !wire.broken
        decreases ok, 2 * |vs| - sent - |out|
      {
        ok, sent, out := ConverseTurn(vs, sent, out);
      }
      forall i | 0 <= i < |vs|
        ensures Same(vs[i], Norm(vs[i]))
      {
        NormIsSame(vs[i]);
      }
    }

    /** Of vs, so many were sent, and `out` was received. */
    ghost predicate Midway(vs: seq<Value>, sent: nat, out: seq<Value>)
      reads this, wire, sendRb, sendRb.buf, recvRb, recvRb.buf
    {
      && Valid() && |out| <= sent <= |vs| && pending == vs[|out|..sent]
      && forall i :: 0 <= i < |out| ==> out[i] == Norm(vs[i])
    }

    /** One message is sent, or one received. */
    method ConverseTurn(vs: seq<Value>, sent: nat, out: seq<Value>) returns (ok: bool, sent': nat, out': seq<Value>)
      requires Midway(vs, sent, out) && |out| < |vs| && forall v :: v in vs ==> Fits(vm, v)
      modifies this, wire, sendRb, sendRb.buf, recvRb, recvRb.buf
      ensures ok <==> !wire.broken
      ensures ok ==> Midway(vs, sent', out') && sent' + |out'| == sent + |out| + 1
      ensures ok ==> sendRb.buf == old(sendRb.buf) && recvRb.buf == old(recvRb.buf)
    {
      sent', out' := sent, out;
      var sending := *;
      if sent == |out| || (sent < |vs| && sending) {
        OneMoreIn(vs, |out|, sent);
        ok := Send(vs[sent]);
        sent' := sent + 1;
      } else {
        OneFewerIn(vs, |out|, sent);
        var r := Recv();
        ok := r.Received?;
        if ok {
          out' := out + [r.value];
        }
      }
    }
  }
}

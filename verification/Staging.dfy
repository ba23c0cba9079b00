/** Transfers between a device and a socket through the two halves of a host buffer
    (write_contiguous and read_contiguous of src/generic/cliser.c, for CUDA tensors off the fast path).

    Asynchronous copies run in the order in which they were issued, each at any time until an
    event recorded after it is waited for.  While one runs, what it writes is undefined.
 */
module Staging {
  import opened Sequences

  /** n elements between the front of half h and the device at position `at`. */
  datatype Copy =
    | ToHost(h: nat, at: nat, n: nat)
    | ToDevice(h: nat, at: nat, n: nat)

  datatype Memory<T> = Memory(dev: seq<T>, halves: seq<seq<T>>)

  ghost predicate Fits<T>(m: Memory<T>, c: Copy) {
    c.h < |m.halves| && c.at + c.n <= |m.dev| && c.n <= |m.halves[c.h]|
  }

  ghost predicate SameShape<T>(a: Memory<T>, b: Memory<T>) {
    |a.dev| == |b.dev| && |a.halves| == |b.halves| && forall h :: 0 <= h < |a.halves| ==> |a.halves[h]| == |b.halves[h]|
  }

  function Applied<T>(m: Memory<T>, c: Copy): (r: Memory<T>)
    requires Fits(m, c)
    ensures SameShape(r, m)
  {
    match c
    case ToHost(h, at, n) => m.(halves := m.halves[h := Splice(m.halves[h], 0, m.dev[at..at + n])])
    case ToDevice(h, at, n) => m.(dev := Splice(m.dev, at, m.halves[h][..n]))
  }

  ghost predicate AllFit<T>(m: Memory<T>, cs: seq<Copy>) {
    forall i :: 0 <= i < |cs| ==> Fits(m, cs[i])
  }

  /** The memory once all of cs have run. */
  ghost function Settle<T>(m: Memory<T>, cs: seq<Copy>): (r: Memory<T>)
    requires AllFit(m, cs)
    ensures SameShape(r, m)
    decreases |cs|
  {
    if |cs| == 0 then m else Settle(Applied(m, cs[0]), cs[1..])
  }

  lemma {:induction false} SettleAppend<T>(m: Memory<T>, cs: seq<Copy>, c: Copy)
    requires AllFit(m, cs) && Fits(m, c)
    ensures AllFit(m, cs + [c]) && Fits(Settle(m, cs), c) && Settle(m, cs + [c]) == Applied(Settle(m, cs), c)
    decreases |cs|
  {
    if |cs| == 0 {
      assert cs + [c] == [c] && [c][1..] == [];
    } else {
      SettleAppend(Applied(m, cs[0]), cs[1..], c);
      assert (cs + [c])[1..] == cs[1..] + [c];
    }
  }

  ghost predicate Busy(cs: seq<Copy>, h: nat) {
    exists i :: 0 <= i < |cs| && cs[i].h == h
  }

  /** What is done to a half that no copy uses commutes with the copies. */
  lemma {:induction false} SettleIdleHalf<T>(m: Memory<T>, cs: seq<Copy>, h: nat, data: seq<T>)
    requires AllFit(m, cs) && h < |m.halves| && !Busy(cs, h) && |data| == |m.halves[h]|
    ensures var m' := m.(halves := m.halves[h := data]);
            && Settle(m, cs).halves[h] == m.halves[h]
            && AllFit(m', cs) && Settle(m', cs) == Settle(m, cs).(halves := Settle(m, cs).halves[h := data])
    decreases |cs|
  {
    if |cs| == 0 {
    } else {
      var m' := m.(halves := m.halves[h := data]);
      assert cs[0].h != h;
      assert !Busy(cs[1..], h) by {
        assert forall i :: 0 <= i < |cs| - 1 ==> cs[1..][i] == cs[i + 1];
      }
      IdleStep(m, cs[0], h, data);
      SettleIdleHalf(Applied(m, cs[0]), cs[1..], h, data);
    }
  }

  lemma IdleStep<T>(m: Memory<T>, c: Copy, h: nat, data: seq<T>)
    requires Fits(m, c) && h < |m.halves| && c.h != h && |data| == |m.halves[h]|
    ensures var m' := m.(halves := m.halves[h := data]);
            && Fits(m', c) && Applied(m, c).halves[h] == m.halves[h]
            && Applied(m', c) == Applied(m, c).(halves := Applied(m, c).halves[h := data])
  {
    var m' := m.(halves := m.halves[h := data]);
    match c
    case ToHost(k, at, n) =>
      var half := Splice(m.halves[k], 0, m.dev[at..at + n]);
      assert m.halves[h := data][k := half] == m.halves[k := half][h := data];
    case ToDevice(k, at, n) =>
  }

  lemma {:induction false} SettleKeepsDevice<T>(m: Memory<T>, cs: seq<Copy>)
    requires AllFit(m, cs) && forall i :: 0 <= i < |cs| ==> cs[i].ToHost?
    ensures Settle(m, cs).dev == m.dev
    decreases |cs|
  {
    if |cs| == 0 {
    } else {
      SettleKeepsDevice(Applied(m, cs[0]), cs[1..]);
    }
  }

  /** The running copy's destination may hold anything: it is about to be overwritten. */
  function Scribbled<T>(m: Memory<T>, c: Copy, junk: seq<T>): (r: Memory<T>)
    requires Fits(m, c) && |junk| == c.n
    ensures SameShape(r, m)
  {
    match c
    case ToHost(h, at, n) => m.(halves := m.halves[h := Splice(m.halves[h], 0, junk)])
    case ToDevice(h, at, n) => m.(dev := Splice(m.dev, at, junk))
  }

  lemma ScribbleIsOverwritten<T>(m: Memory<T>, c: Copy, junk: seq<T>)
    requires Fits(m, c) && |junk| == c.n
    ensures Fits(Scribbled(m, c, junk), c) && Applied(Scribbled(m, c, junk), c) == Applied(m, c)
  {
    var m' := Scribbled(m, c, junk);
    match c
    case ToHost(h, at, n) =>
      assert Splice(m'.halves[h], 0, m.dev[at..at + n]) == Splice(m.halves[h], 0, m.dev[at..at + n]);
    case ToDevice(h, at, n) =>
      assert Splice(m'.dev, at, m.halves[h][..n]) == Splice(m.dev, at, m.halves[h][..n]);
  }

  /** Both halves hold a block. */
  ghost predicate Halves<T>(m: Memory<T>, block: nat) {
    |m.halves| == 2 && |m.halves[0]| == |m.halves[1]| == block
  }

  class Gpu<T> {
    const block: nat // how many elements a half holds
    var mem: Memory<T>
    var pending: seq<Copy>
    var later: nat // copies issued since the event was last recorded

    ghost predicate Valid()
      reads this
    {
      Halves(mem, block) && AllFit(mem, pending)
    }

    constructor (dev: seq<T>, half0: seq<T>, half1: seq<T>)
      requires |half0| == |half1|
      ensures Valid() && pending == [] && mem.dev == dev && block == |half0|
    {
      block := |half0|;
      mem := Memory(dev, [half0, half1]);
      pending, later := [], 0;
    }

    /** The memory once the device is idle. */
    ghost function Settled(): (m: Memory<T>)
      requires Valid()
      reads this
      ensures SameShape(m, mem)
    {
      Settle(mem, pending)
    }

    /** Time passes. */
    method Progress()
      requires Valid()
      modifies this`mem, this`pending
      ensures Valid() && Settled() == old(Settled()) && SameShape(mem, old(mem))
      ensures |pending| <= |old(pending)| && pending == old(pending)[|old(pending)| - |pending|..]
    {
      while |pending| > 0
        invariant Valid() && Settled() == old(Settled()) && SameShape(mem, old(mem))
        invariant |pending| <= |old(pending)| && pending == old(pending)[|old(pending)| - |pending|..]
      {
        if * {
          break;
        }
        if * {
          Scribble();
          break;
        }
        CompleteFirst();
      }
    }

    method Scribble()
      requires Valid() && |pending| > 0
      modifies this`mem
      ensures Valid() && Settled() == old(Settled()) && SameShape(mem, old(mem))
    {
      var junk: seq<T> := *;
      if |junk| == pending[0].n {
        ScribbleIsOverwritten(mem, pending[0], junk);
        mem := Scribbled(mem, pending[0], junk);
      }
    }

    method CompleteFirst()
      requires Valid() && |pending| > 0
      modifies this`mem, this`pending
      ensures Valid() && Settled() == old(Settled()) && SameShape(mem, old(mem))
      ensures pending == old(pending)[1..]
    {
      mem := Applied(mem, pending[0]);
      pending := pending[1..];
    }

    /** cudaMemcpyAsync */
    method Issue(c: Copy)
      requires Valid() && Fits(mem, c)
      modifies this`pending, this`later
      ensures Valid() && pending == old(pending) + [c] && later == old(later) + 1
      ensures Fits(old(Settled()), c) && Settled() == Applied(old(Settled()), c)
    {
      SettleAppend(mem, pending, c);
      pending, later := pending + [c], later + 1;
    }

    /** cudaEventRecord */
    method Record()
      modifies this`later
      ensures later == 0
    {
      later := 0;
    }

    /** cudaEventSynchronize: everything issued before the event was recorded is done. */
    method Synchronize()
      requires Valid()
      modifies this`mem, this`pending
      ensures Valid() && Settled() == old(Settled()) && SameShape(mem, old(mem))
      ensures |pending| <= later && |pending| <= |old(pending)| && pending == old(pending)[|old(pending)| - |pending|..]
    {
      while |pending| > later
        invariant Valid() && Settled() == old(Settled()) && SameShape(mem, old(mem))
        invariant |pending| <= |old(pending)| && pending == old(pending)[|old(pending)| - |pending|..]
      {
        CompleteFirst();
      }
      Progress();
    }

    /** The host reads the front of a half that no copy may be touching. */
    method ReadHalf(h: nat, n: nat) returns (data: seq<T>)
      requires Valid() && h < 2 && n <= |mem.halves[h]| && !Busy(pending, h)
      ensures |data| == n && data == Settled().halves[h][..n]
    {
      SettleIdleHalf(mem, pending, h, mem.halves[h]);
      data := mem.halves[h][..n];
    }

    /** The host fills the front of a half that no copy may be touching. */
    method FillHalf(h: nat, data: seq<T>)
      requires Valid() && h < 2 && |data| <= |mem.halves[h]| && !Busy(pending, h)
      modifies this`mem
      ensures Valid() && SameShape(mem, old(mem)) && Settled().dev == old(Settled()).dev
      ensures Settled().halves == old(Settled()).halves[h := Splice(old(Settled()).halves[h], 0, data)]
    {
      var half := Splice(mem.halves[h], 0, data);
      SettleIdleHalf(mem, pending, h, half);
      mem := mem.(halves := mem.halves[h := half]);
    }
  }

  // ----- device to socket -----

  /** Only half h is in use by copies, and all of them are covered by the event. */
  ghost predicate OnlyUses<T>(g: Gpu<T>, h: nat)
    reads g
  {
    g.later == 0 && forall i :: 0 <= i < |g.pending| ==> g.pending[i].h == h
  }

  lemma FrontOfSplice<T>(s: seq<T>, data: seq<T>)
    requires |data| <= |s|
    ensures Splice(s, 0, data)[..|data|] == data
  {
  }

  /** A block starts on its way to half h. */
  method StartToHost<T>(g: Gpu<T>, h: nat, at: nat, n: nat)
    requires g.Valid() && g.pending == [] && h < 2 && at + n <= |g.mem.dev| && n <= g.block
    modifies g
    ensures g.Valid() && OnlyUses(g, h)
    ensures g.Settled().dev == old(g.mem.dev) && g.Settled().halves[h][..n] == old(g.mem.dev)[at..at + n]
    ensures g.Settled().halves[1 - h] == old(g.mem.halves[1 - h])
  {
    HostGets(g.mem, h, at, n);
    g.Issue(ToHost(h, at, n));
    ghost var m := g.Settled();
    g.Progress();
    g.Record();
    g.Progress();
    assert g.Settled() == m;
  }

  lemma HostGets<T>(m: Memory<T>, h: nat, at: nat, n: nat)
    requires |m.halves| == 2 && Fits(m, ToHost(h, at, n))
    ensures var r := Applied(m, ToHost(h, at, n));
            r.dev == m.dev && r.halves[h][..n] == m.dev[at..at + n] && r.halves[1 - h] == m.halves[1 - h]
  {
    FrontOfSplice(m.halves[h], m.dev[at..at + n]);
  }

  lemma SliceMore<T>(s: seq<T>, a: nat, b: nat, c: nat)
    requires a <= b <= c <= |s|
    ensures s[a..b] + s[b..c] == s[a..c]
  {
  }

  /** The last n elements before ptr are, or will be, at the front of half h, and everything
      before them was sent. */
  ghost predicate Sending<T>(g: Gpu<T>, dev: seq<T>, h: nat, start: nat, ptr: nat, n: nat, sent: seq<T>)
    reads g
  {
    && g.Valid() && h < 2 && n <= g.block && start + n <= ptr <= |dev|
    && (if n == 0 then g.pending == [] && ptr == start else OnlyUses(g, h))
    && g.Settled().dev == dev && g.Settled().halves[h][..n] == dev[ptr - n..ptr]
    && sent == dev[start..ptr - n]
  }

  /** One turn of the loop: the next block starts, the last one is sent. */
  method SendTurn<T>(
    g: Gpu<T>, ghost dev: seq<T>, which: nat, ghost start: nat, ptr: nat, last: nat, sent: seq<T>, cb: nat)
    returns (more: seq<T>, other: nat, next: nat)
    requires which < 2 && Sending(g, dev, 1 - which, start, ptr, last, sent)
    requires 0 < cb <= g.block && ptr + cb <= |dev|
    modifies g
    ensures other == 1 - which && next == ptr + cb
    ensures Sending(g, dev, 1 - other, start, next, cb, more)
  {
    other, next := 1 - which, ptr + cb;
    Landed(g, dev, other, start, ptr, last, sent);
    StartToHost(g, which, ptr, cb);
    ghost var m := g.Settled();
    more := SendHalf(g, dev, other, start, ptr, last, sent);
    assert g.Settled() == m && m.dev == dev && m.halves[which][..cb] == dev[next - cb..next];
  }

  /** If a block is on its way, it is waited for. */
  method Landed<T>(g: Gpu<T>, ghost dev: seq<T>, h: nat, ghost start: nat, ghost ptr: nat, n: nat, ghost sent: seq<T>)
    requires Sending(g, dev, h, start, ptr, n, sent)
    modifies g
    ensures g.Valid() && g.pending == []
    ensures g.mem.dev == dev && g.mem.halves[h][..n] == dev[ptr - n..ptr]
  {
    if n > 0 {
      g.Synchronize();
    }
  }

  /** If a block was waited for, it is sent. */
  method SendHalf<T>(g: Gpu<T>, ghost dev: seq<T>, h: nat, ghost start: nat, ghost ptr: nat, n: nat, sent: seq<T>)
    returns (more: seq<T>)
    requires g.Valid() && h < 2 && n <= g.block && OnlyUses(g, 1 - h) && start + n <= ptr <= |dev|
    requires g.Settled().halves[h][..n] == dev[ptr - n..ptr] && sent == dev[start..ptr - n]
    modifies g
    ensures g.Valid() && OnlyUses(g, 1 - h) && g.Settled() == old(g.Settled())
    ensures more == dev[start..ptr]
  {
    more := sent;
    if n > 0 {
      var data := g.ReadHalf(h, n);
      more := sent + data;
      SliceMore(dev, start, ptr - n, ptr);
      g.Progress();
    }
  }

  /** write_contiguous: whenever the copies run, the elements go out in order, each once. */
  method WriteContiguous<T>(g: Gpu<T>, start: nat, total: nat) returns (sent: seq<T>)
    requires g.Valid() && g.pending == [] && g.block > 0 && start + total <= |g.mem.dev|
    modifies g
    ensures g.Valid() && g.pending == [] && g.mem.dev == old(g.mem.dev)
    ensures sent == old(g.mem.dev)[start..start + total]
  {
    var which, last;
    sent, which, last := SendAll(g, g.mem.dev, start, total);
    if last > 0 {
      sent := SendLast(g, old(g.mem.dev), 1 - which, start, start + total, last, sent);
    }
  }

  /** The loop of write_contiguous. */
  method SendAll<T>(g: Gpu<T>, ghost dev: seq<T>, start: nat, total: nat) returns (sent: seq<T>, which: nat, last: nat)
    requires g.block > 0 && start + total <= |dev| && Sending(g, dev, 1, start, start, 0, [])
    modifies g
    ensures which < 2 && Sending(g, dev, 1 - which, start, start + total, last, sent)
  {
    ghost var end := start + total;
    sent, which, last := [], 0, 0;
    var count: nat, ptr: nat := total, start;
    while count > 0
      invariant which < 2 && count <= total && ptr == start + total - count
      invariant Sending(g, dev, 1 - which, start, ptr, last, sent)
    {
      var cb := if count > g.block then g.block else count;
      sent, which, ptr := SendTurn(g, dev, which, start, ptr, last, sent, cb);
      count := count - cb;
      last := cb;
    }
    assert ptr == end;
  }

  method SendLast<T>(g: Gpu<T>, ghost dev: seq<T>, h: nat, ghost start: nat, ghost ptr: nat, last: nat, sent: seq<T>)
    returns (all: seq<T>)
    requires last > 0 && Sending(g, dev, h, start, ptr, last, sent)
    modifies g
    ensures g.Valid() && g.pending == [] && g.mem.dev == dev && all == dev[start..ptr]
  {
    g.Synchronize();
    var data := g.ReadHalf(h, last);
    SliceMore(dev, start, ptr - last, ptr);
    all := sent + data;
  }

  // ----- socket to device -----

  /** Of `data`, the first `got` elements were received.  The last n of them are at the front of
      half h, and no copy touches it; the others are, or will be, on the device from start on. */
  ghost predicate Receiving<T>(g: Gpu<T>, dev: seq<T>, h: nat, start: nat, data: seq<T>, got: nat, n: nat)
    reads g
  {
    && g.Valid() && h < 2 && n <= g.block && n <= got <= |data| && start + |data| <= |dev|
    && OnlyUses(g, 1 - h)
    && g.Settled().dev == Splice(dev, start, data[..got - n])
    && g.Settled().halves[h][..n] == data[got - n..got]
  }

  lemma SpliceMore<T>(s: seq<T>, at: nat, data: seq<T>, i: nat, j: nat)
    requires i <= j <= |data| && at + |data| <= |s|
    ensures Splice(Splice(s, at, data[..i]), at + i, data[i..j]) == Splice(s, at, data[..j])
  {
  }

  /** The received block starts on its way to the device. */
  method StartToDevice<T>(
    g: Gpu<T>, ghost dev: seq<T>, h: nat, ptr: nat, n: nat, ghost start: nat, ghost data: seq<T>, ghost got: nat)
    requires Receiving(g, dev, h, start, data, got, n) && ptr == start + got - n
    modifies g
    ensures g.Valid() && OnlyUses(g, h)
    ensures g.Settled().dev == Splice(dev, start, data[..got])
  {
    g.Synchronize();
    assert g.mem.halves[h][..n] == data[got - n..got] && g.mem.dev == Splice(dev, start, data[..got - n]);
    SpliceMore(dev, start, data, got - n, got);
    assert Applied(g.mem, ToDevice(h, ptr, n)).dev == Splice(dev, start, data[..got]);
    g.Issue(ToDevice(h, ptr, n));
    ghost var m := g.Settled();
    g.Progress();
    g.Record();
    g.Progress();
    assert g.Settled() == m;
  }

  /** The next block is received into half h. */
  method ReceiveBlock<T>(
    g: Gpu<T>, ghost dev: seq<T>, h: nat, block: seq<T>, ghost start: nat, ghost data: seq<T>, ghost got: nat)
    requires g.Valid() && h < 2 && OnlyUses(g, 1 - h) && start + |data| <= |dev| && |block| <= g.block
    requires got + |block| <= |data| && block == data[got..got + |block|]
             && g.Settled().dev == Splice(dev, start, data[..got])
    modifies g
    ensures Receiving(g, dev, h, start, data, got + |block|, |block|)
  {
    FrontOfSplice(g.Settled().halves[h], block);
    g.FillHalf(h, block);
    g.Progress();
  }

  /** One turn of the loop: the last block leaves for the device, the next one is received. */
  method ReceiveTurn<T>(
    g: Gpu<T>, ghost dev: seq<T>, which: nat, ptr: nat, last: nat, block: seq<T>, ghost start: nat,
      ghost data: seq<T>, ghost got: nat)
    returns (other: nat, next: nat)
    requires which < 2 && Receiving(g, dev, 1 - which, start, data, got, last) && ptr == start + got - last
    requires last == 0 ==> g.pending == []
    requires |block| <= g.block && got + |block| <= |data| && block == data[got..got + |block|]
    modifies g
    ensures other == 1 - which && next == ptr + last
    ensures Receiving(g, dev, 1 - other, start, data, got + |block|, |block|)
  {
    if last > 0 {
      StartToDevice(g, dev, 1 - which, ptr, last, start, data, got);
    }
    ReceiveBlock(g, dev, which, block, start, data, got);
    other, next := 1 - which, ptr + last;
  }

  /** read_contiguous: whenever the copies run, the device ends up with the elements received. */
  method ReadContiguous<T>(g: Gpu<T>, start: nat, data: seq<T>)
    requires g.Valid() && g.pending == [] && g.block > 0 && start + |data| <= |g.mem.dev|
    modifies g
    ensures g.Valid() && g.pending == []
    ensures g.mem.dev == old(g.mem.dev)[..start] + data + old(g.mem.dev)[start + |data|..]
  {
    SpliceParts(g.mem.dev, start, data);
    assert Splice(g.mem.dev, start, data[..0]) == g.mem.dev && data[..|data|] == data;
    if |data| > 0 {
      g.Record();
      var which, last, ptr := ReceiveAll(g, g.mem.dev, start, data);
      FinishToDevice(g, old(g.mem.dev), 1 - which, ptr, last, start, data);
    }
  }

  /** The loop of read_contiguous. */
  method ReceiveAll<T>(g: Gpu<T>, ghost dev: seq<T>, start: nat, data: seq<T>) returns (which: nat, last: nat, ptr: nat)
    requires g.block > 0 && g.pending == [] && Receiving(g, dev, 1, start, data, 0, 0)
    modifies g
    ensures which < 2 && last <= |data| && ptr == start + |data| - last
    ensures Receiving(g, dev, 1 - which, start, data, |data|, last)
  {
    which, last, ptr := 0, 0, start;
    var count: nat := |data|;
    while count > 0
      invariant Turning(g, dev, start, data, which, last, ptr, count)
    {
      which, last, ptr, count := ReceiveNext(g, dev, start, data, which, last, ptr, count);
    }
  }

  /** Between two turns: `count` elements are still to be received. */
  ghost predicate Turning<T>(
    g: Gpu<T>, dev: seq<T>, start: nat, data: seq<T>, which: nat, last: nat, ptr: nat, count: nat)
    reads g
  {
    && which < 2 && count <= |data| && last <= |data| - count && ptr == start + (|data| - count) - last
    && (last == 0 ==> g.pending == []) && Receiving(g, dev, 1 - which, start, data, |data| - count, last)
  }

  method ReceiveNext<T>(
    g: Gpu<T>, ghost dev: seq<T>, start: nat, data: seq<T>, which: nat, last: nat, ptr: nat, count: nat)
    returns (other: nat, cb: nat, next: nat, left: nat)
    requires g.block > 0 && count > 0 && Turning(g, dev, start, data, which, last, ptr, count)
    modifies g
    ensures left < count && Turning(g, dev, start, data, other, cb, next, left)
  {
    cb := if count > g.block then g.block else count;
    var at := |data| - count;
    var block := data[at..at + cb];
    assert |block| == cb && at + cb <= |data|;
    other, next := ReceiveTurn(g, dev, which, ptr, last, block, start, data, at);
    left := count - cb;
    assert |data| - left == at + |block|;
  }

  /** The last block goes with a copy that is waited for. */
  method FinishToDevice<T>(g: Gpu<T>, ghost dev: seq<T>, h: nat, ptr: nat, n: nat, ghost start: nat, ghost data: seq<T>)
    requires Receiving(g, dev, h, start, data, |data|, n) && ptr == start + |data| - n
    modifies g
    ensures g.Valid() && g.pending == [] && g.mem.dev == Splice(dev, start, data[..|data|])
  {
    StartToDevice(g, dev, h, ptr, n, start, data, |data|);
    g.Synchronize();
  }
}

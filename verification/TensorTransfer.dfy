/** Sending a strided tensor and receiving it into another (tensor_write and tensor_read of
    src/generic/cliser.c, for tensors in main memory). */
module TensorTransfer {
  import opened Bytes
  import opened Strides

  // ----- what a transfer means -----

  ghost predicate InBounds(offs: seq<int>, length: nat) {
    forall k :: 0 <= k < |offs| ==> 0 <= offs[k] < length
  }

  function Gather<T>(s: seq<T>, offs: seq<int>): (r: seq<T>)
    requires InBounds(offs, |s|)
    ensures |r| == |offs|
  {
    seq(|offs|, k requires 0 <= k < |offs| => s[offs[k]])
  }

  /** Stores the values one after the other; a later one wins. */
  function Scatter<T>(s: seq<T>, offs: seq<int>, vals: seq<T>): (r: seq<T>)
    requires InBounds(offs, |s|) && |offs| == |vals|
    ensures |r| == |s|
    decreases |offs|
  {
    if |offs| == 0 then s else
      var n := |offs| - 1;
      Scatter(s, offs[..n], vals[..n])[offs[n] := vals[n]]
  }

  lemma {:induction false} ScatterKeepsOthers<T>(s: seq<T>, offs: seq<int>, vals: seq<T>, o: nat)
    requires InBounds(offs, |s|) && |offs| == |vals| && o < |s| && o !in offs
    ensures Scatter(s, offs, vals)[o] == s[o]
    decreases |offs|
  {
    if |offs| == 0 {
    } else {
      var n := |offs| - 1;
      assert offs[n] in offs;
      ScatterKeepsOthers(s, offs[..n], vals[..n], o);
    }
  }

  /** Where equal offsets carry equal values, every value arrives. */
  lemma {:induction false} ScatterAt<T>(s: seq<T>, offs: seq<int>, vals: seq<T>, k: nat)
    requires InBounds(offs, |s|) && |offs| == |vals| && k < |offs|
    requires forall i, j :: 0 <= i < |offs| && 0 <= j < |offs| && offs[i] == offs[j] ==> vals[i] == vals[j]
    ensures Scatter(s, offs, vals)[offs[k]] == vals[k]
    decreases |offs|
  {
    var n := |offs| - 1;
    if offs[k] != offs[n] {
      ScatterAt(s, offs[..n], vals[..n], k);
    }
  }

  /** The receiver agrees with the sender at every element, even where strides overlap. */
  lemma TransferCopies<T>(dims: seq<Dim>, src: seq<T>, offS: int, dst: seq<T>, offR: int, k: nat)
    requires InBounds(RowMajor(dims, offS), |src|) && InBounds(RowMajor(dims, offR), |dst|) && k < Count(dims)
    ensures |Gather(src, RowMajor(dims, offS))| == |RowMajor(dims, offR)| == Count(dims)
    ensures 0 <= offR + Offset(dims, k) < |dst| && 0 <= offS + Offset(dims, k) < |src|
    ensures Scatter(dst, RowMajor(dims, offR), Gather(src, RowMajor(dims, offS)))[offR + Offset(dims, k)] ==
            src[offS + Offset(dims, k)]
  {
    var s, d := RowMajor(dims, offS), RowMajor(dims, offR);
    SameShape(dims, offS, offR);
    RowMajorAt(dims, offS, k);
    RowMajorAt(dims, offR, k);
    CopiesAt(src, s, offS, dst, d, offR, k, Offset(dims, k));
  }

  lemma CopiesAt<T>(src: seq<T>, s: seq<int>, a: int, dst: seq<T>, d: seq<int>, b: int, k: nat, o: int)
    requires InBounds(s, |src|) && InBounds(d, |dst|) && k < |s| == |d| && s[k] == a + o && d[k] == b + o
    requires forall i :: 0 <= i < |s| ==> d[i] - b == s[i] - a
    ensures 0 <= b + o < |dst| && 0 <= a + o < |src| && Scatter(dst, d, Gather(src, s))[b + o] == src[a + o]
  {
    ScatterAt(dst, d, Gather(src, s), k);
  }

  lemma SameShape(dims: seq<Dim>, a: int, b: int)
    ensures |RowMajor(dims, a)| == |RowMajor(dims, b)| == Count(dims)
    ensures forall k :: 0 <= k < Count(dims) ==> RowMajor(dims, b)[k] - b == RowMajor(dims, a)[k] - a
  {
    RowMajorLength(dims, a);
    RowMajorLength(dims, b);
    forall k | 0 <= k < Count(dims)
      ensures RowMajor(dims, b)[k] - b == RowMajor(dims, a)[k] - a
    {
      RowMajorAt(dims, a, k);
      RowMajorAt(dims, b, k);
    }
  }

  /** And keeps everything that is not an element. */
  lemma TransferKeepsOthers<T>(dims: seq<Dim>, dst: seq<T>, offR: int, vals: seq<T>, o: nat)
    requires InBounds(RowMajor(dims, offR), |dst|) && |vals| == |RowMajor(dims, offR)| && o < |dst|
    requires forall k :: 0 <= k < Count(dims) ==> o != offR + Offset(dims, k)
    ensures Scatter(dst, RowMajor(dims, offR), vals)[o] == dst[o]
  {
    var d := RowMajor(dims, offR);
    RowMajorLength(dims, offR);
    forall k | 0 <= k < |d|
      ensures d[k] != o
    {
      RowMajorAt(dims, offR, k);
    }
    ScatterKeepsOthers(dst, d, vals, o);
  }

  // ----- the wire -----

  /** The stream carries longs and elements. */
  datatype Item<T> = Long(n: int) | Elem(x: T)

  class Stream<T> {
    var items: seq<Item<T>>

    constructor ()
      ensures items == []
    {
      items := [];
    }
  }

  function Elems<T>(s: seq<T>): (r: seq<Item<T>>)
    ensures |r| == |s|
  {
    seq(|s|, k requires 0 <= k < |s| => Elem(s[k]))
  }

  lemma ElemsConcat<T>(a: seq<T>, b: seq<T>)
    ensures Elems(a + b) == Elems(a) + Elems(b)
  {
  }

  lemma GatherConcat<T>(s: seq<T>, a: seq<int>, b: seq<int>)
    requires InBounds(a + b, |s|)
    ensures InBounds(a, |s|) && InBounds(b, |s|) && Gather(s, a + b) == Gather(s, a) + Gather(s, b)
  {
    forall k | 0 <= k < |a|
      ensures a[k] == (a + b)[k]
    {
    }
    forall k | 0 <= k < |b|
      ensures b[k] == (a + b)[|a| + k]
    {
    }
  }

  lemma {:induction false} ScatterConcat<T>(s: seq<T>, a: seq<int>, va: seq<T>, b: seq<int>, vb: seq<T>)
    requires |a| == |va| && |b| == |vb| && InBounds(a, |s|) && InBounds(b, |s|) && InBounds(a + b, |s|)
    ensures Scatter(s, a + b, va + vb) == Scatter(Scatter(s, a, va), b, vb)
    decreases |b|
  {
    if |b| == 0 {
      assert a + b == a && va + vb == va;
    } else {
      var n := |b| - 1;
      assert (a + b)[..|a + b| - 1] == a + b[..n] && (va + vb)[..|va + vb| - 1] == va + vb[..n];
      ScatterConcat(s, a, va, b[..n], vb[..n]);
    }
  }

  /** What travels for the elements at offs. */
  function Payload<T>(s: seq<T>, offs: seq<int>): seq<Item<T>>
    requires InBounds(offs, |s|)
  {
    Elems(Gather(s, offs))
  }

  lemma PayloadConcat<T>(s: seq<T>, a: seq<int>, b: seq<int>)
    requires InBounds(a + b, |s|)
    ensures InBounds(a, |s|) && InBounds(b, |s|) && Payload(s, a + b) == Payload(s, a) + Payload(s, b)
  {
    GatherConcat(s, a, b);
    ElemsConcat(Gather(s, a), Gather(s, b));
  }

  // ----- sending -----

  /** A size_t assigned to an int: its low 32 bits, in two's complement. */
  function ToInt(n: nat): int {
    var low := n % (2 * INT_LIMIT);
    if low < INT_LIMIT then low else low - 2 * INT_LIMIT
  }

  /** An int converted to size_t. */
  function ToSize(i: int): int {
    if i < 0 then SIZE_LIMIT + i else i
  }

  /** sock_send_raw and sock_recv_raw of len bytes, once those are through: the count comes back
      as an int, and only counts below 2^31 pass for themselves. */
  method RawResult(len: nat) returns (ok: bool)
    ensures ok <==> len < INT_LIMIT
  {
    var ret := ToInt(len);
    if ret < 0 {
      return false;
    }
    if ToSize(ret) != len {
      return false;
    }
    return true;
  }

  /** count elements are few enough for one raw transfer. */
  ghost predicate Narrows(count: nat, elementSize: nat) {
    count * elementSize < INT_LIMIT
  }

  method RawElements(count: nat, elementSize: nat) returns (ok: bool)
    ensures ok == Narrows(count, elementSize)
  {
    ok := RawResult(count * elementSize);
  }

  /** sock_send: as many at a time as the socket takes. */
  method SendItems<T>(st: Stream<T>, items: seq<Item<T>>)
    modifies st
    ensures st.items == old(st.items) + items
  {
    var rem := |items|;
    while rem > 0
      invariant 0 <= rem <= |items| && st.items == old(st.items) + items[..|items| - rem]
    {
      var done := |items| - rem;
      var ret :| 0 < ret <= rem;
      assert items[..done + ret] == items[..done] + items[done..done + ret];
      st.items := st.items + items[done..done + ret];
      rem := rem - ret;
    }
    assert items[..|items|] == items;
  }

  /** write_contiguous, for tensors in main memory. */
  method WriteContiguous<T>(st: Stream<T>, data: array<T>, ptr: int, count: nat, elementSize: nat) returns (ok: bool)
    requires InBounds(Range(ptr, count), data.Length)
    modifies st
    ensures st.items == old(st.items) + Payload(data[..], Range(ptr, count))
    ensures ok == Narrows(count, elementSize)
  {
    SendItems(st, Payload(data[..], Range(ptr, count)));
    ok := RawElements(count, elementSize);
  }

  lemma RowStep<T>(s: seq<T>, dims: seq<Dim>, n: nat, ptr: int, so: seq<Item<T>>)
    requires |dims| > 0 && n > 0 && InBounds(Rows(dims, n, ptr), |s|)
    ensures InBounds(RowMajor(dims[1..], ptr), |s|) && InBounds(Rows(dims, n - 1, ptr + dims[0].stride), |s|)
    ensures so + Payload(s, Rows(dims, n, ptr)) ==
            so + Payload(s, RowMajor(dims[1..], ptr)) + Payload(s, Rows(dims, n - 1, ptr + dims[0].stride))
  {
    PayloadConcat(s, RowMajor(dims[1..], ptr), Rows(dims, n - 1, ptr + dims[0].stride));
  }

  lemma Tail(dims: seq<Dim>, dim: nat)
    requires dim < |dims|
    ensures dims[dim..][1..] == dims[dim + 1..] && dims[dim..][0] == dims[dim]
  {
  }

  lemma SomeRows(dims: seq<Dim>, dim: nat)
    requires dim < |dims|
    ensures Count(dims[dim..]) > 0 ==> dims[dim].size > 0 && Count(dims[dim + 1..]) > 0
  {
    Tail(dims, dim);
    if dims[dim].size == 0 || Count(dims[dim + 1..]) == 0 {
      assert Count(dims[dim..]) == dims[dim].size * Count(dims[dim + 1..]) == 0;
    }
  }

  /** tensor_write_noncontiguous_rcsv: the dimensions after nDim are one block of elements. */
  method WriteRcsv<T>(
    st: Stream<T>, data: array<T>, dims: seq<Dim>, dim: nat, nDim: nat, block: nat, start: int, elementSize: nat)
    returns (ok: bool)
    requires dim <= nDim < |dims| && Packed(dims[nDim + 1..]) && block == Count(dims[nDim + 1..])
    requires InBounds(RowMajor(dims[dim..], start), data.Length)
    modifies st
    ensures ok ==> st.items == old(st.items) + Payload(data[..], RowMajor(dims[dim..], start))
    ensures Narrows(block, elementSize) ==> ok
    ensures ok && Count(dims[dim..]) > 0 ==> Narrows(block, elementSize)
    decreases nDim - dim
  {
    Tail(dims, dim);
    var i, ptr := 0, start;
    ghost var rows := dims[dim..];
    ghost var all := st.items + Payload(data[..], RowMajor(rows, start));
    while i < dims[dim].size
      invariant i <= dims[dim].size && InBounds(Rows(rows, dims[dim].size - i, ptr), data.Length)
      invariant all == st.items + Payload(data[..], Rows(rows, dims[dim].size - i, ptr))
      invariant i > 0 && Count(dims[dim + 1..]) > 0 ==> Narrows(block, elementSize)
    {
      RowStep(data[..], rows, dims[dim].size - i, ptr, st.items);
      if dim == nDim {
        PackedIsContiguous(dims[nDim + 1..]);
        ContiguousIsRange(dims[nDim + 1..], ptr);
        ok := WriteContiguous(st, data, ptr, block, elementSize);
      } else {
        ok := WriteRcsv(st, data, dims, dim + 1, nDim, block, ptr, elementSize);
      }
      if !ok {
        return;
      }
      ptr := ptr + dims[dim].stride;
      i := i + 1;
    }
    assert st.items + [] == st.items;
    SomeRows(dims, dim);
    ok := true;
  }

  // ----- the header -----

  datatype Outcome =
    | Done
    | NotImplemented
    | Unreachable
    | RawFailed
    | ContiguityMismatch
    | FastpathMismatch
    | ElementSizeMismatch
    | SizeMismatch(dim: nat)
    | StrideMismatch(dim: nat)

  function Flag(b: bool): nat {
    if b then 1 else 0
  }

  /** The flags, then size and stride of every dimension. */
  function Header(dims: seq<Dim>, elementSize: nat, fast: bool): (h: seq<int>)
    ensures |h| == 2 * |dims| + 1
  {
    seq(2 * |dims| + 1, k requires 0 <= k < 2 * |dims| + 1 =>
      if k == 0 then Flag(IsContiguous(dims)) + 2 * Flag(fast) + 16 * (elementSize % 16)
      else if k % 2 == 1 then dims[k / 2].size else dims[k / 2 - 1].stride)
  }

  function Longs<T>(h: seq<int>): (r: seq<Item<T>>)
    ensures |r| == |h|
  {
    seq(|h|, k requires 0 <= k < |h| => Long(h[k]))
  }

  ghost predicate FlagsMatch(h: int, dims: seq<Dim>, elementSize: nat, fast: bool) {
    h % 2 == Flag(IsContiguous(dims)) && h / 2 % 2 == Flag(fast) && h / 16 % 16 == elementSize
  }

  ghost predicate DimsMatch(h: seq<int>, dims: seq<Dim>, n: nat)
    requires n <= |dims| && |h| == 2 * |dims| + 1
  {
    forall j :: 0 <= j < n ==> h[2 * j + 1] == dims[j].size && h[2 * j + 2] == dims[j].stride
  }

  /** The checks of tensor_read, in their order. */
  method CheckHeader(h: seq<int>, dims: seq<Dim>, elementSize: nat, fast: bool) returns (r: Outcome)
    requires |h| == 2 * |dims| + 1
    ensures r == Done <==> FlagsMatch(h[0], dims, elementSize, fast) && DimsMatch(h, dims, |dims|)
    ensures r == ContiguityMismatch <==> h[0] % 2 != Flag(IsContiguous(dims))
    ensures r == FastpathMismatch <==> h[0] % 2 == Flag(IsContiguous(dims)) && h[0] / 2 % 2 != Flag(fast)
    ensures r == ElementSizeMismatch <==>
            h[0] % 2 == Flag(IsContiguous(dims)) && h[0] / 2 % 2 == Flag(fast) && h[0] / 16 % 16 != elementSize
    ensures r.SizeMismatch? ==> r.dim < |dims| && DimsMatch(h, dims, r.dim) && h[2 * r.dim + 1] != dims[r.dim].size
    ensures r.StrideMismatch? ==>
              && r.dim < |dims| && DimsMatch(h, dims, r.dim)
              && h[2 * r.dim + 1] == dims[r.dim].size && h[2 * r.dim + 2] != dims[r.dim].stride
    ensures !r.NotImplemented? && !r.Unreachable? && !r.RawFailed?
  {
    if h[0] % 2 != Flag(IsContiguous(dims)) {
      return ContiguityMismatch;
    }
    if h[0] / 2 % 2 != Flag(fast) {
      return FastpathMismatch;
    }
    if h[0] / 16 % 16 != elementSize {
      return ElementSizeMismatch;
    }
    for i := 0 to |dims|
      invariant DimsMatch(h, dims, i)
    {
      if h[2 * i + 1] != dims[i].size {
        return SizeMismatch(i);
      }
      if h[2 * i + 2] != dims[i].stride {
        return StrideMismatch(i);
      }
    }
    return Done;
  }

  /** The fields of the first long do not run into each other. */
  lemma FlagsApart(h: int, c: nat, f: nat, e: nat)
    requires c < 2 && f < 2 && e < 16 && h == c + 2 * f + 16 * e
    ensures h % 2 == c && h / 2 % 2 == f && h / 16 % 16 == e
  {
  }

  lemma FirstLong(dims: seq<Dim>, e: nat, fast: bool)
    requires e < 16
    ensures FlagsMatch(Header(dims, e, fast)[0], dims, e, fast)
  {
    var c, f := Flag(IsContiguous(dims)), Flag(fast);
    FlagsApart(c + 2 * f + 16 * e, c, f, e);
    assert Header(dims, e, fast)[0] == c + 2 * f + 16 * e;
  }

  lemma HeaderAt(dims: seq<Dim>, e: nat, fast: bool, j: nat)
    requires j < |dims|
    ensures Header(dims, e, fast)[2 * j + 1] == dims[j].size && Header(dims, e, fast)[2 * j + 2] == dims[j].stride
  {
    assert (2 * j + 1) / 2 == j && (2 * j + 2) / 2 - 1 == j;
  }

  lemma DimsMatchIffSame(dims: seq<Dim>, e: nat, fast: bool, dims': seq<Dim>)
    requires |dims| == |dims'|
    ensures DimsMatch(Header(dims, e, fast), dims', |dims'|) <==> dims == dims'
  {
    var h := Header(dims, e, fast);
    forall j | 0 <= j < |dims|
      ensures h[2 * j + 1] == dims[j].size && h[2 * j + 2] == dims[j].stride
    {
      HeaderAt(dims, e, fast, j);
    }
    if DimsMatch(h, dims', |dims'|) {
      forall j | 0 <= j < |dims|
        ensures dims[j] == dims'[j]
      {
        assert h[2 * j + 1] == dims'[j].size && h[2 * j + 2] == dims'[j].stride;
      }
    }
  }

  /** A header passes the checks exactly when both tensors have the same sizes, strides and kind. */
  lemma HeaderMatchesIffSame(dims: seq<Dim>, e: nat, fast: bool, dims': seq<Dim>, e': nat, fast': bool)
    requires |dims| == |dims'| && e < 16 && e' < 16
    ensures var h := Header(dims, e, fast);
            FlagsMatch(h[0], dims', e', fast') && DimsMatch(h, dims', |dims'|) <==>
            dims == dims' && e == e' && fast == fast'
  {
    DimsMatchIffSame(dims, e, fast, dims');
    FirstLong(dims, e, fast);
    var h := Header(dims, e, fast)[0];
    assert FlagsMatch(h, dims, e', fast') <==> e == e' && fast == fast';
  }

  // ----- whole tensors -----

  /** The offsets of a tensor's elements; a tensor without dimensions has none. */
  function Offsets(dims: seq<Dim>, off: int): seq<int> {
    if |dims| == 0 then [] else RowMajor(dims, off)
  }

  /** Torch's nElement. */
  function Elements(dims: seq<Dim>): nat {
    if |dims| == 0 then 0 else Count(dims)
  }

  lemma ContiguousOffsets(dims: seq<Dim>, off: int)
    requires IsContiguous(dims)
    ensures Offsets(dims, off) == Range(off, Elements(dims))
  {
    ContiguousIsRange(dims, off);
  }

  ghost function Held<T>(data: array?<T>): (s: seq<T>)
    reads data
    ensures data != null ==> s == data[..]
  {
    if data == null then [] else data[..]
  }

  /** What the code accepts: contiguous tensors, and those whose last dimension is. */
  ghost predicate Accepted(dims: seq<Dim>) {
    IsContiguous(dims) || (|dims| >= 2 && dims[|dims| - 1].stride == 1)
  }

  /** No single raw transfer is too long. */
  ghost predicate Short(dims: seq<Dim>, elementSize: nat) {
    Narrows(2 * |dims| + 1, 8) && Narrows(if IsContiguous(dims) then Elements(dims) else Block(dims), elementSize)
  }

  /** tensor_write.  The header goes out first, even of a tensor that is then refused. */
  method TensorWrite<T>(st: Stream<T>, dims: seq<Dim>, off: int, data: array?<T>, elementSize: nat, fast: bool)
    returns (r: Outcome)
    requires InBounds(Offsets(dims, off), |Held(data)|) && (data == null ==> |dims| == 0)
    modifies st
    ensures r == Done ==>
              Accepted(dims) &&
              st.items == old(st.items) + Longs(Header(dims, elementSize, fast)) +
                Payload(Held(data), Offsets(dims, off))
    ensures Accepted(dims) && Short(dims, elementSize) ==> r == Done
    ensures r == Done && Elements(dims) > 0 ==> Short(dims, elementSize)
    ensures r == NotImplemented ==> st.items == old(st.items) + Longs(Header(dims, elementSize, fast))
    ensures !Accepted(dims) && Short(dims, elementSize) ==> r == NotImplemented
    ensures r == Done || r == NotImplemented || r == RawFailed
  {
    var h := Longs(Header(dims, elementSize, fast));
    st.items := st.items + h;
    var sent := RawResult((2 * |dims| + 1) * 8);
    if !sent {
      return RawFailed;
    }
    if IsContiguous(dims) {
      ContiguousOffsets(dims, off);
      if data != null {
        var ok := WriteContiguous(st, data, off, Elements(dims), elementSize);
        return if ok then Done else RawFailed;
      } else {
        assert st.items + [] == st.items;
        return Done;
      }
    }
    r := WriteStrided(st, dims, off, data, elementSize);
  }

  /** The other half of tensor_write.  It would answer "unreachable" only for a contiguous tensor. */
  method WriteStrided<T>(st: Stream<T>, dims: seq<Dim>, off: int, data: array<T>, elementSize: nat) returns (r: Outcome)
    requires InBounds(Offsets(dims, off), data.Length)
    modifies st
    ensures r == Done ==> st.items == old(st.items) + Payload(data[..], Offsets(dims, off))
    ensures r == NotImplemented <==> |dims| < 2 || dims[|dims| - 1].stride != 1
    ensures r == NotImplemented ==> st.items == old(st.items)
    ensures r == Unreachable ==> IsContiguous(dims)
    ensures r == RawFailed ==> !Narrows(Block(dims), elementSize)
    ensures r == Done && Count(dims) > 0 ==> Narrows(Block(dims), elementSize)
    ensures r in {Done, NotImplemented, Unreachable, RawFailed}
  {
    if |dims| < 2 || dims[|dims| - 1].stride != 1 {
      return NotImplemented;
    }
    var i, bc := Coalesce(dims);
    if i < 0 {
      return Unreachable;
    }
    assert dims[0..] == dims;
    var ok := WriteRcsv(st, data, dims, 0, i, bc, off, elementSize);
    r := if ok then Done else RawFailed;
  }

  // ----- receiving -----

  ghost predicate Carries<T>(items: seq<Item<T>>, n: nat) {
    n <= |items| && forall k :: 0 <= k < n ==> items[k].Elem?
  }

  function Values<T>(items: seq<Item<T>>, n: nat): (r: seq<T>)
    requires Carries(items, n)
    ensures |r| == n
  {
    seq(n, k requires 0 <= k < n => items[k].x)
  }

  lemma ValuesSplit<T>(items: seq<Item<T>>, a: nat, b: nat)
    requires Carries(items, a + b)
    ensures Carries(items, a) && Carries(items[a..], b)
            && Values(items, a + b) == Values(items, a) + Values(items[a..], b)
  {
    forall k | 0 <= k < b
      ensures items[a..][k] == items[a + k]
    {
    }
  }

  lemma BoundsSplit(a: seq<int>, b: seq<int>, n: nat)
    requires InBounds(a + b, n)
    ensures InBounds(a, n) && InBounds(b, n)
  {
    forall k | 0 <= k < |a|
      ensures a[k] == (a + b)[k]
    {
    }
    forall k | 0 <= k < |b|
      ensures b[k] == (a + b)[|a| + k]
    {
    }
  }

  /** The storage s after the next elements of the stream went to offs. */
  ghost function Filled<T>(s: seq<T>, offs: seq<int>, items: seq<Item<T>>): (r: seq<T>)
    requires InBounds(offs, |s|) && Carries(items, |offs|)
    ensures |r| == |s|
  {
    Scatter(s, offs, Values(items, |offs|))
  }

  lemma FilledMore<T>(s: seq<T>, a: seq<int>, b: seq<int>, items: seq<Item<T>>)
    requires InBounds(a + b, |s|) && Carries(items, |a| + |b|)
    ensures InBounds(a, |s|) && InBounds(b, |s|) && Carries(items, |a|) && Carries(items[|a|..], |b|)
    ensures Filled(s, a + b, items) == Filled(Filled(s, a, items), b, items[|a|..])
  {
    BoundsSplit(a, b, |s|);
    ValuesSplit(items, |a|, |b|);
    ScatterConcat(s, a, Values(items, |a|), b, Values(items[|a|..], |b|));
  }

  /** read_contiguous, for tensors in main memory. */
  method ReadContiguous<T>(st: Stream<T>, data: array<T>, ptr: int, count: nat, elementSize: nat) returns (ok: bool)
    requires InBounds(Range(ptr, count), data.Length) && Carries(st.items, count)
    modifies st, data
    ensures data[..] == Filled(old(data[..]), Range(ptr, count), old(st.items))
    ensures st.items == old(st.items)[count..]
    ensures ok == Narrows(count, elementSize)
  {
    ghost var offs := Range(ptr, count);
    for i := 0 to count
      invariant st.items == old(st.items)
      invariant InBounds(offs[..i], data.Length) && data[..] == Filled(old(data[..]), offs[..i], st.items)
    {
      assert offs[..i + 1] == offs[..i] + [offs[i]];
      FilledMore(old(data[..]), offs[..i], [offs[i]], st.items);
      assert offs[i] == ptr + i;
      OneMore(data[..], ptr + i, st.items[i..]);
      data[ptr + i] := st.items[i].x;
    }
    assert offs[..count] == offs;
    st.items := st.items[count..];
    ok := RawElements(count, elementSize);
  }

  lemma OneMore<T>(s: seq<T>, o: nat, items: seq<Item<T>>)
    requires o < |s| && Carries(items, 1)
    ensures Filled(s, [o], items) == s[o := items[0].x]
  {
    assert Scatter(s, [o][..0], Values(items, 1)[..0]) == s;
  }

  lemma RowsSplit(dims: seq<Dim>, n: nat, ptr: int)
    requires |dims| > 0 && n > 0
    ensures Rows(dims, n, ptr) == RowMajor(dims[1..], ptr) + Rows(dims, n - 1, ptr + dims[0].stride)
  {
  }

  /** After the offsets `done`, one more row and then `more`. */
  lemma RowFills<T>(s: seq<T>, done: seq<int>, row: seq<int>, more: seq<int>, items: seq<Item<T>>)
    requires InBounds(done + (row + more), |s|) && Carries(items, |done + (row + more)|)
    ensures done + (row + more) == done + row + more && InBounds(row, |s|)
    ensures Carries(items[|done|..], |row|) && items[|done|..][|row|..] == items[|done + row|..]
    ensures InBounds(done, |s|) && InBounds(done + row, |s|)
    ensures Carries(items, |done|) && Carries(items, |done + row|)
    ensures Filled(s, done + row, items) == Filled(Filled(s, done, items), row, items[|done|..])
  {
    assert done + (row + more) == done + row + more;
    BoundsSplit(done + row, more, |s|);
    FilledMore(s, done, row, items);
  }

  /** tensor_read_noncontiguous_rcsv */
  method ReadRcsv<T>(
    st: Stream<T>, data: array<T>, dims: seq<Dim>, dim: nat, nDim: nat, block: nat, start: int, elementSize: nat)
    returns (ok: bool)
    requires dim <= nDim < |dims| && Packed(dims[nDim + 1..]) && block == Count(dims[nDim + 1..])
    requires InBounds(RowMajor(dims[dim..], start), data.Length)
    requires Carries(st.items, |RowMajor(dims[dim..], start)|)
    modifies st, data
    ensures ok ==> data[..] == Filled(old(data[..]), RowMajor(dims[dim..], start), old(st.items))
    ensures ok ==> st.items == old(st.items)[|RowMajor(dims[dim..], start)|..]
    ensures Narrows(block, elementSize) ==> ok
    ensures ok && Count(dims[dim..]) > 0 ==> Narrows(block, elementSize)
    decreases nDim - dim, 1
  {
    Tail(dims, dim);
    var i, ptr := 0, start;
    ghost var rows, done := dims[dim..], [];
    ghost var all, before, items := RowMajor(rows, start), data[..], st.items;
    while i < dims[dim].size
      invariant i <= dims[dim].size && all == done + Rows(rows, dims[dim].size - i, ptr)
      invariant |done| <= |items| && st.items == items[|done|..]
      invariant i > 0 && Count(dims[dim + 1..]) > 0 ==> Narrows(block, elementSize)
      invariant InBounds(done, data.Length) && Carries(items, |done|) && data[..] == Filled(before, done, items)
    {
      ghost var row := RowMajor(dims[dim + 1..], ptr);
      RowsSplit(rows, dims[dim].size - i, ptr);
      RowFills(before, done, row, Rows(rows, dims[dim].size - i - 1, ptr + dims[dim].stride), items);
      ok := ReadRow(st, data, dims, dim, nDim, block, ptr, elementSize);
      if !ok {
        return;
      }
      done := done + row;
      ptr := ptr + dims[dim].stride;
      i := i + 1;
    }
    assert done + [] == done;
    SomeRows(dims, dim);
    ok := true;
  }

  /** One row: a block of elements, or the walk one dimension further in. */
  method ReadRow<T>(
    st: Stream<T>, data: array<T>, dims: seq<Dim>, dim: nat, nDim: nat, block: nat, ptr: int, elementSize: nat)
    returns (ok: bool)
    requires dim <= nDim < |dims| && Packed(dims[nDim + 1..]) && block == Count(dims[nDim + 1..])
    requires InBounds(RowMajor(dims[dim + 1..], ptr), data.Length)
    requires Carries(st.items, |RowMajor(dims[dim + 1..], ptr)|)
    modifies st, data
    ensures ok ==> data[..] == Filled(old(data[..]), RowMajor(dims[dim + 1..], ptr), old(st.items))
    ensures ok ==> st.items == old(st.items)[|RowMajor(dims[dim + 1..], ptr)|..]
    ensures Narrows(block, elementSize) ==> ok
    ensures ok && Count(dims[dim + 1..]) > 0 ==> Narrows(block, elementSize)
    decreases nDim - dim, 0
  {
    if dim == nDim {
      PackedIsContiguous(dims[nDim + 1..]);
      ContiguousIsRange(dims[nDim + 1..], ptr);
      ok := ReadContiguous(st, data, ptr, block, elementSize);
    } else {
      ok := ReadRcsv(st, data, dims, dim + 1, nDim, block, ptr, elementSize);
    }
  }

  /** The longs at the front of the stream. */
  ghost predicate HasHeader<T>(items: seq<Item<T>>, n: nat) {
    n <= |items| && forall k :: 0 <= k < n ==> items[k].Long?
  }

  function HeaderOf<T>(items: seq<Item<T>>, n: nat): (h: seq<int>)
    requires HasHeader(items, n)
    ensures |h| == n
  {
    seq(n, k requires 0 <= k < n => items[k].n)
  }

  ghost predicate HeaderPasses<T>(items: seq<Item<T>>, dims: seq<Dim>, elementSize: nat, fast: bool)
    requires HasHeader(items, 2 * |dims| + 1)
  {
    var h := HeaderOf(items, 2 * |dims| + 1);
    FlagsMatch(h[0], dims, elementSize, fast) && DimsMatch(h, dims, |dims|)
  }

  /** tensor_read */
  method TensorRead<T>(st: Stream<T>, dims: seq<Dim>, off: int, data: array?<T>, elementSize: nat, fast: bool)
    returns (r: Outcome)
    requires InBounds(Offsets(dims, off), |Held(data)|) && (data == null ==> |dims| == 0)
    requires HasHeader(st.items, 2 * |dims| + 1)
    requires HeaderPasses(st.items, dims, elementSize, fast) && Accepted(dims) ==>
               Carries(st.items[2 * |dims| + 1..], |Offsets(dims, off)|)
    modifies st, data
    ensures r == Done ==>
              && HeaderPasses(old(st.items), dims, elementSize, fast) && Accepted(dims)
              && Held(data) == Filled(old(Held(data)), Offsets(dims, off), old(st.items[2 * |dims| + 1..]))
              && st.items == old(st.items)[2 * |dims| + 1..][|Offsets(dims, off)|..]
    ensures HeaderPasses(old(st.items), dims, elementSize, fast) && Accepted(dims) && Short(dims, elementSize) ==>
            r == Done
    ensures r == Done && Elements(dims) > 0 ==> Short(dims, elementSize)
    ensures r == NotImplemented <==>
            !Accepted(dims) && HeaderPasses(old(st.items), dims, elementSize, fast) && Narrows(2 * |dims| + 1, 8)
    ensures !HeaderPasses(old(st.items), dims, elementSize, fast) && Narrows(2 * |dims| + 1, 8) ==> r != RawFailed
    ensures r != Done && r != RawFailed ==> Held(data) == old(Held(data)) && st.items == old(st.items)[2 * |dims| + 1..]
    ensures r != Unreachable
  {
    var n := 2 * |dims| + 1;
    var h := HeaderOf(st.items, n);
    st.items := st.items[n..];
    var got := RawResult(n * 8);
    if !got {
      return RawFailed;
    }
    r := CheckHeader(h, dims, elementSize, fast);
    if r != Done {
      return;
    }
    if IsContiguous(dims) {
      ContiguousOffsets(dims, off);
      if data != null {
        var ok := ReadContiguous(st, data, off, Elements(dims), elementSize);
        return if ok then Done else RawFailed;
      } else {
        return Done;
      }
    }
    r := ReadStrided(st, dims, off, data, elementSize);
  }

  /** The other half of tensor_read. */
  method ReadStrided<T>(st: Stream<T>, dims: seq<Dim>, off: int, data: array<T>, elementSize: nat) returns (r: Outcome)
    requires InBounds(Offsets(dims, off), data.Length)
    requires Accepted(dims) ==> Carries(st.items, |Offsets(dims, off)|)
    modifies st, data
    ensures r == Done ==> |dims| >= 2 && dims[|dims| - 1].stride == 1
    ensures r == Done ==> data[..] == Filled(old(data[..]), Offsets(dims, off), old(st.items))
    ensures r == Done ==> st.items == old(st.items)[|Offsets(dims, off)|..]
    ensures r == NotImplemented <==> |dims| < 2 || dims[|dims| - 1].stride != 1
    ensures r == NotImplemented ==> st.items == old(st.items) && data[..] == old(data[..])
    ensures r == Unreachable ==> IsContiguous(dims)
    ensures r == RawFailed ==> !Narrows(Block(dims), elementSize)
    ensures r == Done && Count(dims) > 0 ==> Narrows(Block(dims), elementSize)
    ensures r in {Done, NotImplemented, Unreachable, RawFailed}
  {
    if |dims| < 2 || dims[|dims| - 1].stride != 1 {
      return NotImplemented;
    }
    var i, bc := Coalesce(dims);
    if i < 0 {
      return Unreachable;
    }
    assert dims[0..] == dims;
    var ok := ReadRcsv(st, data, dims, 0, i, bc, off, elementSize);
    r := if ok then Done else RawFailed;
  }

  // ----- end to end -----

  lemma SentArrives<T>(items: seq<Item<T>>, h: seq<int>, vals: seq<T>)
    requires items == Longs(h) + Elems(vals)
    ensures HasHeader(items, |h|) && HeaderOf(items, |h|) == h
    ensures Carries(items[|h|..], |vals|) && Values(items[|h|..], |vals|) == vals && items[|h|..][|vals|..] == []
  {
    assert items[|h|..] == Elems(vals);
  }

  /** What a tensor of the same kind makes of what was sent. */
  lemma SameKindReceives<T>(
    items: seq<Item<T>>, dims: seq<Dim>, e: nat, fast: bool, src: seq<T>, offS: int, dst: seq<T>, offR: int)
    requires |dims| > 0 && e < 16 && InBounds(RowMajor(dims, offS), |src|) && InBounds(RowMajor(dims, offR), |dst|)
    requires items == Longs(Header(dims, e, fast)) + Payload(src, RowMajor(dims, offS))
    ensures HasHeader(items, 2 * |dims| + 1) && HeaderPasses(items, dims, e, fast)
    ensures |RowMajor(dims, offS)| == |RowMajor(dims, offR)| && Carries(items[2 * |dims| + 1..], |RowMajor(dims, offR)|)
    ensures Filled(dst, RowMajor(dims, offR), items[2 * |dims| + 1..]) ==
            Scatter(dst, RowMajor(dims, offR), Gather(src, RowMajor(dims, offS)))
  {
    SentArrives(items, Header(dims, e, fast), Gather(src, RowMajor(dims, offS)));
    HeaderMatchesIffSame(dims, e, fast, dims, e, fast);
    RowMajorLength(dims, offS);
    RowMajorLength(dims, offR);
  }

  ghost predicate Agree<T>(dims: seq<Dim>, src: seq<T>, offS: int, dst: seq<T>, offR: int) {
    forall k :: 0 <= k < Count(dims) ==>
      && 0 <= offS + Offset(dims, k) < |src| && 0 <= offR + Offset(dims, k) < |dst|
      && dst[offR + Offset(dims, k)] == src[offS + Offset(dims, k)]
  }

  ghost predicate SameElsewhere<T>(dims: seq<Dim>, before: seq<T>, after: seq<T>, off: int) {
    && |before| == |after|
    && forall o :: 0 <= o < |before| && (forall k :: 0 <= k < Count(dims) ==> o != off + Offset(dims, k)) ==>
      after[o] == before[o]
  }

  /** One tensor sent and received into another of the same kind. */
  method Transfer<T>(dims: seq<Dim>, src: array<T>, offS: int, dst: array<T>, offR: int, elementSize: nat, fast: bool)
    returns (r: Outcome)
    requires |dims| > 0 && elementSize < 16 && src != dst
    requires InBounds(RowMajor(dims, offS), src.Length) && InBounds(RowMajor(dims, offR), dst.Length)
    modifies dst
    ensures Accepted(dims) && Short(dims, elementSize) ==> r == Done
    ensures r == Done ==> Accepted(dims) && (Count(dims) > 0 ==> Short(dims, elementSize))
    ensures r == Done ==> Agree(dims, src[..], offS, dst[..], offR) && SameElsewhere(dims, old(dst[..]), dst[..], offR)
  {
    var st := new Stream();
    r := TensorWrite(st, dims, offS, src, elementSize, fast);
    if r == Done {
      ghost var before := dst[..];
      var header := Longs(Header(dims, elementSize, fast));
      assert st.items == header + Payload(src[..], RowMajor(dims, offS)) by { assert [] + header == header; }
      SameKindReceives(st.items, dims, elementSize, fast, src[..], offS, before, offR);
      r := TensorRead(st, dims, offR, dst, elementSize, fast);
      if r == Done {
        TransferAgrees(dims, src[..], offS, before, offR, dst[..]);
      }
    }
  }

  lemma TransferAgrees<T>(dims: seq<Dim>, src: seq<T>, offS: int, before: seq<T>, offR: int, after: seq<T>)
    requires InBounds(RowMajor(dims, offS), |src|) && InBounds(RowMajor(dims, offR), |before|)
    requires |RowMajor(dims, offS)| == |RowMajor(dims, offR)|
    requires after == Scatter(before, RowMajor(dims, offR), Gather(src, RowMajor(dims, offS)))
    ensures Agree(dims, src, offS, after, offR) && SameElsewhere(dims, before, after, offR)
  {
    forall k | 0 <= k < Count(dims)
      ensures && 0 <= offS + Offset(dims, k) < |src| && 0 <= offR + Offset(dims, k) < |after|
              && after[offR + Offset(dims, k)] == src[offS + Offset(dims, k)]
    {
      TransferCopies(dims, src, offS, before, offR, k);
    }
    forall o | 0 <= o < |before| && (forall k :: 0 <= k < Count(dims) ==> o != offR + Offset(dims, k))
      ensures after[o] == before[o]
    {
      TransferKeepsOthers(dims, before, offR, Gather(src, RowMajor(dims, offS)), o);
    }
  }
}

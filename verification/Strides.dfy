/** Where the elements of a strided tensor are (src/generic/cliser.c:226-342). */
module Strides {
  import opened Arithmetic

  datatype Dim = Dim(size: nat, stride: int)

  function Count(dims: seq<Dim>): nat {
    if |dims| == 0 then 1 else dims[0].size * Count(dims[1..])
  }

  /** The offset of the k-th element in row-major order: k's digits in the mixed radix of the
      sizes, weighed by the strides. */
  function Offset(dims: seq<Dim>, k: nat): int
    requires k < Count(dims)
  {
    if |dims| == 0 then 0
    else
      var row := Count(dims[1..]);
      RowFits(dims[0].size, row, k);
      (k / row) * dims[0].stride + Offset(dims[1..], k % row)
  }

  lemma RowFits(size: nat, row: nat, k: nat)
    requires k < size * row
    ensures row > 0
  {
  }

  /** The offsets of all elements in row-major order, by nested loops. */
  function RowMajor(dims: seq<Dim>, off: int): seq<int>
    decreases |dims|, 0
  {
    if |dims| == 0 then [off] else Rows(dims, dims[0].size, off)
  }

  /** n steps along the first dimension. */
  function Rows(dims: seq<Dim>, n: nat, off: int): seq<int>
    requires |dims| > 0
    decreases |dims| - 1, n + 1
  {
    if n == 0 then [] else RowMajor(dims[1..], off) + Rows(dims, n - 1, off + dims[0].stride)
  }

  function Range(off: int, n: nat): (r: seq<int>)
    ensures |r| == n
  {
    seq(n, i requires 0 <= i < n => off + i)
  }

  lemma {:induction false} RowMajorLength(dims: seq<Dim>, off: int)
    ensures |RowMajor(dims, off)| == Count(dims)
    decreases |dims|, 0
  {
    if |dims| == 0 {
    } else {
      RowsLength(dims, dims[0].size, off);
    }
  }

  lemma {:induction false} RowsLength(dims: seq<Dim>, n: nat, off: int)
    requires |dims| > 0
    ensures |Rows(dims, n, off)| == n * Count(dims[1..])
    decreases |dims| - 1, n + 1
  {
    if n == 0 {
    } else {
      RowMajorLength(dims[1..], off);
      RowsLength(dims, n - 1, off + dims[0].stride);
      MulStep(n, Count(dims[1..]));
    }
  }

  lemma MulStep(n: nat, c: int)
    requires n > 0
    ensures n * c == c + (n - 1) * c
  {
  }

  /** The nested loops visit the k-th element k-th. */
  lemma {:induction false} RowMajorAt(dims: seq<Dim>, off: int, k: nat)
    requires k < Count(dims)
    ensures k < |RowMajor(dims, off)| && RowMajor(dims, off)[k] == off + Offset(dims, k)
    decreases |dims|, 0
  {
    RowMajorLength(dims, off);
    if |dims| > 0 {
      var row := Count(dims[1..]);
      RowFits(dims[0].size, row, k);
      QuotientBound(k, row, dims[0].size);
      RowsAt(dims, dims[0].size, off, k / row, k % row, k);
    }
  }

  lemma QuotientBound(k: nat, row: nat, size: nat)
    requires row > 0 && k < size * row
    ensures k / row < size && k == (k / row) * row + k % row
  {
    if k / row >= size {
      MulMonotone(size, k / row, row);
    }
  }

  lemma RowsSkip(dims: seq<Dim>, n: nat, off: int, row: nat, k: nat)
    requires |dims| > 0 && n > 0 && row == |RowMajor(dims[1..], off)|
    requires k < |Rows(dims, n - 1, off + dims[0].stride)|
    ensures row + k < |Rows(dims, n, off)| && Rows(dims, n, off)[row + k] == Rows(dims, n - 1, off + dims[0].stride)[k]
  {
  }

  lemma {:induction false} RowsAt(dims: seq<Dim>, n: nat, off: int, q: nat, r: nat, k: nat)
    requires |dims| > 0 && q < n && r < Count(dims[1..]) && k == q * Count(dims[1..]) + r
    ensures k < |Rows(dims, n, off)| && Rows(dims, n, off)[k] == off + q * dims[0].stride + Offset(dims[1..], r)
    decreases |dims| - 1, n + 1
  {
    var row, stride := Count(dims[1..]), dims[0].stride;
    RowMajorLength(dims[1..], off);
    if q == 0 {
      RowMajorAt(dims[1..], off, r);
      assert 0 * row == 0 && 0 * stride == 0;
    } else {
      MulStep(q, row);
      MulStep(q, stride);
      var before := k - row;
      RowsAt(dims, n - 1, off + stride, q - 1, r, before);
      RowsSkip(dims, n, off, row, before);
    }
  }

  // ----- contiguity -----

  /** Torch's isContiguous: each stride is what the dimensions after it span, except where there
      is nothing to step over. */
  predicate IsContiguous(dims: seq<Dim>) {
    |dims| > 0 ==> (dims[0].size == 1 || dims[0].stride == Count(dims[1..])) && IsContiguous(dims[1..])
  }

  /** The same without the exception. */
  ghost predicate Packed(dims: seq<Dim>) {
    |dims| > 0 ==> dims[0].stride == Count(dims[1..]) && Packed(dims[1..])
  }

  lemma {:induction false} PackedIsContiguous(dims: seq<Dim>)
    requires Packed(dims)
    ensures IsContiguous(dims)
  {
    if |dims| == 0 {
    } else {
      PackedIsContiguous(dims[1..]);
    }
  }

  lemma RangeSplits(off: int, a: nat, b: nat)
    ensures Range(off, a) + Range(off + a, b) == Range(off, a + b)
  {
  }

  /** A contiguous tensor's elements in row-major order lie one after the other. */
  lemma {:induction false} ContiguousIsRange(dims: seq<Dim>, off: int)
    requires IsContiguous(dims)
    ensures RowMajor(dims, off) == Range(off, Count(dims))
    decreases |dims|, 0
  {
    if |dims| == 0 {
    } else {
      if dims[0].size == 1 {
        OneRow(dims, off);
        ContiguousIsRange(dims[1..], off);
      } else {
        TimesIsProduct(Count(dims[1..]), dims[0].size);
        RowsAreRange(dims, dims[0].size, off, Count(dims));
      }
    }
  }

  lemma OneRow(dims: seq<Dim>, off: int)
    requires |dims| > 0 && dims[0].size == 1
    ensures RowMajor(dims, off) == RowMajor(dims[1..], off) && Count(dims) == Count(dims[1..])
  {
    assert Rows(dims, 0, off + dims[0].stride) == [];
    assert Rows(dims, 1, off) == RowMajor(dims[1..], off) + Rows(dims, 0, off + dims[0].stride);
  }

  lemma {:induction false} RowsAreRange(dims: seq<Dim>, n: nat, off: int, total: nat)
    requires |dims| > 0 && dims[0].stride == Count(dims[1..]) && IsContiguous(dims[1..])
             && total == Times(Count(dims[1..]), n)
    ensures Rows(dims, n, off) == Range(off, total)
    decreases |dims| - 1, n + 1
  {
    if n == 0 {
    } else {
      var row := Count(dims[1..]);
      ContiguousIsRange(dims[1..], off);
      RowsAreRange(dims, n - 1, off + row, total - row);
      RangeSplits(off, row, total - row);
    }
  }

  lemma {:induction false} FirstIsAtZero(dims: seq<Dim>)
    requires Count(dims) > 0
    ensures Offset(dims, 0) == 0
  {
    if |dims| == 0 {
    } else {
      RowFits(dims[0].size, Count(dims[1..]), 0);
      FirstIsAtZero(dims[1..]);
    }
  }

  /** And only a contiguous tensor's do, if it has any. */
  lemma {:induction false} RangeIsContiguous(dims: seq<Dim>, off: int)
    requires Count(dims) > 0 && RowMajor(dims, off) == Range(off, Count(dims))
    ensures IsContiguous(dims)
  {
    if |dims| == 0 {
    } else {
      var size, row := dims[0].size, Count(dims[1..]);
      RowFits(size, row, 0);
      MulStep(size, row);
      RowMajorLength(dims[1..], off);
      assert RowMajor(dims, off)[..row] == RowMajor(dims[1..], off);
      assert Range(off, Count(dims))[..row] == Range(off, row);
      RangeIsContiguous(dims[1..], off);
      if size > 1 {
        FirstIsAtZero(dims[1..]);
        RowsAt(dims, size, off, 1, 0, row);
      }
    }
  }

  /** The flag that both halves of a transfer go by says just that. */
  lemma ContiguousIffRange(dims: seq<Dim>, off: int)
    requires Count(dims) > 0
    ensures IsContiguous(dims) <==> RowMajor(dims, off) == Range(off, Count(dims))
  {
    if IsContiguous(dims) {
      ContiguousIsRange(dims, off);
    } else if RowMajor(dims, off) == Range(off, Count(dims)) {
      RangeIsContiguous(dims, off);
    }
  }

  /** How many elements the longest packed run of trailing dimensions holds. */
  ghost function Block(dims: seq<Dim>): nat {
    if Packed(dims) then Count(dims) else Block(dims[1..])
  }

  lemma {:induction false} BlockIsLongest(dims: seq<Dim>, i: nat)
    requires i < |dims| && Packed(dims[i + 1..]) && dims[i].stride != Count(dims[i + 1..])
    ensures Block(dims) == Count(dims[i + 1..])
  {
    NotPacked(dims, i);
    if i == 0 {
      assert dims[1..] == dims[0 + 1..];
    } else {
      assert dims[1..][i - 1 + 1..] == dims[i + 1..];
      BlockIsLongest(dims[1..], i - 1);
    }
  }

  lemma {:induction false} NotPacked(dims: seq<Dim>, i: nat)
    requires i < |dims| && dims[i].stride != Count(dims[i + 1..])
    ensures !Packed(dims)
  {
    if i == 0 {
    } else {
      assert dims[1..][i - 1 + 1..] == dims[i + 1..];
      NotPacked(dims[1..], i - 1);
    }
  }

  lemma PackedMore(dims: seq<Dim>, i: nat)
    requires i < |dims| && Packed(dims[i + 1..]) && dims[i].stride == Count(dims[i + 1..])
    ensures Packed(dims[i..]) && Count(dims[i..]) == dims[i].size * Count(dims[i + 1..])
  {
    assert dims[i..][1..] == dims[i + 1..];
  }

  lemma LastPacked(dims: seq<Dim>)
    requires |dims| > 0 && dims[|dims| - 1].stride == 1
    ensures Packed(dims[|dims| - 1..]) && Count(dims[|dims| - 1..]) == dims[|dims| - 1].size
  {
    var last := dims[|dims| - 1..];
    assert last[1..] == [] && Count(last) == last[0].size * 1;
  }

  /** The coalescing loop of tensor_write and tensor_read.  All dimensions coalesce only if the
      tensor was contiguous to begin with. */
  method Coalesce(dims: seq<Dim>) returns (i: int, bc: nat)
    requires |dims| >= 2 && dims[|dims| - 1].stride == 1
    ensures -1 <= i <= |dims| - 2 && Packed(dims[i + 1..]) && bc == Count(dims[i + 1..]) == Block(dims)
    ensures i < 0 ==> IsContiguous(dims)
  {
    LastPacked(dims);
    bc := dims[|dims| - 1].size;
    i := |dims| - 2;
    while i >= 0 && bc == dims[i].stride
      invariant -1 <= i <= |dims| - 2 && Packed(dims[i + 1..]) && bc == Count(dims[i + 1..])
    {
      PackedMore(dims, i);
      bc := bc * dims[i].size;
      i := i - 1;
    }
    if i >= 0 {
      BlockIsLongest(dims, i);
    } else {
      assert dims[0..] == dims;
      PackedIsContiguous(dims);
    }
  }
}

/**
 The board's RMS_NORM, MUL and fused RMS_NORM_MUL kernels.

 Written over any arithmetic, so the equality of the fused kernel with the two kernels
 run one after the other (FusedIsBoth) is bit for bit whatever the rounding. All three
 are in-place safe: source and destination may be the same buffer.
 */
module NormKernels {
  /** Arithmetic on elements; scaleOf gives the factor from a sum of squares and a count. */
  datatype Arith<!T> = Arith(zero: T, add: (T, T) -> T, mul: (T, T) -> T, scaleOf: (T, nat) -> T)

  /** Where a column starts. */
  function Base(col: nat, rows: nat): nat
  {
    col * rows
  }

  lemma BaseStep(col: nat, rows: nat)
    ensures Base(col + 1, rows) == Base(col, rows) + rows && Base(0, rows) == 0
  {
  }

  lemma BaseMono(c: nat, d: nat, rows: nat)
    requires c <= d
    ensures Base(c, rows) <= Base(d, rows)
  {
    assert (d - c) * rows >= 0;
  }

  /** Sum of squares of n elements, accumulated in order. */
  function SumSquares<T>(a: Arith<T>, x: seq<T>, n: nat): T
    requires n <= |x|
  {
    if n == 0 then a.zero else a.add(SumSquares(a, x, n - 1), a.mul(x[n - 1], x[n - 1]))
  }

  /** A column times one factor. */
  function Scaled<T>(a: Arith<T>, x: seq<T>, scale: T): (y: seq<T>)
    ensures |y| == |x|
  {
    seq(|x|, i requires 0 <= i < |x| => a.mul(x[i], scale))
  }

  function MulColumn<T>(a: Arith<T>, x: seq<T>, w: seq<T>): (y: seq<T>)
    requires |w| == |x|
    ensures |y| == |x|
  {
    seq(|x|, i requires 0 <= i < |x| => a.mul(x[i], w[i]))
  }

  /** A column times one factor times its weights, element by element. */
  function ScaledMul<T>(a: Arith<T>, x: seq<T>, scale: T, w: seq<T>): (y: seq<T>)
    requires |w| == |x|
    ensures |y| == |x|
  {
    seq(|x|, i requires 0 <= i < |x| => a.mul(a.mul(x[i], scale), w[i]))
  }

  function Factor<T>(a: Arith<T>, x: seq<T>): T
  {
    a.scaleOf(SumSquares(a, x, |x|), |x|)
  }

  function NormColumn<T>(a: Arith<T>, x: seq<T>): (y: seq<T>)
    ensures |y| == |x|
  {
    Scaled(a, x, Factor(a, x))
  }

  function NormMulColumn<T>(a: Arith<T>, x: seq<T>, w: seq<T>): (y: seq<T>)
    requires |w| == |x|
    ensures |y| == |x|
  {
    ScaledMul(a, x, Factor(a, x), w)
  }

  function Column<T>(x: seq<T>, col: nat, rows: nat): (c: seq<T>)
    requires Base(col + 1, rows) <= |x|
    ensures |c| == rows
  {
    BaseStep(col, rows);
    x[Base(col, rows)..Base(col + 1, rows)]
  }

  function Norm<T>(a: Arith<T>, x: seq<T>, rows: nat, cols: nat): (y: seq<T>)
    requires Base(cols, rows) <= |x|
    ensures |y| == Base(cols, rows)
  {
    BaseStep(0, rows);
    if cols == 0 then []
    else BaseStep(cols - 1, rows); Norm(a, x, rows, cols - 1) + NormColumn(a, Column(x, cols - 1, rows))
  }

  /** Elementwise product; with broadcast the second operand is one column for all. */
  function Product<T>(a: Arith<T>, x: seq<T>, w: seq<T>, rows: nat, cols: nat, broadcast: bool): (y: seq<T>)
    requires Base(cols, rows) <= |x| && (if broadcast then |w| == rows else Base(cols, rows) <= |w|)
    ensures |y| == Base(cols, rows)
  {
    BaseStep(0, rows);
    if cols == 0 then []
    else
      BaseStep(cols - 1, rows);
      Product(a, x, w, rows, cols - 1, broadcast) +
      MulColumn(a, Column(x, cols - 1, rows), if broadcast then w else Column(w, cols - 1, rows))
  }

  function NormMul<T>(a: Arith<T>, x: seq<T>, w: seq<T>, rows: nat, cols: nat): (y: seq<T>)
    requires Base(cols, rows) <= |x| && |w| == rows
    ensures |y| == Base(cols, rows)
  {
    BaseStep(0, rows);
    if cols == 0 then []
    else BaseStep(cols - 1, rows); NormMul(a, x, w, rows, cols - 1) + NormMulColumn(a, Column(x, cols - 1, rows), w)
  }

  // ----- the fused kernel is the two kernels -----

  lemma ColumnFused<T>(a: Arith<T>, x: seq<T>, w: seq<T>)
    requires |w| == |x|
    ensures NormMulColumn(a, x, w) == MulColumn(a, NormColumn(a, x), w)
  {
  }

  lemma {:induction false} ProductPrefix<T>(a: Arith<T>, x: seq<T>, y: seq<T>, w: seq<T>, rows: nat, cols: nat)
    requires Base(cols, rows) <= |x| && |w| == rows
    ensures Product(a, x + y, w, rows, cols, true) == Product(a, x, w, rows, cols, true)
  {
    if cols > 0 {
      BaseStep(cols - 1, rows);
      ProductPrefix(a, x, y, w, rows, cols - 1);
      hide Base;
      assert Column(x + y, cols - 1, rows) == Column(x, cols - 1, rows);
    }
  }

  lemma Unfold<T>(a: Arith<T>, x: seq<T>, y: seq<T>, w: seq<T>, rows: nat, cols: nat)
    requires cols > 0 && Base(cols, rows) <= |x| && Base(cols, rows) <= |y| && |w| == rows
    ensures Base(cols - 1, rows) + rows == Base(cols, rows)
    ensures Norm(a, x, rows, cols) == Norm(a, x, rows, cols - 1) + NormColumn(a, Column(x, cols - 1, rows))
    ensures NormMul(a, x, w, rows, cols) ==
            NormMul(a, x, w, rows, cols - 1) + NormMulColumn(a, Column(x, cols - 1, rows), w)
    ensures Product(a, y, w, rows, cols, true) ==
            Product(a, y, w, rows, cols - 1, true) + MulColumn(a, Column(y, cols - 1, rows), w)
  {
    hide NormColumn, MulColumn, NormMulColumn;
    BaseStep(cols - 1, rows);
  }

  lemma LastColumn<T>(front: seq<T>, last: seq<T>, cols: nat, rows: nat)
    requires cols > 0 && |front| == Base(cols - 1, rows) && |last| == rows
    ensures Base(cols, rows) == |front + last|
    ensures Column(front + last, cols - 1, rows) == last
  {
    BaseStep(cols - 1, rows);
  }

  lemma NoColumns<T>(a: Arith<T>, x: seq<T>, w: seq<T>, rows: nat)
    requires |w| == rows
    ensures Base(0, rows) == 0
    ensures NormMul(a, x, w, rows, 0) == [] && Product(a, Norm(a, x, rows, 0), w, rows, 0, true) == []
  {
    BaseStep(0, rows);
  }

  /** RMS_NORM_MUL computes what RMS_NORM and then broadcast MUL compute. */
  lemma {:induction false} FusedIsBoth<T>(a: Arith<T>, x: seq<T>, w: seq<T>, rows: nat, cols: nat)
    requires Base(cols, rows) <= |x| && |w| == rows
    ensures NormMul(a, x, w, rows, cols) == Product(a, Norm(a, x, rows, cols), w, rows, cols, true)
  {
    hide *;
    if cols == 0 {
      NoColumns(a, x, w, rows);
    } else {
      BaseMono(cols - 1, cols, rows);
      Unfold(a, x, Norm(a, x, rows, cols), w, rows, cols);
      FusedIsBoth(a, x, w, rows, cols - 1);
      var front, last := Norm(a, x, rows, cols - 1), NormColumn(a, Column(x, cols - 1, rows));
      ProductPrefix(a, front, last, w, rows, cols - 1);
      LastColumn(front, last, cols, rows);
      ColumnFused(a, Column(x, cols - 1, rows), w);
    }
  }

  /** A one-column product is the same with and without broadcast. */
  lemma OneColumn<T>(a: Arith<T>, x: seq<T>, w: seq<T>, rows: nat)
    requires |x| == |w| == rows
    ensures Base(1, rows) == rows
    ensures Product(a, x, w, rows, 1, true) == Product(a, x, w, rows, 1, false)
  {
    BaseStep(0, rows);
    assert Column(w, 0, rows) == w;
    assert Product(a, x, w, rows, 0, true) == Product(a, x, w, rows, 0, false) == [];
  }

  // ----- the kernels -----

  /** The unread part of the source is still the original one. */
  ghost predicate Rest<T>(src: array<T>, start: seq<T>, from: nat)
    reads src
  {
    |start| == src.Length && from <= |start| && src[from..] == start[from..]
  }

  /** The first n elements of a column's output stand at offset. */
  ghost predicate Filled<T>(s: seq<T>, before: seq<T>, offset: nat, out: seq<T>, n: nat)
  {
    && |before| == offset && offset + |out| <= |s| && n <= |out|
    && s[..offset] == before
    && s[offset..offset + n] == out[..n]
  }

  lemma FillOne<T>(s: seq<T>, t: seq<T>, before: seq<T>, offset: nat, out: seq<T>, n: nat)
    requires Filled(s, before, offset, out, n) && n < |out| && t == s[offset + n := out[n]]
    ensures Filled(t, before, offset, out, n + 1)
  {
    assert t[offset..offset + n + 1] == s[offset..offset + n] + [out[n]];
  }

  lemma FillNothing<T>(dst: array<T>, offset: nat, out: seq<T>)
    requires offset + |out| <= dst.Length
    ensures Filled(dst[..], dst[..offset], offset, out, 0)
  {
    assert dst[..][..offset] == dst[..offset];
  }

  lemma FillColumn<T>(dst: array<T>, before: seq<T>, offset: nat, out: seq<T>)
    requires Filled(dst[..], before, offset, out, |out|)
    ensures offset + |out| <= dst.Length && dst[..offset + |out|] == before + out
  {
    assert dst[..offset + |out|] == dst[..][..offset] + dst[..][offset..offset + |out|];
  }

  lemma RestStart<T>(src: array<T>)
    ensures Rest(src, src[..], 0)
  {
  }

  lemma WholeArray<T>(dst: array<T>)
    ensures dst[..0] == [] && dst[..dst.Length] == dst[..]
  {
  }

  method Squares<T>(a: Arith<T>, src: array<T>, offset: nat, rows: nat) returns (sum: T)
    requires offset + rows <= src.Length
    ensures sum == SumSquares(a, src[offset..offset + rows], rows)
  {
    ghost var x := src[offset..offset + rows];
    sum := a.zero;
    for row := 0 to rows
      invariant sum == SumSquares(a, x, row)
    {
      var value := src[offset + row];
      sum := a.add(sum, a.mul(value, value));
    }
  }

  lemma RestAt<T>(src: array<T>, x: seq<T>, i: nat)
    requires Rest(src, x, i) && i < src.Length
    ensures src[i] == x[i]
  {
    assert src[i] == src[i..][0];
  }

  /** Scale one column into the destination. */
  method ScaleColumn<T>(
    a: Arith<T>, src: array<T>, dst: array<T>, offset: nat, rows: nat, scale: T, ghost x: seq<T>)
    requires src.Length == dst.Length && offset + rows <= src.Length && Rest(src, x, offset)
    modifies dst
    ensures Rest(src, x, offset + rows)
    ensures Filled(dst[..], old(dst[..offset]), offset, Scaled(a, x[offset..offset + rows], scale), rows)
  {
    hide Filled;
    ghost var before := dst[..offset];
    ghost var out := Scaled(a, x[offset..offset + rows], scale);
    FillNothing(dst, offset, out);
    for row := 0 to rows
      invariant Rest(src, x, offset + row)
      invariant Filled(dst[..], before, offset, out, row)
    {
      var index := offset + row;
      RestAt(src, x, index);
      ghost var s := dst[..];
      dst[index] := a.mul(src[index], scale);
      FillOne(s, dst[..], before, offset, out, row);
    }
  }

  method ScaleMulColumn<T>(
    a: Arith<T>, src: array<T>, weight: array<T>, dst: array<T>, offset: nat, rows: nat, scale: T,
    ghost x: seq<T>, ghost w: seq<T>)
    requires src.Length == dst.Length && offset + rows <= src.Length && Rest(src, x, offset)
    requires weight.Length == rows == |w| && Rest(weight, w, 0) && (weight == dst ==> offset == 0)
    modifies dst
    ensures Rest(src, x, offset + rows)
    ensures Filled(dst[..], old(dst[..offset]), offset, ScaledMul(a, x[offset..offset + rows], scale, w), rows)
  {
    hide Filled;
    ghost var before := dst[..offset];
    ghost var out := ScaledMul(a, x[offset..offset + rows], scale, w);
    FillNothing(dst, offset, out);
    for row := 0 to rows
      invariant Rest(src, x, offset + row) && Rest(weight, w, row)
      invariant Filled(dst[..], before, offset, out, row)
    {
      var index := offset + row;
      RestAt(src, x, index);
      RestAt(weight, w, row);
      ghost var s := dst[..];
      dst[index] := a.mul(a.mul(src[index], scale), weight[row]);
      FillOne(s, dst[..], before, offset, out, row);
    }
  }

  /** One column of MUL against the w that starts at `from`; writing never runs ahead of reading. */
  method ProductColumn<T>(
    a: Arith<T>, src0: array<T>, src1: array<T>, dst: array<T>, offset: nat, from: nat, rows: nat,
    ghost x: seq<T>, ghost w: seq<T>)
    requires src0.Length == dst.Length && offset + rows <= src0.Length && Rest(src0, x, offset)
    requires from + rows <= src1.Length == |w| && Rest(src1, w, from) && (src1 == dst ==> offset == from)
    modifies dst
    ensures Rest(src0, x, offset + rows) && Rest(src1, w, from + rows)
    ensures Filled(dst[..], old(dst[..offset]), offset,
                   MulColumn(a, x[offset..offset + rows], w[from..from + rows]), rows)
  {
    hide Filled;
    ghost var before := dst[..offset];
    ghost var out := MulColumn(a, x[offset..offset + rows], w[from..from + rows]);
    FillNothing(dst, offset, out);
    for row := 0 to rows
      invariant Rest(src0, x, offset + row) && Rest(src1, w, from + row)
      invariant Filled(dst[..], before, offset, out, row)
    {
      RestAt(src0, x, offset + row);
      RestAt(src1, w, from + row);
      ghost var s := dst[..];
      dst[offset + row] := a.mul(src0[offset + row], src1[from + row]);
      FillOne(s, dst[..], before, offset, out, row);
    }
  }

  lemma ProductNext<T>(a: Arith<T>, x: seq<T>, w: seq<T>, rows: nat, col: nat, broadcast: bool)
    requires Base(col + 1, rows) <= |x| && (if broadcast then |w| == rows else Base(col + 1, rows) <= |w|)
    ensures Base(col + 1, rows) == Base(col, rows) + rows
    ensures
      var offset := Base(col, rows);
      Product(a, x, w, rows, col + 1, broadcast) ==
      Product(a, x, w, rows, col, broadcast) +
      MulColumn(a, x[offset..offset + rows], if broadcast then w else w[offset..offset + rows])
  {
    hide MulColumn;
    BaseStep(col, rows);
  }

  lemma NormNext<T>(a: Arith<T>, x: seq<T>, rows: nat, col: nat)
    requires Base(col + 1, rows) <= |x|
    ensures Base(col + 1, rows) == Base(col, rows) + rows
    ensures
      var c := x[Base(col, rows)..Base(col, rows) + rows];
      Norm(a, x, rows, col + 1) == Norm(a, x, rows, col) + Scaled(a, c, a.scaleOf(SumSquares(a, c, rows), rows))
  {
    hide Scaled;
    BaseStep(col, rows);
  }

  /** RMS_NORM of every column. */
  method RmsNorm<T>(a: Arith<T>, src: array<T>, dst: array<T>, rows: nat, cols: nat) returns (rc: int)
    requires src.Length == dst.Length == Base(cols, rows)
    modifies dst
    ensures rc == if rows == 0 || cols == 0 then -1 else 0
    ensures rc == 0 ==> dst[..] == Norm(a, old(src[..]), rows, cols)
    ensures rc != 0 ==> dst[..] == old(dst[..])
  {
    hide *;
    if rows == 0 || cols == 0 {
      return -1;
    }
    ghost var x := src[..];
    NormNothing(a, x, rows);
    WholeArray(dst);
    RestStart(src);
    for col := 0 to cols
      invariant Base(col, rows) <= Base(cols, rows)
      invariant dst[..Base(col, rows)] == Norm(a, x, rows, col)
      invariant Rest(src, x, Base(col, rows))
    {
      var offset := Base(col, rows);
      BaseMono(col + 1, cols, rows);
      NormNext(a, x, rows, col);
      RestSlice(src, x, offset, rows);
      var sum := Squares(a, src, offset, rows);
      var scale := a.scaleOf(sum, rows);
      ghost var done := dst[..offset];
      ScaleColumn(a, src, dst, offset, rows, scale, x);
      FillColumn(dst, done, offset, Scaled(a, x[offset..offset + rows], scale));
    }
    WholeArray(dst);
    return 0;
  }

  lemma NormNothing<T>(a: Arith<T>, x: seq<T>, rows: nat)
    ensures Base(0, rows) == 0 && Norm(a, x, rows, 0) == []
  {
    BaseStep(0, rows);
  }

  lemma ProductNothing<T>(a: Arith<T>, x: seq<T>, w: seq<T>, rows: nat, broadcast: bool)
    requires broadcast ==> |w| == rows
    ensures Base(0, rows) == 0 && Product(a, x, w, rows, 0, broadcast) == []
  {
    BaseStep(0, rows);
  }

  lemma RestSlice<T>(src: array<T>, x: seq<T>, offset: nat, n: nat)
    requires Rest(src, x, offset) && offset + n <= src.Length
    ensures |x| == src.Length && src[offset..offset + n] == x[offset..offset + n]
  {
    assert src[offset..][..n] == src[offset..offset + n];
  }

  lemma OneRow(rows: nat, cols: nat)
    ensures Base(0, rows) == 0
    ensures rows > 0 && cols > 0 && Base(cols, rows) == rows ==> cols == 1 && Base(1, rows) == rows
  {
    BaseStep(0, rows);
    if rows > 0 && cols > 1 {
      BaseStep(1, rows);
      BaseMono(2, cols, rows);
    }
  }

  lemma WholeSlice<T>(w: seq<T>, rows: nat, broadcast: bool)
    requires broadcast ==> |w| == rows
    ensures broadcast ==> w[0..rows] == w
  {
  }

  lemma RestSame<T>(src: array<T>, x: seq<T>, now: seq<T>)
    requires src[..] == now && |x| == |now| && x == now
    ensures Rest(src, x, 0)
  {
  }

  /** Elementwise product of every column, also into either operand. */
  method MulF32<T>(a: Arith<T>, src0: array<T>, src1: array<T>, dst: array<T>, rows: nat, cols: nat, broadcast: bool)
    returns (rc: int)
    requires src0.Length == dst.Length == Base(cols, rows)
    requires src1.Length == if broadcast then rows else Base(cols, rows)
    modifies dst
    ensures rc == if rows == 0 || cols == 0 then -1 else 0
    ensures rc == 0 ==> dst[..] == Product(a, old(src0[..]), old(src1[..]), rows, cols, broadcast)
    ensures rc != 0 ==> dst[..] == old(dst[..])
  {
    hide *;
    if rows == 0 || cols == 0 {
      return -1;
    }
    ghost var x, w := src0[..], src1[..];
    ProductNothing(a, x, w, rows, broadcast);
    WholeArray(dst);
    RestStart(src0);
    RestStart(src1);
    OneRow(rows, cols);
    for col := 0 to cols
      invariant Base(col, rows) <= Base(cols, rows)
      invariant dst[..Base(col, rows)] == Product(a, x, w, rows, col, broadcast)
      invariant Rest(src0, x, Base(col, rows))
      invariant broadcast && src1 != dst ==> src1[..] == w
      invariant Rest(src1, w, if broadcast && (src1 != dst || col == 0) then 0 else Base(col, rows))
    {
      var offset := Base(col, rows);
      BaseMono(col + 1, cols, rows);
      ProductNext(a, x, w, rows, col, broadcast);
      ghost var done := dst[..offset];
      ghost var wc := if broadcast then w else w[offset..offset + rows];
      WholeSlice(w, rows, broadcast);
      ProductColumn(a, src0, src1, dst, offset, if broadcast then 0 else offset, rows, x, w);
      if broadcast && src1 != dst {
        RestSame(src1, w, w);
      }
      FillColumn(dst, done, offset, MulColumn(a, x[offset..offset + rows], wc));
    }
    WholeArray(dst);
    return 0;
  }

  lemma NormMulNext<T>(a: Arith<T>, x: seq<T>, w: seq<T>, rows: nat, col: nat)
    requires Base(col + 1, rows) <= |x| && |w| == rows
    ensures Base(col + 1, rows) == Base(col, rows) + rows
    ensures
      var c := x[Base(col, rows)..Base(col, rows) + rows];
      NormMul(a, x, w, rows, col + 1) ==
      NormMul(a, x, w, rows, col) + ScaledMul(a, c, a.scaleOf(SumSquares(a, c, rows), rows), w)
  {
    hide ScaledMul;
    BaseStep(col, rows);
  }

  lemma NormMulNothing<T>(a: Arith<T>, x: seq<T>, w: seq<T>, rows: nat)
    requires |w| == rows
    ensures Base(0, rows) == 0 && NormMul(a, x, w, rows, 0) == []
  {
    BaseStep(0, rows);
  }

  /** The fused kernel: the product of the norm with broadcast weights. */
  method RmsNormMul<T>(a: Arith<T>, src: array<T>, weight: array<T>, dst: array<T>, rows: nat, cols: nat)
    returns (rc: int)
    requires src.Length == dst.Length == Base(cols, rows) && weight.Length == rows
    modifies dst
    ensures rc == if rows == 0 || cols == 0 then -1 else 0
    ensures rc == 0 ==> dst[..] == Product(a, Norm(a, old(src[..]), rows, cols), old(weight[..]), rows, cols, true)
    ensures rc != 0 ==> dst[..] == old(dst[..])
  {
    hide *;
    if rows == 0 || cols == 0 {
      return -1;
    }
    ghost var x, w := src[..], weight[..];
    NormMulNothing(a, x, w, rows);
    WholeArray(dst);
    RestStart(src);
    RestStart(weight);
    OneRow(rows, cols);
    for col := 0 to cols
      invariant Base(col, rows) <= Base(cols, rows)
      invariant weight != dst || col == 0 ==> weight[..] == w && Rest(weight, w, 0)
      invariant dst[..Base(col, rows)] == NormMul(a, x, w, rows, col)
      invariant Rest(src, x, Base(col, rows))
    {
      var offset := Base(col, rows);
      BaseMono(col + 1, cols, rows);
      NormMulNext(a, x, w, rows, col);
      RestSlice(src, x, offset, rows);
      var sum := Squares(a, src, offset, rows);
      var scale := a.scaleOf(sum, rows);
      ghost var done := dst[..offset];
      ScaleMulColumn(a, src, weight, dst, offset, rows, scale, x, w);
      if weight != dst {
        RestSame(weight, w, w);
      }
      FillColumn(dst, done, offset, ScaledMul(a, x[offset..offset + rows], scale, w));
    }
    WholeArray(dst);
    FusedIsBoth(a, x, w, rows, cols);
    return 0;
  }
}

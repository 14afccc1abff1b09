/**
 What a matmul run leaves in memory, byte by byte and with every address written out
 (RunByByte): row r of column c stands at 4 * (c * rows + r) of the result, and comes from the
 column's own activations and from the weights of rowblock r / 8, lane r % 8.
 */
module DriverMeaning {
  import opened Common
  import opened Extents
  import opened ChunkPlan
  import opened Driver
  import Layout

  lemma LanesTail(f: Kernel, acts: seq<byte>, w: seq<byte>, p: nat, n: nat, i: nat)
    requires 0 < n && Pos(n, p) <= |w| && i < 32
    ensures Pos(n - 1, p) + p == Pos(n, p)
    ensures Lanes(f, acts, w, p, n)[32 * (n - 1) + i] == f(acts, w[Pos(n - 1, p)..Pos(n, p)], i)
  {
    hide Lanes;
    LanesStep(f, acts, w, p, n);
    assert Lanes(f, acts, w, p, n)[32 * (n - 1) + i] == RowblockOut(f, acts, w[Pos(n - 1, p)..Pos(n, p)])[i];
  }

  /** Byte i of rowblock j's lanes. */
  lemma {:induction false} LanesAt(f: Kernel, acts: seq<byte>, w: seq<byte>, p: nat, n: nat, j: nat, i: nat)
    requires j < n && Pos(n, p) <= |w| && i < 32
    ensures Pos(j, p) + p == Pos(j + 1, p) <= |w|
    ensures Lanes(f, acts, w, p, n)[32 * j + i] == f(acts, w[Pos(j, p)..Pos(j, p) + p], i)
  {
    PosMono(j + 1, n, p);
    hide Lanes, Pos;
    if j == n - 1 {
      LanesTail(f, acts, w, p, n, i);
    } else {
      LanesStep(f, acts, w, p, n);
      LanesAt(f, acts, w, p, n - 1, j, i);
    }
  }

  /** A row of a column's output: lane r % 8 of rowblock r / 8. */
  lemma PartialAt(f: Kernel, acts: seq<byte>, w: seq<byte>, op: MatmulOp, r: nat, b: nat)
    requires Pos(op.Rowblocks(), op.RowblockBytes()) <= |w| && r < op.rows && b < 4
    ensures 4 * r + b < |Partial(f, acts, w, op, op.Rowblocks())|
    ensures var p := op.k / 128 * 144;
      && Pos(r / 8, p) + p <= |w|
      && Partial(f, acts, w, op, op.Rowblocks())[4 * r + b] ==
         f(acts, w[Pos(r / 8, p)..Pos(r / 8, p) + p], 4 * (r % 8) + b)
  {
    RowblockCover(op.rows, op.Rowblocks());
    RowblockCover(op.rows, r / 8);
    hide Lanes, Pos;
    LanesAt(f, acts, w, op.RowblockBytes(), op.Rowblocks(), r / 8, 4 * (r % 8) + b);
    assert 32 * (r / 8) + (4 * (r % 8) + b) == 4 * r + b;
  }

  lemma OutputSteps(f: Kernel, acts: seq<byte>, w: seq<byte>, op: MatmulOp, cols: nat)
    requires 0 < cols && Pos(op.Rowblocks(), op.RowblockBytes()) <= |w| && Pos(cols, op.ActBytes()) <= |acts|
    ensures Pos(cols - 1, op.ColumnBytes()) + op.ColumnBytes() == Pos(cols, op.ColumnBytes())
    ensures Pos(cols - 1, op.ActBytes()) + op.ActBytes() == Pos(cols, op.ActBytes())
    ensures Output(f, acts, w, op, cols) == Output(f, acts, w, op, cols - 1) +
      Partial(f, acts[Pos(cols - 1, op.ActBytes())..Pos(cols, op.ActBytes())], w, op, op.Rowblocks())
  {
    hide Partial;
    PosAdd(cols - 1, 1, op.ActBytes());
    PosEnds(op.ActBytes());
    PosAdd(cols - 1, 1, op.ColumnBytes());
    PosEnds(op.ColumnBytes());
  }

  /** One byte of the output of all columns. */
  lemma {:induction false} OutputAt(f: Kernel, acts: seq<byte>, w: seq<byte>, op: MatmulOp, cols: nat,
                                    c: nat, r: nat, b: nat)
    requires Pos(op.Rowblocks(), op.RowblockBytes()) <= |w| && Pos(cols, op.ActBytes()) <= |acts|
    requires c < cols && r < op.rows && b < 4
    ensures Pos(c, op.ColumnBytes()) + 4 * r + b < |Output(f, acts, w, op, cols)|
    ensures var p, at := op.k / 128 * 144, Pos(c, op.ActBytes());
      && Pos(r / 8, p) + p <= |w| && at + op.ActBytes() <= |acts|
      && Output(f, acts, w, op, cols)[Pos(c, op.ColumnBytes()) + 4 * r + b] ==
         f(acts[at..at + op.ActBytes()], w[Pos(r / 8, p)..Pos(r / 8, p) + p], 4 * (r % 8) + b)
  {
    hide Output, Partial, Pos;
    OutputSteps(f, acts, w, op, cols);
    if c == cols - 1 {
      var at := Pos(c, op.ActBytes());
      PartialAt(f, acts[at..at + op.ActBytes()], w, op, r, b);
    } else {
      OutputAt(f, acts, w, op, cols - 1, c, r, b);
    }
  }

  /** Every byte of the result range, and no other, is the kernel's byte for its row and column. */
  predicate ByByte(t0: map<int, seq<byte>>, t1: map<int, seq<byte>>, op: MatmulOp, f: Kernel)
  {
    && t1.Keys == t0.Keys && op.dst in t0 && op.acts in t0 && op.weights in t0
    && (forall h :: h in t0 ==> |t1[h]| == |t0[h]|)
    && (forall h, i :: h in t0 && 0 <= i < |t0[h]| && !InResult(op, h, i) ==> t1[h][i] == t0[h][i])
    && forall c: nat, r: nat, b: nat :: c < op.cols && r < op.rows && b < 4 ==> ByteAt(t0, t1, op, f, c, r, b)
  }

  /** Byte i of tensor h lies in the op's result. */
  predicate InResult(op: MatmulOp, h: int, i: nat)
  {
    h == op.dst && op.dstOff <= i < op.dstOff + 4 * (op.cols * op.rows)
  }

  predicate ByteAt(t0: map<int, seq<byte>>, t1: map<int, seq<byte>>, op: MatmulOp, f: Kernel, c: nat, r: nat, b: nat)
    requires op.dst in t1 && op.acts in t0 && op.weights in t0
  {
    var at := op.dstOff + 4 * (c * op.rows + r) + b;
    var from, n := op.actsOff + 4 * (c * op.k), 4 * op.k;
    var w, p := op.weightsOff + r / 8 * (op.k / 128 * 144), op.k / 128 * 144;
    && at < |t1[op.dst]| && from + n <= |t0[op.acts]| && w + p <= |t0[op.weights]|
    && t1[op.dst][at] == f(t0[op.acts][from..from + n], t0[op.weights][w..w + p], 4 * (r % 8) + b)
  }

  lemma Places(op: MatmulOp, c: nat, r: nat)
    requires c < op.cols && r < op.rows
    ensures Pos(c, op.ColumnBytes()) + 4 * r == 4 * (c * op.rows + r)
    ensures Pos(c, op.ActBytes()) == 4 * (c * op.k) && op.ActBytes() == 4 * op.k
    ensures Pos(op.cols, op.ColumnBytes()) == 4 * (op.cols * op.rows)
    ensures Pos(r / 8, op.RowblockBytes()) == r / 8 * (op.k / 128 * 144)
  {
    TimesFour(c, op.rows);
    TimesFour(c, op.k);
    TimesFour(op.cols, op.rows);
  }

  lemma TimesFour(a: nat, b: nat)
    ensures a * (b * 4) == 4 * (a * b)
  {
  }

  /** What Run and RunDeferred leave is the result byte by byte. */
  lemma RunByByte(t0: map<int, seq<byte>>, t1: map<int, seq<byte>>, op: MatmulOp, f: Kernel)
    requires RunLanded(t0, t1, op, f)
    ensures ByByte(t0, t1, op, f)
  {
    hide Output;
    var out := Output(f, ActivationBytes(t0, op), WeightBytes(t0, op), op, op.cols);
    TimesFour(op.cols, op.rows);
    assert |out| == 4 * (op.cols * op.rows);
    forall c: nat, r: nat, b: nat | c < op.cols && r < op.rows && b < 4 ensures ByteAt(t0, t1, op, f, c, r, b) {
      RunByteAt(t0, t1, op, f, c, r, b);
    }
  }

  lemma SliceOfSlice(t: seq<byte>, off: nat, n: nat, at: nat, m: nat)
    requires off + n <= |t| && at + m <= n
    ensures t[off..off + n][at..at + m] == t[off + at..off + at + m]
  {
    var x, y := t[off..off + n][at..at + m], t[off + at..off + at + m];
    assert |x| == |y| && forall i :: 0 <= i < |x| ==> x[i] == y[i];
  }

  lemma RunByteAt(t0: map<int, seq<byte>>, t1: map<int, seq<byte>>, op: MatmulOp, f: Kernel, c: nat, r: nat, b: nat)
    requires RunLanded(t0, t1, op, f) && c < op.cols && r < op.rows && b < 4
    ensures op.dst in t1 && op.acts in t0 && op.weights in t0 && ByteAt(t0, t1, op, f, c, r, b)
  {
    var acts, w := ActivationBytes(t0, op), WeightBytes(t0, op);
    var p, from := op.k / 128 * 144, Pos(c, op.ActBytes());
    OutputAt(f, acts, w, op, op.cols, c, r, b);
    Places(op, c, r);
    hide Output, Pos;
    SliceOfSlice(t0[op.acts], op.actsOff, |acts|, from, op.ActBytes());
    SliceOfSlice(t0[op.weights], op.weightsOff, |w|, Pos(r / 8, p), p);
    var at := Pos(c, op.ColumnBytes()) + 4 * r + b;
    assert t1[op.dst][op.dstOff + at] == Output(f, acts, w, op, op.cols)[at];
  }

  /** The activation buffer takes exactly a column's packed stream. */
  lemma ActBufferFits(op: MatmulOp, a: Layout.Acts)
    requires op.ShapeOk() && a.Valid(op.k / 128)
    ensures |Layout.ActStream(a, op.k / 128, op.k / 128)| == ActStream(op.k)
  {
  }
}

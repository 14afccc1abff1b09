/**
 The matmul driver seen by the graph scheduler.

 MatOf gives a matmul op's footprint and meaning as the scheduler knows them.
 StepIsRun shows that the scheduler's one atomic piece is what the driver's Run leaves
 in the tensors, so its theorems speak of the driver's matmuls. StaleRead is the case
 the touch test misses, for every matmul of the pipelined shape that starts past the
 beginning of its tensor and every kernel it may run.
 */
module Pipelining {
  import opened Common
  import opened Extents
  import opened ChunkPlan
  import opened Driver
  import Layout
  import E = Exactness
  import S = Scheduler

  /** Tensors as the scheduler's memory of cells. */
  function MemOf(t: map<int, seq<byte>>): S.Memory
  {
    map h, o | h in t && 0 <= o < |t[h]| :: S.Cell(h, o) := t[h][o]
  }

  function Range(h: int, off: int, n: nat): set<S.Cell>
  {
    set o | off <= o < off + n :: S.Cell(h, o)
  }

  /** The bytes a memory holds at a range, zero where it holds none. */
  function BytesAt(m: S.Memory, h: int, off: int, n: nat): (b: seq<byte>)
    ensures |b| == n
  {
    seq<byte>(n, i requires 0 <= i < n => E.ReadAt(m, S.Cell(h, off + i)))
  }

  /** The rowblock a result byte belongs to, and its place there. */
  function RowblockOf(op: MatmulOp, c: S.Cell): int
  {
    (c.off - op.dstOff) / LANE_BYTES
  }

  function LaneOf(op: MatmulOp, c: S.Cell): (i: nat)
    ensures i < LANE_BYTES
  {
    (c.off - op.dstOff) % LANE_BYTES
  }

  /** The packed weights of the rowblock a result byte belongs to. */
  function RowblockCells(op: MatmulOp, c: S.Cell): set<S.Cell>
  {
    if RowblockOf(op, c) < 0 then {}
    else Range(op.weights, op.weightsOff + Pos(RowblockOf(op, c), op.RowblockBytes()), op.RowblockBytes())
  }

  /** One result byte, from the copied activations and its rowblock's weights. */
  function ResultByte(op: MatmulOp, f: Kernel, a: S.Memory, w: S.Memory, c: S.Cell): byte
  {
    if RowblockOf(op, c) < 0 then 0
    else
      f(BytesAt(a, op.acts, op.actsOff, op.ActBytes()),
        BytesAt(w, op.weights, op.weightsOff + Pos(RowblockOf(op, c), op.RowblockBytes()), op.RowblockBytes()),
        LaneOf(op, c))
  }

  /** A one-column matmul as the scheduler knows it. */
  function MatOf(op: MatmulOp, f: Kernel): S.Mat
  {
    S.Mat(
      Range(op.acts, op.actsOff, op.ActBytes()),
      Range(op.weights, op.weightsOff, Pos(op.Rowblocks(), op.RowblockBytes())),
      op.dst, op.dstOff, op.dstOff + op.ColumnBytes(),
      c => RowblockCells(op, c),
      (a, w, c) => ResultByte(op, f, a, w, c))
  }

  /** A byte of the lanes comes from its own rowblock. */
  lemma {:induction false} LanesAt(f: Kernel, acts: seq<byte>, w: seq<byte>, p: nat, n: nat, k: nat)
    requires Pos(n, p) <= |w| && k < LANE_BYTES * n
    ensures Pos(k / LANE_BYTES, p) + p <= |w|
    ensures Lanes(f, acts, w, p, n)[k] ==
            f(acts, w[Pos(k / LANE_BYTES, p)..Pos(k / LANE_BYTES, p) + p], k % LANE_BYTES)
  {
    hide Pos, Lanes;
    LanesStep(f, acts, w, p, n);
    if k < LANE_BYTES * (n - 1) {
      LanesAt(f, acts, w, p, n - 1, k);
    } else {
      assert k / LANE_BYTES == n - 1;
    }
  }

  /** Reading a tensor's range out of a restricted memory. */
  lemma BytesOf(t: map<int, seq<byte>>, m: S.Memory, h: int, off: nat, n: nat)
    requires h in t && off + n <= |t[h]|
    requires forall c :: c in Range(h, off, n) ==> c in m && m[c] == t[h][c.off]
    ensures BytesAt(m, h, off, n) == t[h][off..off + n]
  {
    forall i | 0 <= i < n ensures BytesAt(m, h, off, n)[i] == t[h][off..off + n][i] {
      assert S.Cell(h, off + i) in Range(h, off, n);
      assert BytesAt(m, h, off, n)[i] == E.ReadAt(m, S.Cell(h, off + i));
    }
  }

  /** The tensors a one-column matmul without padding lanes needs. */
  predicate Sized(t: map<int, seq<byte>>, op: MatmulOp)
  {
    && op.ShapeOk() && op.cols == 1 && op.rows % ROWS == 0
    && WeightsIn(t, op) && ActsIn(t, op)
    && op.dst in t && op.dstOff + op.ColumnBytes() <= |t[op.dst]|
  }

  /** The scheduler's value of one result byte is the driver's. */
  lemma ByteIsLane(op: MatmulOp, f: Kernel, t: map<int, seq<byte>>, k: nat)
    requires Sized(t, op) && k < op.ColumnBytes()
    ensures
      var mat, c := MatOf(op, f), S.Cell(op.dst, op.dstOff + k);
      && |Output(f, ActivationBytes(t, op), WeightBytes(t, op), op, 1)| == op.ColumnBytes()
      && mat.val(S.Restrict(MemOf(t), mat.acts), S.Restrict(MemOf(t), mat.deps(c)), c) ==
         Output(f, ActivationBytes(t, op), WeightBytes(t, op), op, 1)[k]
  {
    hide Pos, Lanes, Output, WeightsIn, ActsIn, MatmulOp.RowblockBytes, MatmulOp.ActBytes;
    var acts, w, p, n := ActivationBytes(t, op), WeightBytes(t, op), op.RowblockBytes(), op.Rowblocks();
    var c, rb := S.Cell(op.dst, op.dstOff + k), k / LANE_BYTES;
    OneColumnSizes(op);
    OneColumnOutput(f, acts, w, op);
    LanesAt(f, acts, w, p, n, k);
    ActsBytes(op, t);
    WeightsBytes(op, t, rb);
    assert RowblockOf(op, c) == rb && LaneOf(op, c) == k % LANE_BYTES;
  }

  lemma ActsBytes(op: MatmulOp, t: map<int, seq<byte>>)
    requires Sized(t, op)
    ensures BytesAt(S.Restrict(MemOf(t), Range(op.acts, op.actsOff, op.ActBytes())), op.acts, op.actsOff, op.ActBytes())
            == ActivationBytes(t, op)
  {
    OneColumnSizes(op);
    hide Pos, S.Restrict, MemOf, Range, BytesAt, WeightsIn, MatmulOp.ActBytes;
    RangeBytes(t, op.acts, op.actsOff, op.ActBytes());
  }

  lemma WeightsBytes(op: MatmulOp, t: map<int, seq<byte>>, rb: nat)
    requires Sized(t, op) && rb < op.Rowblocks()
    ensures
      var p := op.RowblockBytes();
      var off := op.weightsOff + Pos(rb, p);
      && Pos(rb, p) + p <= |WeightBytes(t, op)|
      && BytesAt(S.Restrict(MemOf(t), Range(op.weights, off, p)), op.weights, off, p)
         == WeightBytes(t, op)[Pos(rb, p)..Pos(rb, p) + p]
  {
    hide Pos, S.Restrict, MemOf, Range, BytesAt, ActsIn, Layout.Rowblocks, MatmulOp.RowblockBytes, MatmulOp.ColumnBytes;
    var p, n := op.RowblockBytes(), Pos(op.Rowblocks(), op.RowblockBytes());
    RowblockInside(rb, op.Rowblocks(), p);
    RangeBytes(t, op.weights, op.weightsOff + Pos(rb, p), p);
    SubSlice(t[op.weights], op.weightsOff, n, Pos(rb, p), Pos(rb, p) + p);
  }

  lemma RowblockInside(rb: nat, n: nat, p: nat)
    requires rb < n
    ensures Pos(rb, p) + p <= Pos(n, p)
  {
    PosAdd(rb, 1, p);
    PosEnds(p);
    PosMono(rb + 1, n, p);
  }

  lemma RangeBytes(t: map<int, seq<byte>>, h: int, off: nat, n: nat)
    requires h in t && off + n <= |t[h]|
    ensures BytesAt(S.Restrict(MemOf(t), Range(h, off, n)), h, off, n) == t[h][off..off + n]
  {
    BytesOf(t, S.Restrict(MemOf(t), Range(h, off, n)), h, off, n);
  }

  /** The scheduler's matmul piece is what the driver's run leaves. */
  lemma StepIsRun(op: MatmulOp, f: Kernel, t0: map<int, seq<byte>>, t1: map<int, seq<byte>>)
    requires Sized(t0, op) && RunLanded(t0, t1, op, f)
    ensures MemOf(t1) == S.ApplyStep(MemOf(t0), MatOf(op, f).AsStep())
  {
    hide Output, WeightsIn, ActsIn, WeightBytes, ActivationBytes, Pos, MemOf, MatOf, S.ApplyStep, Patch,
      MatmulOp.ColumnBytes, MatmulOp.ShapeOk;
    var out := Output(f, ActivationBytes(t0, op), WeightBytes(t0, op), op, 1);
    OneColumnSizes(op);
    assert t1 == t0[op.dst := Patch(t0[op.dst], op.dstOff, out)];
    PatchCells(t0, op.dst, op.dstOff, out);
    StepElsewhere(op, f, MemOf(t0));
    forall c | c in MemOf(t1) ensures MemOf(t1)[c] == S.ApplyStep(MemOf(t0), MatOf(op, f).AsStep())[c] {
      if c.handle == op.dst && op.dstOff <= c.off < op.dstOff + op.ColumnBytes() {
        ByteIsLane(op, f, t0, c.off - op.dstOff);
        StepByte(op, f, MemOf(t0), c);
      }
    }
    RangeCells(t0, op.dst, op.dstOff, op.ColumnBytes());
  }

  lemma RangeCells(t: map<int, seq<byte>>, h: int, off: nat, n: nat)
    requires h in t && off + n <= |t[h]|
    ensures Range(h, off, n) <= MemOf(t).Keys
  {
  }

  lemma StepElsewhere(op: MatmulOp, f: Kernel, m: S.Memory)
    ensures MatOf(op, f).Dst() == Range(op.dst, op.dstOff, op.ColumnBytes())
    ensures var n := S.ApplyStep(m, MatOf(op, f).AsStep());
      && n.Keys == m.Keys + Range(op.dst, op.dstOff, op.ColumnBytes())
      && forall c :: c in m && !(c.handle == op.dst && op.dstOff <= c.off < op.dstOff + op.ColumnBytes()) ==>
           n[c] == m[c]
  {
    hide S.Restrict, Pos, MatmulOp.ColumnBytes;
  }

  /** The atomic piece writes each result byte from the activations and its own weights. */
  lemma StepByte(op: MatmulOp, f: Kernel, m: S.Memory, c: S.Cell)
    requires c in MatOf(op, f).Dst() && op.ShapeOk() && op.cols == 1 && op.rows % ROWS == 0
    ensures var mat := MatOf(op, f);
      && c in S.ApplyStep(m, mat.AsStep())
      && S.ApplyStep(m, mat.AsStep())[c] == mat.val(S.Restrict(m, mat.acts), S.Restrict(m, mat.deps(c)), c)
  {
    var mat := MatOf(op, f);
    DepsInWeights(op, f, c);
    hide Pos, RowblockCells, ResultByte, MatmulOp.RowblockBytes, MatmulOp.ActBytes;
    RestrictTwice(m, mat.acts + mat.weights, mat.acts);
    RestrictTwice(m, mat.acts + mat.weights, mat.deps(c));
  }

  lemma RestrictTwice(m: S.Memory, s: set<S.Cell>, t: set<S.Cell>)
    requires t <= s
    ensures S.Restrict(S.Restrict(m, s), t) == S.Restrict(m, t)
  {
  }

  lemma DepsInWeights(op: MatmulOp, f: Kernel, c: S.Cell)
    requires c in MatOf(op, f).Dst() && op.ShapeOk() && op.cols == 1 && op.rows % ROWS == 0
    ensures MatOf(op, f).deps(c) <= MatOf(op, f).weights
    ensures 0 <= RowblockOf(op, c) < op.Rowblocks()
  {
    hide Pos, MatmulOp.RowblockBytes;
    OneColumnSizes(op);
    RowblockInside(RowblockOf(op, c), op.Rowblocks(), op.RowblockBytes());
  }

  lemma PatchAt(b: seq<byte>, at: nat, data: seq<byte>)
    requires at + |data| <= |b|
    ensures |Patch(b, at, data)| == |b|
    ensures forall k :: 0 <= k < |b| ==>
      Patch(b, at, data)[k] == if at <= k < at + |data| then data[k - at] else b[k]
  {
  }

  /** Patching a tensor overwrites just those cells. */
  lemma PatchCells(t: map<int, seq<byte>>, h: int, at: nat, data: seq<byte>)
    requires h in t && at + |data| <= |t[h]|
    ensures MemOf(t[h := Patch(t[h], at, data)]).Keys == MemOf(t).Keys
    ensures forall c :: c in MemOf(t) ==>
      MemOf(t[h := Patch(t[h], at, data)])[c] ==
      if c.handle == h && at <= c.off < at + |data| then data[c.off - at] else MemOf(t)[c]
  {
    PatchAt(t[h], at, data);
    hide Patch;
    var u := t[h := Patch(t[h], at, data)];
    SameCells(t, u);
    forall c | c in MemOf(t)
      ensures MemOf(u)[c] == if c.handle == h && at <= c.off < at + |data| then data[c.off - at] else MemOf(t)[c]
    {
      CellAt(t, c);
      CellAt(u, c);
    }
  }

  lemma SameCells(t: map<int, seq<byte>>, u: map<int, seq<byte>>)
    requires t.Keys == u.Keys && forall h :: h in t ==> |t[h]| == |u[h]|
    ensures MemOf(t).Keys == MemOf(u).Keys
  {
  }

  lemma CellAt(t: map<int, seq<byte>>, c: S.Cell)
    requires c in MemOf(t)
    ensures c.handle in t && 0 <= c.off < |t[c.handle]| && MemOf(t)[c] == t[c.handle][c.off]
  {
  }

  // ----- what the touch test misses -----

  /** The matmul as a graph op: a PL kernel that names its tensors with their offsets. */
  function AsOp(op: MatmulOp, f: Kernel): S.Op
  {
    S.Op([Some(S.Ref(op.dst, Some(op.dstOff))), Some(S.Ref(op.weights, Some(op.weightsOff))),
          Some(S.Ref(op.acts, Some(op.actsOff)))], true, true, S.Dma(MatOf(op, f)))
  }

  lemma MatOk(op: MatmulOp, f: Kernel, t: map<int, seq<byte>>)
    requires Sized(t, op) && op.WeightsApart()
    ensures AsOp(op, f).Ok(MemOf(t).Keys)
  {
    var mat := MatOf(op, f);
    OneColumnSizes(op);
    hide Pos, MatmulOp.RowblockBytes, MatmulOp.ColumnBytes, MatmulOp.ActBytes;
    forall c | c in mat.Dst() ensures mat.deps(c) <= mat.weights {
      DepsInWeights(op, f, c);
    }
    hide RowblockCells;
    assert mat.acts + mat.weights + mat.Dst() <= MemOf(t).Keys;
    assert AsOp(op, f).Pieces() == [mat.AsStep()];
  }

  /** The op names the tensor, and never with an offset. */
  predicate NamesWhole(refs: seq<Option<S.Ref>>, handle: int)
  {
    && (exists i :: 0 <= i < |refs| && refs[i] == Some(S.Ref(handle, None)))
    && (forall i :: 0 <= i < |refs| && refs[i].Some? && refs[i].value.handle == handle ==> refs[i].value.offset.None?)
  }

  /** Some run ends in another memory than running the two ops in order. */
  ghost predicate Differs(ops: seq<S.Op>, b: S.BoardState, o: S.Oracle, cells: set<S.Cell>)
  {
    b.flight.None? && b.mem.Keys == cells && S.Run(ops, b, o) != S.Sequential(ops, b.mem)
  }

  /**
   A one-piece op that names the result's tensor without an offset, reads some byte of a
   result that starts past the tensor's beginning and writes anything at all: it is not
   held back. Whatever kernel f the matmul runs, the op has a kernel g with which some run
   ends otherwise than in order, as long as the result is apart from the activations.
   */
  lemma StaleRead(op: MatmulOp, f: Kernel, t: map<int, seq<byte>>, other: S.Op, s: S.Step, c: S.Cell)
    requires Sized(t, op) && op.WeightsApart() && op.dstOff > 0
    requires other.body == S.Steps([s]) && !other.pl && other.Ok(MemOf(t).Keys) && NamesWhole(other.refs, op.dst)
    requires c in s.reads_ && c in MatOf(op, f).Dst() && s.writes != {}
    ensures !S.Barrier(other, MatOf(op, f))
    ensures op.ActsApart() ==> exists g: (S.Memory, S.Cell) -> byte, b: S.BoardState, o: S.Oracle ::
      Differs([AsOp(op, f), E.WithKernel(other, s, g)], b, o, MemOf(t).Keys)
    ensures exists xs: seq<S.Op>, b: S.BoardState, o: S.Oracle ::
      E.StartsLike(xs, [AsOp(op, f), other]) && Differs(xs, b, o, MemOf(t).Keys)
  {
    MatOk(op, f, t);
    E.OneBesideAnother(AsOp(op, f), other, s, MemOf(t).Keys);
    WritesInside(other, s, MemOf(t).Keys);
    if op.ActsApart() {
      NotAnAct(op, f, c);
    }
    hide S.Run, S.Sequential, E.StartsLike, S.Op.Ok, Sized, MatmulOp.WeightsApart, MatmulOp.ActsApart, MemOf,
      E.WithKernel;
    S.UnoffsetHeld(other, op.dst, op.dstOff, op.dstOff + op.ColumnBytes());
    hide S.Barrier, S.Touches;
    if op.ActsApart() {
      var g, b := E.AnyMatmulIsReadTooEarly(AsOp(op, f), other, s, c, MemOf(t).Keys);
      assert Differs([AsOp(op, f), E.WithKernel(other, s, g)], b, E.Lazy(), MemOf(t).Keys);
    }
    var xs: seq<S.Op>, b: S.BoardState, o: S.Oracle :| E.StartsLike(xs, [AsOp(op, f), other])
      && b.flight.None? && b.mem.Keys == MemOf(t).Keys
      && S.Run(xs, b, o) != S.Sequential(xs, b.mem);
    assert Differs(xs, b, o, MemOf(t).Keys);
  }

  lemma WritesInside(op: S.Op, s: S.Step, cells: set<S.Cell>)
    requires op.body == S.Steps([s]) && op.Ok(cells)
    ensures s.writes <= cells
  {
    assert op.Pieces()[0] == s;
  }

  lemma NotAnAct(op: MatmulOp, f: Kernel, c: S.Cell)
    requires op.cols == 1 && op.ActsApart() && c in MatOf(op, f).Dst()
    ensures c !in MatOf(op, f).acts
  {
    PosEnds(op.ColumnBytes());
    PosEnds(op.ActBytes());
    hide Pos, MatmulOp.ColumnBytes, MatmulOp.ActBytes;
  }

  // ----- at the smallest shape the driver pipelines -----

  const RESULT_BYTES: nat := 32
  const WEIGHT_BYTES: nat := 144
  const ACT_BYTES: nat := 512

  /** Eight rows of 128: one rowblock, its result in the second half of tensor 1. */
  const SMALLEST := MatmulOp(8, 1, 128, 2, 0, 3, 0, 1, RESULT_BYTES)

  function Zeros(n: nat): (z: seq<byte>)
    ensures |z| == n
  {
    seq<byte>(n, i => 0)
  }

  function SmallTensors(): map<int, seq<byte>>
  {
    map[1 := Zeros(2 * RESULT_BYTES), 2 := Zeros(WEIGHT_BYTES), 3 := Zeros(ACT_BYTES), 4 := Zeros(1)]
  }

  /** Reads tensor 1 whole, naming it without an offset, and writes tensor 4. */
  function Spanning(): S.Op
  {
    S.Op([Some(S.Ref(1, None)), Some(S.Ref(4, None))], false, false, S.Steps([SpanningStep()]))
  }

  function SpanningStep(): S.Step
  {
    S.Step(Range(1, 0, 2 * RESULT_BYTES), Range(4, 0, 1), E.Always(0))
  }

  lemma SmallestPipelines()
    ensures SMALLEST.ShapeOk() && Pipelines(SMALLEST, [Extent(0, 0, WEIGHT_BYTES)])
    ensures SMALLEST.ColumnBytes() == RESULT_BYTES && SMALLEST.WeightsApart() && SMALLEST.ActsApart()
    ensures Sized(SmallTensors(), SMALLEST)
  {
    assert SMALLEST.RowblockBytes() == WEIGHT_BYTES && SMALLEST.Rowblocks() == 1;
    assert Pos(1, WEIGHT_BYTES) == WEIGHT_BYTES && Pos(1, SMALLEST.ActBytes()) == ACT_BYTES;
  }

  /** A graph the driver pipelines in which the touch test lets an op read stale bytes, whatever the matmul's kernel. */
  lemma SpanningOpReadsStale(f: Kernel)
    ensures SMALLEST.ShapeOk() && Pipelines(SMALLEST, [Extent(0, 0, WEIGHT_BYTES)])
    ensures !S.Barrier(Spanning(), MatOf(SMALLEST, f))
    ensures exists g: (S.Memory, S.Cell) -> byte, b: S.BoardState, o: S.Oracle ::
      Differs([AsOp(SMALLEST, f), E.WithKernel(Spanning(), SpanningStep(), g)], b, o, MemOf(SmallTensors()).Keys)
  {
    SmallestPipelines();
    SpanningOk();
    var c := S.Cell(1, RESULT_BYTES);
    StepElsewhere(SMALLEST, f, map[]);
    hide S.Run, S.Sequential, E.StartsLike, S.Op.Ok, Sized, MatmulOp.WeightsApart, MatmulOp.ActsApart, MemOf, Pipelines,
      SmallTensors, S.Barrier, MatOf, S.ApplyStep, MatmulOp.ColumnBytes, Differs, E.WithKernel;
    assert Spanning().refs[0] == Some(S.Ref(1, None));
    assert S.Cell(4, 0) in SpanningStep().writes;
    StaleRead(SMALLEST, f, SmallTensors(), Spanning(), SpanningStep(), c);
  }

  lemma SpanningOk()
    ensures Spanning().Ok(MemOf(SmallTensors()).Keys)
  {
    hide Zeros, MemOf, Range;
    RangeCells(SmallTensors(), 4, 0, 1);
    hide SmallTensors;
    assert Spanning().Pieces() == [SpanningStep()];
  }
}

/**
 The PL matmul driver's chunk loop over the allocator.

 Run streams each column's weights chunk by chunk out of the weight tensor, straight from
 a slab or through scratch, and lands each chunk's lanes in the destination. For every
 extent split the transfers are the planned ones and the destination ends up with the
 same bytes: the kernel's lanes for each rowblock, cut to the real rows.
 */
module Driver {
  import opened Common
  import opened Extents
  import opened Allocator
  import opened ChunkPlan
  import Layout

  const Q1_BLOCK: nat := 128
  const MAX_WEIGHTS: nat := 0x80_0000

  datatype MatmulOp = MatmulOp(
    rows: nat, cols: nat, k: nat,
    weights: int, weightsOff: nat, acts: int, actsOff: nat, dst: int, dstOff: nat)
  {
    predicate ShapeOk()
    {
      rows > 0 && cols > 0 && k > 0 && k % Q1_BLOCK == 0
    }

    /** Packed bytes of one rowblock. */
    function RowblockBytes(): (p: nat)
      ensures ShapeOk() ==> p > 0
    {
      (k / Q1_BLOCK) * Layout.PACKED
    }

    function Rowblocks(): nat
    {
      Layout.Rowblocks(rows)
    }

    function ColumnBytes(): nat
    {
      rows * F32_BYTES
    }

    function ActBytes(): nat
    {
      k * F32_BYTES
    }

    function Most(): (m: nat)
      requires ShapeOk()
      ensures 1 <= m <= Rowblocks()
    {
      RowblocksPositive(rows);
      var fit := MAX_WEIGHTS / RowblockBytes();
      var cap := if fit > 1 then fit else 1;
      if Rowblocks() < cap then Rowblocks() else cap
    }

    function Plan(es: seq<Extent>): (w: Weights)
      requires ShapeOk()
      ensures w.p > 0 && w.most > 0
    {
      Weights(es, weightsOff, Rowblocks(), RowblockBytes(), Most())
    }

    /** The destination does not meet the weights. */
    predicate WeightsApart()
    {
      Apart(dst, dstOff, Pos(cols, ColumnBytes()), weights, weightsOff, Pos(Rowblocks(), RowblockBytes()))
    }

    /** The destination does not meet the activations. */
    predicate ActsApart()
    {
      Apart(dst, dstOff, Pos(cols, ColumnBytes()), acts, actsOff, Pos(cols, ActBytes()))
    }

    /** The first real row after n rowblocks. */
    function RowsBefore(rb: nat): nat
    {
      if ROWS * rb < rows then ROWS * rb else rows
    }
  }

  lemma RowblocksPositive(rows: nat)
    ensures rows > 0 ==> Layout.Rowblocks(rows) >= 1
  {
  }

  lemma RowblockCover(rows: nat, rb: nat)
    ensures rb < Layout.Rowblocks(rows) <==> ROWS * rb < rows
  {
  }

  /**
   Each chunk is the largest that one DMA may take: as many rowblocks as remain, fit 8 MiB
   and lie in one extent, or a single one where not even that does.
   */
  lemma LargestChunk(op: MatmulOp, es: seq<Extent>, rb: nat)
    requires op.ShapeOk() && op.Plan(es).Ok() && rb < op.Plan(es).total
    ensures var w, p := op.Plan(es), op.k / 128 * 144;
      var c, at := w.Size(rb), op.weightsOff + rb * p;
      && w.total == (op.rows + 7) / 8 && 1 <= c <= w.total - rb
      && (c == 1 || (c * p <= 0x80_0000 && InOneExtent(es, at, c * p)))
      && forall d :: c < d <= w.total - rb ==> d * p > 0x80_0000 || !InOneExtent(es, at, d * p)
  {
    hide SizeOf, InOneExtent;
    var w, p := op.Plan(es), op.k / 128 * 144;
    var c, at := w.Size(rb), op.weightsOff + rb * p;
    assert w.p == p && w.Off(rb) == at;
    if c > 1 {
      Fits(w, rb, c);
      CapFits(op, c);
    }
    forall d | c < d <= w.total - rb ensures d * p > 0x80_0000 || !InOneExtent(es, at, d * p) {
      if InOneExtent(es, at, d * p) && d * p <= 0x80_0000 {
        Fits(w, rb, d);
        CapFits(op, d);
      }
    }
  }

  /** A chunk of c rowblocks lies in one extent just when the extent has room for c. */
  lemma Fits(w: Weights, rb: nat, c: nat)
    requires w.Ok() && rb < w.total && 0 < c <= w.total - rb
    ensures c * w.p > 0
    ensures InOneExtent(w.extents, w.Off(rb), c * w.p) <==> c <= Remaining(w.extents, w.Off(rb)) / w.p
  {
    PosMono(1, c, w.p);
    PosEnds(w.p);
    PosAdd(rb, c, w.p);
    PosMono(rb + c, w.total, w.p);
    OneExtentIff(w.extents, w.Off(rb), c * w.p);
    AtMostQuotient(Remaining(w.extents, w.Off(rb)), w.p, c);
  }

  lemma AtMostQuotient(n: nat, p: nat, c: nat)
    requires p > 0
    ensures c * p <= n <==> c <= n / p
  {
    var g := n / p;
    assert n == g * p + n % p;
    if c <= g {
      PosMono(c, g, p);
    } else {
      PosMono(g + 1, c, p);
      assert (g + 1) * p == g * p + p;
    }
  }

  /** More than one rowblock is allowed in a chunk just when they fit 8 MiB. */
  lemma CapFits(op: MatmulOp, c: nat)
    requires op.ShapeOk() && 1 < c <= op.Rowblocks()
    ensures c <= op.Most() <==> c * (op.k / 128 * 144) <= 0x80_0000
  {
    AtMostQuotient(0x80_0000, op.RowblockBytes(), c);
  }

  // ----- the transfers of a run -----

  /** One kernel start: count rowblocks of a column from rowblock rb. */
  datatype Transfer = Transfer(col: nat, rb: nat, count: nat)

  function Schedule(w: Weights, col: nat, rb: nat): seq<Transfer>
    requires w.p > 0 && w.most > 0 && rb <= w.total
    decreases w.total - rb
  {
    if rb == w.total then [] else [Transfer(col, rb, w.Size(rb))] + Schedule(w, col, rb + w.Size(rb))
  }

  lemma ScheduleDone(w: Weights, col: nat)
    requires w.p > 0 && w.most > 0
    ensures Schedule(w, col, w.total) == []
  {
  }

  function AllTransfers(w: Weights, cols: nat): seq<Transfer>
    requires w.p > 0 && w.most > 0
  {
    if cols == 0 then [] else AllTransfers(w, cols - 1) + Schedule(w, cols - 1, 0)
  }

  function DstLo(op: MatmulOp, t: Transfer): nat
  {
    Pos(t.col, op.ColumnBytes()) + op.RowsBefore(t.rb) * F32_BYTES
  }

  function DstHi(op: MatmulOp, t: Transfer): nat
  {
    Pos(t.col, op.ColumnBytes()) + op.RowsBefore(t.rb + t.count) * F32_BYTES
  }

  /** The destination ranges follow each other without gap or overlap, none empty. */
  predicate Tiled(op: MatmulOp, ts: seq<Transfer>, lo: nat, hi: nat)
  {
    if ts == [] then lo == hi
    else DstLo(op, ts[0]) == lo < DstHi(op, ts[0]) && Tiled(op, ts[1..], DstHi(op, ts[0]), hi)
  }

  lemma {:induction false} ScheduleTiles(op: MatmulOp, es: seq<Extent>, col: nat, rb: nat)
    requires op.ShapeOk() && rb <= op.Rowblocks()
    ensures Tiled(op, Schedule(op.Plan(es), col, rb),
              Pos(col, op.ColumnBytes()) + op.RowsBefore(rb) * F32_BYTES, Pos(col + 1, op.ColumnBytes()))
    decreases op.Rowblocks() - rb
  {
    var w := op.Plan(es);
    RowblockCover(op.rows, rb);
    PosAdd(col, 1, op.ColumnBytes());
    PosEnds(op.ColumnBytes());
    if rb < w.total {
      var c := w.Size(rb);
      ScheduleTiles(op, es, col, rb + c);
      hide Pos, Schedule, Tiled;
      ScheduleStep(w, col, rb);
      TiledCons(op, Transfer(col, rb, c), Schedule(w, col, rb + c), Pos(col + 1, op.ColumnBytes()));
    }
  }

  lemma ScheduleStep(w: Weights, col: nat, rb: nat)
    requires w.p > 0 && w.most > 0 && rb < w.total
    ensures Schedule(w, col, rb) == [Transfer(col, rb, w.Size(rb))] + Schedule(w, col, rb + w.Size(rb))
  {
  }

  lemma TiledCons(op: MatmulOp, t: Transfer, ts: seq<Transfer>, hi: nat)
    requires DstLo(op, t) < DstHi(op, t) && Tiled(op, ts, DstHi(op, t), hi)
    ensures Tiled(op, [t] + ts, DstLo(op, t), hi)
  {
    assert ([t] + ts)[1..] == ts;
  }

  lemma {:induction false} TiledJoin(op: MatmulOp, x: seq<Transfer>, y: seq<Transfer>, lo: nat, mid: nat, hi: nat)
    requires Tiled(op, x, lo, mid) && Tiled(op, y, mid, hi)
    ensures Tiled(op, x + y, lo, hi)
  {
    if x == [] {
      assert x + y == y;
    } else {
      assert (x + y)[1..] == x[1..] + y;
      TiledJoin(op, x[1..], y, DstHi(op, x[0]), mid, hi);
    }
  }

  /** A run's destination ranges tile the rows * cols floats exactly once. */
  lemma {:induction false} TransfersTile(op: MatmulOp, es: seq<Extent>, cols: nat)
    requires op.ShapeOk()
    ensures Tiled(op, AllTransfers(op.Plan(es), cols), 0, Pos(cols, op.ColumnBytes()))
  {
    PosEnds(op.ColumnBytes());
    if cols > 0 {
      TransfersTile(op, es, cols - 1);
      ScheduleTiles(op, es, cols - 1, 0);
      hide Tiled, Pos, Schedule;
      TiledJoin(op, AllTransfers(op.Plan(es), cols - 1), Schedule(op.Plan(es), cols - 1, 0),
                0, Pos(cols - 1, op.ColumnBytes()), Pos(cols, op.ColumnBytes()));
    }
  }

  /** Every transfer is direct from one extent, or one straddling rowblock that fits scratch. */
  lemma {:induction false} TransfersFit(op: MatmulOp, es: seq<Extent>, col: nat, rb: nat)
    requires op.ShapeOk() && op.Plan(es).Ok() && rb <= op.Rowblocks()
    ensures forall t :: t in Schedule(op.Plan(es), col, rb) ==>
      op.Plan(es).Direct(t.rb, t.count) || (t.count == 1 && !op.Plan(es).Direct(t.rb, 1))
    decreases op.Rowblocks() - rb
  {
    var w := op.Plan(es);
    if rb < w.total {
      w.DirectOrStraddling(rb);
      TransfersFit(op, es, col, rb + w.Size(rb));
      ScheduleStep(w, col, rb);
    }
  }

  /** The shape run_async defers: one column, one contiguous chunk, no padding row. */
  predicate Pipelines(op: MatmulOp, es: seq<Extent>)
    requires op.ShapeOk()
  {
    && op.cols == 1
    && op.Most() >= op.Rowblocks()
    && Remaining(es, op.weightsOff) / op.RowblockBytes() >= op.Rowblocks()
    && op.rows % ROWS == 0
  }

  /** What is deferred is exactly what the synchronous run would do, in one direct transfer. */
  lemma AsyncIsOneTransfer(op: MatmulOp, es: seq<Extent>)
    requires op.ShapeOk() && Pipelines(op, es)
    ensures AllTransfers(op.Plan(es), op.cols) == [Transfer(0, 0, op.Rowblocks())]
    ensures op.Plan(es).Ok() ==> op.Plan(es).Direct(0, op.Rowblocks())
    ensures LANE_BYTES * op.Rowblocks() == op.ColumnBytes()
    ensures DstLo(op, Transfer(0, 0, op.Rowblocks())) == 0
    ensures DstHi(op, Transfer(0, 0, op.Rowblocks())) == op.ColumnBytes()
  {
    var w, p, n := op.Plan(es), op.RowblockBytes(), op.Rowblocks();
    PosEnds(p);
    PosEnds(op.ColumnBytes());
    RowblocksPositive(op.rows);
    assert op.rows == ROWS * n;
    hide Remaining, InOneExtent, Pos;
    assert w.Off(0) == op.weightsOff && w.Size(0) == n;
    assert Schedule(w, 0, n) == [] && Schedule(w, 0, 0) == [Transfer(0, 0, n)];
    assert AllTransfers(w, 0) == [];
    if w.Ok() {
      PositivePos(n, p);
      PosDiv(Remaining(es, op.weightsOff), p, n);
      OneExtentIff(es, op.weightsOff, Pos(n, p));
    }
  }

  // ----- what a run computes -----

  /** The output of the first rb rowblocks of a column, cut to the real rows. */
  function Partial(f: Kernel, acts: seq<byte>, w: seq<byte>, op: MatmulOp, rb: nat): (r: seq<byte>)
    requires Pos(rb, op.RowblockBytes()) <= |w|
    ensures |r| == op.RowsBefore(rb) * F32_BYTES
  {
    Lanes(f, acts, w, op.RowblockBytes(), rb)[..op.RowsBefore(rb) * F32_BYTES]
  }

  /** All columns: each from its own activations and the whole weight tensor. */
  function Output(f: Kernel, acts: seq<byte>, w: seq<byte>, op: MatmulOp, cols: nat): (r: seq<byte>)
    requires Pos(op.Rowblocks(), op.RowblockBytes()) <= |w| && Pos(cols, op.ActBytes()) <= |acts|
    ensures |r| == Pos(cols, op.ColumnBytes())
  {
    PosEnds(op.ColumnBytes());
    if cols == 0 then []
    else
      PosAdd(cols - 1, 1, op.ActBytes()); PosEnds(op.ActBytes());
      PosAdd(cols - 1, 1, op.ColumnBytes());
      RowblockCover(op.rows, op.Rowblocks());
      Output(f, acts, w, op, cols - 1) +
      Partial(f, acts[Pos(cols - 1, op.ActBytes())..Pos(cols, op.ActBytes())], w, op, op.Rowblocks())
  }

  /** A chunk's lanes, cut to its real rows, continue the column. */
  lemma PartialStep(f: Kernel, acts: seq<byte>, w: seq<byte>, op: MatmulOp, rb: nat, c: nat)
    requires rb < op.Rowblocks() && c > 0 && Pos(rb + c, op.RowblockBytes()) <= |w|
    ensures Pos(rb, op.RowblockBytes()) <= Pos(rb + c, op.RowblockBytes())
    ensures Pos(c, op.RowblockBytes()) == Pos(rb + c, op.RowblockBytes()) - Pos(rb, op.RowblockBytes())
    ensures op.RowsBefore(rb) < op.RowsBefore(rb + c) <= op.RowsBefore(rb) + ROWS * c
    ensures
      Partial(f, acts, w, op, rb) +
      Lanes(f, acts, w[Pos(rb, op.RowblockBytes())..Pos(rb + c, op.RowblockBytes())], op.RowblockBytes(), c)
        [..(op.RowsBefore(rb + c) - op.RowsBefore(rb)) * F32_BYTES] ==
      Partial(f, acts, w, op, rb + c)
  {
    var p := op.RowblockBytes();
    RowblockCover(op.rows, rb);
    LanesJoin(f, acts, w, p, rb, c);
    hide Pos, Lanes;
    assert op.RowsBefore(rb) == ROWS * rb;
    var head, tail := Lanes(f, acts, w, p, rb), Lanes(f, acts, w[Pos(rb, p)..Pos(rb + c, p)], p, c);
    assert |head| == op.RowsBefore(rb) * F32_BYTES;
    assert head[..|head|] == head;
    CutJoin(head, tail, (op.RowsBefore(rb + c) - op.RowsBefore(rb)) * F32_BYTES);
  }

  lemma CutJoin(x: seq<byte>, y: seq<byte>, n: nat)
    requires n <= |y|
    ensures x + y[..n] == (x + y)[..|x| + n]
  {
  }

  lemma PatchTwice(b: seq<byte>, at: nat, x: seq<byte>, y: seq<byte>)
    requires at + |x| + |y| <= |b|
    ensures Patch(Patch(b, at, x), at + |x|, y) == Patch(b, at, x + y)
  {
  }

  lemma PatchNothing(b: seq<byte>, at: nat)
    requires at <= |b|
    ensures Patch(b, at, []) == b
  {
  }

  lemma PatchElsewhere(b: seq<byte>, at: nat, x: seq<byte>, i: nat, j: nat)
    requires at + |x| <= |b| && i <= j <= |b| && (j <= at || at + |x| <= i)
    ensures Patch(b, at, x)[i..j] == b[i..j]
  {
  }

  // ----- tensors during a run -----

  /** Same tensors and sizes, and no contents changed but those of dst. */
  predicate OnlyDst(before: map<int, seq<byte>>, after: map<int, seq<byte>>, dst: int)
  {
    && after.Keys == before.Keys
    && forall h :: h in before ==> |after[h]| == |before[h]| && (h != dst ==> after[h] == before[h])
  }

  /** The bytes done stand at one position of dst, nothing else changed. */
  predicate Landed(before: map<int, seq<byte>>, after: map<int, seq<byte>>, dst: int, at: nat, done: seq<byte>)
  {
    && dst in before
    && at + |done| <= |before[dst]|
    && after == before[dst := Patch(before[dst], at, done)]
  }

  lemma LandMore(
    t0: map<int, seq<byte>>, t1: map<int, seq<byte>>, t2: map<int, seq<byte>>,
    dst: int, at: nat, done: seq<byte>, more: seq<byte>)
    requires Landed(t0, t1, dst, at, done) && Landed(t1, t2, dst, at + |done|, more)
    ensures Landed(t0, t2, dst, at, done + more)
  {
    PatchTwice(t0[dst], at, done, more);
  }

  lemma LandNothing(t: map<int, seq<byte>>, dst: int, at: nat)
    requires dst in t && at <= |t[dst]|
    ensures Landed(t, t, dst, at, [])
  {
    PatchNothing(t[dst], at);
  }

  /** Two byte ranges, of different tensors or not meeting. */
  predicate Apart(h: int, off: nat, n: nat, g: int, at: nat, m: nat)
  {
    h != g || off + n <= at || at + m <= off
  }

  lemma LandedKeeps(
    before: map<int, seq<byte>>, after: map<int, seq<byte>>, dst: int, at: nat, done: seq<byte>,
    h: int, off: nat, n: nat)
    requires Landed(before, after, dst, at, done) && Apart(dst, at, |done|, h, off, n)
    requires h in before && off + n <= |before[h]|
    ensures h in after && off + n <= |after[h]| && after[h][off..off + n] == before[h][off..off + n]
  {
    if h == dst {
      PatchElsewhere(before[h], at, done, off, off + n);
    }
  }

  // ----- the driver -----

  /** A started matmul: its copied activations, and where its DMA reads and writes. */
  datatype Pending = Pending(
    op: MatmulOp, acts: seq<byte>, slab: Slab, at: nat, weightSlab: Slab, weightAt: nat)

  /** What run_async defers: a ready op of that shape whose result lands in one extent. */
  ghost predicate Deferrable(a: TensorAllocator, op: MatmulOp)
    reads a
  {
    && RangesReady(a, op)
    && Pipelines(op, a.records[op.weights].extents)
    && InOneExtent(a.records[op.dst].extents, op.dstOff, op.ColumnBytes())
    && a.DmaAt(op.dst, op.dstOff) && a.DmaAt(op.weights, op.weightsOff)
  }

  /** The pending addresses are those of the op's weights and destination, and no lane is padding. */
  ghost predicate Bound(a: TensorAllocator, p: Pending)
    reads a
  {
    && p.op.ShapeOk() && LANE_BYTES * p.op.Rowblocks() == p.op.ColumnBytes()
    && a.ViewOf(p.slab, p.at, p.op.dst, p.op.dstOff, p.op.ColumnBytes())
    && a.ViewOf(p.weightSlab, p.weightAt, p.op.weights, p.op.weightsOff, Pos(p.op.Rowblocks(), p.op.RowblockBytes()))
  }

  lemma BoundSlab(a: TensorAllocator, p: Pending)
    requires Bound(a, p)
    ensures p.slab in a.slabs
  {
    hide Pos;
  }

  lemma BoundIn(a: TensorAllocator, p: Pending)
    requires a.Valid() && Bound(a, p)
    ensures p.slab in a.slabs && WeightsIn(a.Tensors(), p.op)
    ensures p.op.dst in a.Tensors() && p.op.dstOff + p.op.ColumnBytes() <= |a.Tensors()[p.op.dst]|
    ensures
      var n := Pos(p.op.Rowblocks(), p.op.RowblockBytes());
      && p.weightAt + n <= |p.weightSlab.data|
      && p.weightSlab.data[p.weightAt..p.weightAt + n] == WeightBytes(a.Tensors(), p.op)
  {
    BoundSlab(a, p);
    hide Pos, TensorAllocator.Valid;
    a.ViewReads(p.slab, p.at, p.op.dst, p.op.dstOff, p.op.ColumnBytes());
    a.ViewReads(p.weightSlab, p.weightAt, p.op.weights, p.op.weightsOff, Pos(p.op.Rowblocks(), p.op.RowblockBytes()));
  }

  /** The destination holds what Run leaves there. */
  predicate RunLanded(t0: map<int, seq<byte>>, t1: map<int, seq<byte>>, op: MatmulOp, f: Kernel)
  {
    && WeightsIn(t0, op) && ActsIn(t0, op)
    && Landed(t0, t1, op.dst, op.dstOff, Output(f, ActivationBytes(t0, op), WeightBytes(t0, op), op, op.cols))
  }

  lemma OneColumnSizes(op: MatmulOp)
    requires op.ShapeOk() && op.cols == 1
    ensures Pos(op.cols, op.ColumnBytes()) == op.ColumnBytes() > 0
    ensures Pos(op.cols, op.ActBytes()) == op.ActBytes() > 0
    ensures Pos(0, op.ActBytes()) == 0
    ensures Pos(op.Rowblocks(), op.RowblockBytes()) > 0
    ensures op.rows % ROWS == 0 ==> LANE_BYTES * op.Rowblocks() == op.ColumnBytes()
  {
    PosEnds(op.ColumnBytes());
    PosEnds(op.ActBytes());
    PositivePos(op.Rowblocks(), op.RowblockBytes());
  }

  lemma ReadyRanges(a: TensorAllocator, op: MatmulOp)
    requires op.cols == 1 && op.ShapeOk()
    ensures RangesReady(a, op) <==>
      && a.RangeError(op.weights, op.weightsOff, Pos(op.Rowblocks(), op.RowblockBytes())).None?
      && a.RangeError(op.acts, op.actsOff, op.ActBytes()).None?
      && a.RangeError(op.dst, op.dstOff, op.ColumnBytes()).None?
  {
    OneColumnSizes(op);
  }

  /** The weights of a pipelinable op lie in one extent, so they stream without scratch. */
  lemma DeferrableDirect(a: TensorAllocator, op: MatmulOp)
    requires a.Valid() && RangesReady(a, op) && Pipelines(op, a.records[op.weights].extents)
    ensures InOneExtent(a.records[op.weights].extents, op.weightsOff, Pos(op.Rowblocks(), op.RowblockBytes()))
  {
    var es := a.records[op.weights].extents;
    a.RecordLength(op.weights);
    AddrsLength(es);
    PosEnds(op.RowblockBytes());
    AsyncIsOneTransfer(op, es);
    hide Pos, InOneExtent, Remaining, SizeOf, Addrs, Pipelines;
    assert op.Plan(es).Ok() && op.Plan(es).Off(0) == op.weightsOff;
  }

  lemma DeferrableShape(a: TensorAllocator, op: MatmulOp)
    requires Deferrable(a, op)
    ensures op.cols == 1 && op.ShapeOk() && LANE_BYTES * op.Rowblocks() == op.ColumnBytes()
  {
    OneColumnSizes(op);
  }

  /** One column without padding is all lanes of all rowblocks. */
  lemma OneColumnOutput(f: Kernel, acts: seq<byte>, w: seq<byte>, op: MatmulOp)
    requires Pos(op.Rowblocks(), op.RowblockBytes()) <= |w| && Pos(op.cols, op.ActBytes()) == |acts|
    requires op.cols == 1 && LANE_BYTES * op.Rowblocks() == op.ColumnBytes() && op.ShapeOk()
    ensures Output(f, acts, w, op, op.cols) == Lanes(f, acts, w, op.RowblockBytes(), op.Rowblocks())
  {
    hide Pos, Lanes, Layout.Rowblocks, MatmulOp.RowblockBytes, MatmulOp.ActBytes;
    OneColumnSizes(op);
    RowblockCover(op.rows, op.Rowblocks());
    assert Output(f, acts, w, op, 0) == [];
    assert acts[0..|acts|] == acts;
    var lanes := Lanes(f, acts, w, op.RowblockBytes(), op.Rowblocks());
    assert op.RowsBefore(op.Rowblocks()) * F32_BYTES == |lanes|;
    assert lanes[..|lanes|] == lanes;
  }

  lemma DeferredLanded(t0: map<int, seq<byte>>, t1: map<int, seq<byte>>, op: MatmulOp, f: Kernel)
    requires WeightsIn(t0, op) && ActsIn(t0, op) && op.cols == 1 && op.ShapeOk()
    requires LANE_BYTES * op.Rowblocks() == op.ColumnBytes()
    requires Landed(t0, t1, op.dst, op.dstOff,
               Lanes(f, ActivationBytes(t0, op), WeightBytes(t0, op), op.RowblockBytes(), op.Rowblocks()))
    ensures RunLanded(t0, t1, op, f)
  {
    hide Pos, Lanes, Output, Landed, ActivationBytes, WeightBytes;
    OneColumnOutput(f, ActivationBytes(t0, op), WeightBytes(t0, op), op);
  }

  /** Where a run reads its activations: in place in one slab, or a copy made at the start. */
  datatype ActsSource = InSlab(slab: Slab, at: nat) | Copied(bytes: seq<byte>)

  class PLMatmulQ1A8 {
    var actsSize: nat
    var weightsDmaSize: nat
    var resultSize: nat

    constructor ()
      ensures actsSize == weightsDmaSize == resultSize == 0
    {
      actsSize, weightsDmaSize, resultSize := 0, 0, 0;
    }

    /** Buffers only ever grow. */
    method EnsureBuffers(acts: nat, weights: nat, result: nat)
      modifies this
      ensures actsSize == if old(actsSize) < acts then acts else old(actsSize)
      ensures weightsDmaSize == if old(weightsDmaSize) < weights then weights else old(weightsDmaSize)
      ensures resultSize == if old(resultSize) < result then result else old(resultSize)
    {
      if actsSize < acts {
        actsSize := acts;
      }
      if weightsDmaSize < weights {
        weightsDmaSize := weights;
      }
      if resultSize < result {
        resultSize := result;
      }
    }

    /** Bytes from a tensor offset to the end of its extent. */
    method ExtentRemaining(a: TensorAllocator, handle: int, offset: nat) returns (r: Result<nat>)
      ensures handle !in a.records ==> r == Err(UnknownTensor)
      ensures handle in a.records ==> r == Ok(Remaining(a.records[handle].extents, offset))
    {
      var record := a.GetRecord(handle);
      if record.Err? {
        return Err(record.error);
      }
      var es := record.value.extents;
      var cursor: nat := 0;
      assert es[0..] == es;
      for i := 0 to |es|
        invariant cursor <= offset
        invariant Remaining(es, offset) == Remaining(es[i..], offset - cursor)
      {
        assert es[i..][1..] == es[i + 1..];
        if offset < cursor + es[i].size {
          return Ok(cursor + es[i].size - offset);
        }
        cursor := cursor + es[i].size;
      }
      return Ok(0);
    }

    /** The weight bytes a chunk's DMA reads: from the slab, or copied through scratch. */
    method StreamWeights(a: TensorAllocator, handle: int, offset: nat, n: nat) returns (r: Result<seq<byte>>)
      requires a.Valid() && n > 0
      ensures a.RangeError(handle, offset, n).Some? ==> r == Err(a.RangeError(handle, offset, n).value)
      ensures a.RangeError(handle, offset, n).None? ==>
        if InOneExtent(a.records[handle].extents, offset, n) && !a.DmaAt(handle, offset) then
          r == Err(AttributeError)
        else if InOneExtent(a.records[handle].extents, offset, n) || n <= weightsDmaSize then
          offset + n <= |a.Tensors()[handle]| && r == Ok(a.Tensors()[handle][offset..offset + n])
        else
          r == Err(RuntimeError)
    {
      hide InOneExtent, Tiles, TensorAllocator.ViewOf, TensorAllocator.DmaAt;
      var view := a.SlabView(handle, offset, n);
      if view.Ok? {
        var slab, at := view.value.0, view.value.1;
        a.ViewDma(slab, at, handle, offset, n);
        if !slab.dma {
          return Err(AttributeError);
        }
        return Ok(slab.data[at..at + n]);
      }
      if view.error != MultiExtent {
        return Err(view.error);
      }
      if n > weightsDmaSize {
        return Err(RuntimeError);
      }
      r := a.Read(handle, offset, n);
    }

    /** Land a chunk's lanes: straight through a view when they all count, else by copy. */
    method LandResult(a: TensorAllocator, handle: int, offset: nat, lanes: seq<byte>, actual: nat)
      returns (r: Option<Error>)
      requires a.Valid() && 0 < actual <= |lanes| <= resultSize
      modifies a.slabs
      ensures a.Valid() && a.Untouched()
      ensures a.RangeError(handle, offset, actual).Some? ==> r == a.RangeError(handle, offset, actual)
      ensures a.RangeError(handle, offset, actual).None? ==>
        r == if |lanes| == actual && InOneExtent(a.records[handle].extents, offset, actual) && !a.DmaAt(handle, offset)
             then Some(AttributeError) else None
      ensures r.Some? ==> a.Tensors() == old(a.Tensors())
      ensures r.None? ==>
        && offset + actual <= |old(a.Tensors())[handle]|
        && a.Tensors() == old(a.Tensors())[handle := Patch(old(a.Tensors())[handle], offset, lanes[..actual])]
    {
      hide InOneExtent, Tiles, Patch, TensorAllocator.DmaAt;
      if |lanes| == actual {
        assert lanes[..actual] == lanes;
        var view := a.SlabView(handle, offset, |lanes|);
        if view.Ok? {
          a.ViewDma(view.value.0, view.value.1, handle, offset, |lanes|);
          if !view.value.0.dma {
            return Some(AttributeError);
          }
          a.StoreThroughView(view.value.0, view.value.1, lanes, handle, offset);
          return None;
        }
        if view.error != MultiExtent {
          return Some(view.error);
        }
      }
      r := a.Write(handle, offset, lanes[..actual]);
    }

    /** How many rowblocks the next chunk takes. */
    method SizeChunk(a: TensorAllocator, op: MatmulOp, rb: nat) returns (r: Result<nat>)
      requires op.ShapeOk() && rb < op.Rowblocks()
      ensures op.weights !in a.records ==> r == Err(UnknownTensor)
      ensures op.weights in a.records ==> r == Ok(op.Plan(a.records[op.weights].extents).Size(rb))
    {
      hide Remaining, Pos;
      var p := op.RowblockBytes();
      var remaining := op.Rowblocks() - rb;
      var left := ExtentRemaining(a, op.weights, op.weightsOff + Pos(rb, p));
      if left.Err? {
        return Err(left.error);
      }
      var toBoundary := left.value / p;
      var count := if op.Most() < remaining then op.Most() else remaining;
      if toBoundary >= 1 {
        count := if toBoundary < count then toBoundary else count;
      } else {
        count := 1;
      }
      return Ok(count);
    }

    /** Stream and land one chunk of a column. */
    method RunChunk(a: TensorAllocator, op: MatmulOp, f: Kernel, acts: seq<byte>, col: nat, rb: nat, count: nat)
      returns (r: Option<Error>)
      requires a.Valid() && op.ShapeOk() && rb < op.Rowblocks() && 1 <= count <= op.Most()
      requires op.RowblockBytes() <= weightsDmaSize && LANE_BYTES * op.Most() <= resultSize
      modifies a.slabs
      ensures a.Valid() && a.Untouched() && OnlyDst(old(a.Tensors()), a.Tensors(), op.dst)
      ensures ChunkReady(a, op, col, rb, count) ==>
        r.None? && ChunkLanded(old(a.Tensors()), a.Tensors(), op, f, acts, col, rb, count)
    {
      hide InOneExtent, Patch, Lanes, Pos, ChunkLanded, OnlyDst, TensorAllocator.RangeError, TensorAllocator.Valid,
        TensorAllocator.Tensors, TensorAllocator.DmaAt, AllDma, MatmulOp.RowblockBytes, MatmulOp.ColumnBytes,
        MatmulOp.RowsBefore, MatmulOp.Most;
      var p := op.RowblockBytes();
      ChunkRows(op, rb, count);
      PositivePos(count, p);
      OnlySame(a.Tensors(), op.dst);
      var weightsAt := op.weightsOff + Pos(rb, p);
      DmaEverywhere(a, op.weights, weightsAt, Pos(count, p));
      var weights := StreamWeights(a, op.weights, weightsAt, Pos(count, p));
      if weights.Err? {
        return Some(weights.error);
      }
      a.InRange(op.weights, weightsAt, Pos(count, p));
      var lanes := Lanes(f, acts, weights.value, p, count);
      var chunkRows := if count * ROWS < op.rows - op.RowsBefore(rb) then count * ROWS else op.rows - op.RowsBefore(rb);
      var dstAt := op.dstOff + Pos(col, op.ColumnBytes()) + op.RowsBefore(rb) * F32_BYTES;
      DmaEverywhere(a, op.dst, dstAt, chunkRows * F32_BYTES);
      if a.RangeError(op.dst, dstAt, chunkRows * F32_BYTES).None? {
        a.InRange(op.dst, dstAt, chunkRows * F32_BYTES);
      }
      r := LandResult(a, op.dst, dstAt, lanes, chunkRows * F32_BYTES);
      if r.None? {
        ChunkIsLanded(old(a.Tensors()), a.Tensors(), op, f, acts, col, rb, count, weights.value);
      }
    }

    /** All chunks of one column. */
    method RunColumn(a: TensorAllocator, op: MatmulOp, f: Kernel, acts: seq<byte>, col: nat)
      returns (r: Option<Error>, transfers: seq<Transfer>)
      requires a.Valid() && op.ShapeOk() && col < op.cols
      requires op.RowblockBytes() <= weightsDmaSize && LANE_BYTES * op.Most() <= resultSize
      modifies a.slabs
      ensures a.Valid() && a.Untouched() && OnlyDst(old(a.Tensors()), a.Tensors(), op.dst)
      ensures Ready(a, op) ==> r.None? && transfers == Schedule(op.Plan(a.records[op.weights].extents), col, 0)
      ensures Ready(a, op) && op.WeightsApart() ==>
        WeightsIn(old(a.Tensors()), op) &&
        Landed(old(a.Tensors()), a.Tensors(), op.dst, op.dstOff + Pos(col, op.ColumnBytes()),
               Partial(f, acts, WeightBytes(old(a.Tensors()), op), op, op.Rowblocks()))
    {
      hide OnlyDst, ChunkReady, Ready, Landed, Partial, Pos, ChunkLanded, TensorAllocator.Valid,
        TensorAllocator.Tensors, MatmulOp.RowblockBytes, MatmulOp.ColumnBytes, MatmulOp.Most, MatmulOp.WeightsApart,
        Schedule, MatmulOp.ShapeOk, Layout.Rowblocks;
      var rowStart: nat, rb: nat := 0, 0;
      transfers := [];
      OnlySame(a.Tensors(), op.dst);
      ghost var ready, t0 := Ready(a, op), a.Tensors();
      if ready {
        ColumnStart(a, op, f, acts, col);
      }
      RowblockCover(op.rows, rb);
      while rowStart < op.rows
        invariant rowStart == op.RowsBefore(rb) && rb <= op.Rowblocks()
        invariant a.Valid() && a.Untouched() && ready == Ready(a, op)
        invariant OnlyDst(t0, a.Tensors(), op.dst)
        invariant ready ==> transfers + Schedule(op.Plan(a.records[op.weights].extents), col, rb) ==
                            Schedule(op.Plan(a.records[op.weights].extents), col, 0)
        invariant ready && op.WeightsApart() ==> ColumnSoFar(t0, a.Tensors(), op, f, acts, col, rb)
        decreases op.rows - rowStart
      {
        RowblockCover(op.rows, rb);
        var count := SizeChunk(a, op, rb);
        if count.Err? {
          return Some(count.error), transfers;
        }
        ghost var t1 := a.Tensors();
        if ready {
          ReadyChunk(a, op, col, rb, count.value);
        }
        r := RunChunk(a, op, f, acts, col, rb, count.value);
        OnlyStill(t0, t1, a.Tensors(), op.dst);
        if r.Some? {
          return;
        }
        if ready && op.WeightsApart() {
          ColumnStep(t0, t1, a.Tensors(), op, f, acts, col, rb, count.value);
        }
        if ready {
          ScheduleStep(op.Plan(a.records[op.weights].extents), col, rb);
        }
        transfers := transfers + [Transfer(col, rb, count.value)];
        ChunkRows(op, rb, count.value);
        rowStart := rowStart +
          if count.value * ROWS < op.rows - rowStart then count.value * ROWS else op.rows - rowStart;
        rb := rb + count.value;
      }
      RowblockCover(op.rows, rb);
      if ready {
        ScheduleDone(op.Plan(a.records[op.weights].extents), col);
      }
      return None, transfers;
    }

    method ResolveActs(a: TensorAllocator, handle: int, offset: nat, n: nat) returns (r: Result<ActsSource>)
      requires a.Valid() && n > 0
      ensures a.RangeError(handle, offset, n).Some? ==> r == Err(a.RangeError(handle, offset, n).value)
      ensures a.RangeError(handle, offset, n).None? ==>
        r.Ok? && SourceOk(a, r.value, handle, offset, n) &&
        handle in a.Tensors() && offset + n <= |a.Tensors()[handle]| &&
        SourceBytes(a, r.value, handle, offset, n) == a.Tensors()[handle][offset..offset + n]
    {
      hide InOneExtent, Tiles;
      var view := a.SlabView(handle, offset, n);
      if view.Ok? {
        return Ok(InSlab(view.value.0, view.value.1));
      }
      if view.error != MultiExtent {
        return Err(view.error);
      }
      var bytes := a.Read(handle, offset, n);
      if bytes.Err? {
        return Err(bytes.error);
      }
      return Ok(Copied(bytes.value));
    }

    /** One column's activations, read when its turn comes. */
    method ColumnActs(a: TensorAllocator, source: ActsSource, op: MatmulOp, col: nat) returns (acts: seq<byte>)
      requires a.Valid() && col < op.cols && SourceOk(a, source, op.acts, op.actsOff, Pos(op.cols, op.ActBytes()))
      ensures Pos(col, op.ActBytes()) <= Pos(col + 1, op.ActBytes()) <=
              |SourceBytes(a, source, op.acts, op.actsOff, Pos(op.cols, op.ActBytes()))|
      ensures acts == SourceBytes(a, source, op.acts, op.actsOff, Pos(op.cols, op.ActBytes()))
                        [Pos(col, op.ActBytes())..Pos(col + 1, op.ActBytes())]
    {
      hide TensorAllocator.Valid, TensorAllocator.Tensors, TensorAllocator.ViewOf, MatmulOp.ActBytes, Pos;
      var lo, hi := Pos(col, op.ActBytes()), Pos(col + 1, op.ActBytes());
      PosMono(col, col + 1, op.ActBytes());
      PosMono(col + 1, op.cols, op.ActBytes());
      match source
      case InSlab(slab, at) =>
        a.ViewReads(slab, at, op.acts, op.actsOff, Pos(op.cols, op.ActBytes()));
        SubSlice(slab.data, at, Pos(op.cols, op.ActBytes()), lo, hi);
        return slab.data[at + lo..at + hi];
      case Copied(bytes) =>
        return bytes[lo..hi];
    }

    /** The whole matmul: every column, chunk by chunk. */
    method Run(a: TensorAllocator, op: MatmulOp, f: Kernel) returns (r: Option<Error>, transfers: seq<Transfer>)
      requires a.Valid()
      modifies this, a.slabs
      ensures a.Valid() && a.Untouched() && OnlyDst(old(a.Tensors()), a.Tensors(), op.dst)
      ensures op.rows == 0 || op.cols == 0 || op.k == 0 || op.k % 128 != 0 ==>
        r == Some(InvalidRequest) && transfers == [] && a.Tensors() == old(a.Tensors())
      ensures Ready(a, op) ==> r.None? && transfers == AllTransfers(op.Plan(a.records[op.weights].extents), op.cols)
      ensures Ready(a, op) && op.WeightsApart() && op.ActsApart() ==>
        WeightsIn(old(a.Tensors()), op) && ActsIn(old(a.Tensors()), op) &&
        Landed(old(a.Tensors()), a.Tensors(), op.dst, op.dstOff,
               Output(f, ActivationBytes(old(a.Tensors()), op), WeightBytes(old(a.Tensors()), op), op, op.cols))
    {
      hide OnlyDst, Ready, Landed, Partial, Pos, Output, TensorAllocator.Valid, TensorAllocator.Tensors, SourceOk,
        SourceBytes, ActivationBytes, RunSoFar, ActsIn, Schedule,
        MatmulOp.RowblockBytes, MatmulOp.ColumnBytes, MatmulOp.ActBytes, MatmulOp.Most, MatmulOp.WeightsApart,
        MatmulOp.ActsApart;
      transfers := [];
      OnlySame(a.Tensors(), op.dst);
      ReadyShape(a, op);
      if !op.ShapeOk() {
        return Some(InvalidRequest), transfers;
      }
      BufferSizes(op);
      PositivePos(op.cols, op.ActBytes());
      var source := ResolveActs(a, op.acts, op.actsOff, Pos(op.cols, op.ActBytes()));
      if source.Err? {
        return Some(source.error), transfers;
      }
      EnsureBuffers(ActStream(op.k), op.Most() * op.RowblockBytes(), op.Most() * ROWS * F32_BYTES);
      ghost var ready, apart, t0 := Ready(a, op), op.WeightsApart() && op.ActsApart(), a.Tensors();
      if ready {
        RunStart(a, op, f, source.value);
      }
      for col := 0 to op.cols
        invariant a.Valid() && a.Untouched() && ready == Ready(a, op)
        invariant OnlyDst(t0, a.Tensors(), op.dst)
        invariant ready ==> transfers == AllTransfers(op.Plan(a.records[op.weights].extents), col)
        invariant ready && apart ==> RunSoFar(t0, a.Tensors(), op, f, col)
        invariant op.RowblockBytes() <= weightsDmaSize && LANE_BYTES * op.Most() <= resultSize
        invariant SourceOk(a, source.value, op.acts, op.actsOff, Pos(op.cols, op.ActBytes()))
        invariant ready ==> ActsIn(t0, op) && SourceIs(source.value, ActivationBytes(t0, op))
      {
        var acts := ColumnActs(a, source.value, op, col);
        ghost var t1 := a.Tensors();
        var ts: seq<Transfer>;
        if ready && apart {
          ActsStill(a, t0, source.value, op, f, col);
        }
        r, ts := RunColumn(a, op, f, acts, col);
        OnlyStill(t0, t1, a.Tensors(), op.dst);
        if r.Some? {
          return;
        }
        transfers := transfers + ts;
        if ready && apart {
          RunStep(t0, t1, a.Tensors(), op, f, acts, col);
        }
      }
      if ready && apart {
        RunDone(t0, a.Tensors(), op, f);
      }
      return None, transfers;
    }

    /** Copy the activations and start the DMA of an op of the pipelined shape. */
    method Start(a: TensorAllocator, op: MatmulOp, slab: Slab, at: nat) returns (r: Result<Pending>)
      requires a.Valid() && op.ShapeOk() && op.weights in a.records && Pipelines(op, a.records[op.weights].extents)
      requires a.RangeError(op.dst, op.dstOff, op.ColumnBytes()).None?
      requires a.ViewOf(slab, at, op.dst, op.dstOff, op.ColumnBytes())
      modifies this
      ensures a.Valid() && r.Ok? == (RangesReady(a, op) && a.DmaAt(op.weights, op.weightsOff))
      ensures r.Ok? ==>
        && Bound(a, r.value) && r.value.op == op
        && ActsIn(a.Tensors(), op) && r.value.acts == ActivationBytes(a.Tensors(), op)
    {
      hide RangesReady, Pos, Remaining, InOneExtent, TensorAllocator.Valid, TensorAllocator.Tensors,
        TensorAllocator.ViewOf, TensorAllocator.DmaAt,
        MatmulOp.RowblockBytes, MatmulOp.ColumnBytes, MatmulOp.ActBytes, MatmulOp.Most;
      OneColumnSizes(op);
      ReadyRanges(a, op);
      var source := ResolveActs(a, op.acts, op.actsOff, op.ActBytes());
      if source.Err? {
        return Err(source.error);
      }
      EnsureBuffers(ActStream(op.k), op.Rowblocks() * op.RowblockBytes(), op.Rowblocks() * ROWS * F32_BYTES);
      var acts := ColumnActs(a, source.value, op, 0);
      if RangesReady(a, op) {
        DeferrableDirect(a, op);
      }
      var weights := a.SlabView(op.weights, op.weightsOff, Pos(op.Rowblocks(), op.RowblockBytes()));
      if weights.Err? {
        return Err(weights.error);
      }
      a.ViewDma(weights.value.0, weights.value.1, op.weights, op.weightsOff, Pos(op.Rowblocks(), op.RowblockBytes()));
      if !weights.value.0.dma {
        return Err(AttributeError);
      }
      return Ok(Pending(op, acts, slab, at, weights.value.0, weights.value.1));
    }

    /** Quantize and start the DMA of a pipelinable matmul, or run it here and now. */
    method RunAsync(a: TensorAllocator, op: MatmulOp, f: Kernel) returns (r: Result<Option<Pending>>)
      requires a.Valid()
      modifies this, a.slabs
      ensures a.Valid() && a.Untouched() && OnlyDst(old(a.Tensors()), a.Tensors(), op.dst)
      ensures (r.Ok? && r.value.Some?) <==> Deferrable(a, op)
      ensures r.Ok? && r.value.Some? ==>
        && a.Tensors() == old(a.Tensors()) && Bound(a, r.value.value)
        && r.value.value.op == op && ActsIn(a.Tensors(), op) && r.value.value.acts == ActivationBytes(a.Tensors(), op)
      ensures Ready(a, op) ==> r.Ok?
      ensures Ready(a, op) && !Deferrable(a, op) && op.WeightsApart() && op.ActsApart() ==>
        RunLanded(old(a.Tensors()), a.Tensors(), op, f)
    {
      hide RangesReady, AllDma, Pos, Remaining, InOneExtent, OnlyDst, Output, Landed, TensorAllocator.Valid,
        TensorAllocator.Tensors, TensorAllocator.ViewOf, TensorAllocator.DmaAt, MatmulOp.RowblockBytes,
        MatmulOp.ColumnBytes, MatmulOp.ActBytes, MatmulOp.Most, MatmulOp.WeightsApart, MatmulOp.ActsApart;
      ReadyShape(a, op);
      OnlySame(a.Tensors(), op.dst);
      if op.cols != 1 || !op.ShapeOk() {
        r := RunNow(a, op, f);
        return;
      }
      OneColumnSizes(op);
      var left := ExtentRemaining(a, op.weights, op.weightsOff);
      if left.Err? {
        return Err(left.error);
      }
      var single := op.Most() >= op.Rowblocks() && left.value / op.RowblockBytes() >= op.Rowblocks();
      if !(single && op.rows % ROWS == 0) {
        r := RunNow(a, op, f);
        return;
      }
      ReadyRanges(a, op);
      var dst := a.SlabView(op.dst, op.dstOff, op.ColumnBytes());
      if dst.Err? {
        if dst.error != MultiExtent {
          return Err(dst.error);
        }
        r := RunNow(a, op, f);
        return;
      }
      a.ViewDma(dst.value.0, dst.value.1, op.dst, op.dstOff, op.ColumnBytes());
      DmaEverywhere(a, op.weights, op.weightsOff, Pos(op.Rowblocks(), op.RowblockBytes()));
      if !dst.value.0.dma {
        r := RunNow(a, op, f);
        return;
      }
      var started := Start(a, op, dst.value.0, dst.value.1);
      if started.Err? {
        return Err(started.error);
      }
      return Ok(Some(started.value));
    }

    /** The synchronous run, its outcome as RunAsync reports it. */
    method RunNow(a: TensorAllocator, op: MatmulOp, f: Kernel) returns (r: Result<Option<Pending>>)
      requires a.Valid()
      modifies this, a.slabs
      ensures a.Valid() && a.Untouched() && OnlyDst(old(a.Tensors()), a.Tensors(), op.dst)
      ensures r.Ok? ==> r.value.None?
      ensures Ready(a, op) ==> r.Ok?
      ensures Ready(a, op) && op.WeightsApart() && op.ActsApart() ==> RunLanded(old(a.Tensors()), a.Tensors(), op, f)
    {
      hide Ready, OnlyDst, Output, Landed, TensorAllocator.Valid, TensorAllocator.Tensors, Schedule,
        MatmulOp.RowblockBytes, MatmulOp.ColumnBytes, MatmulOp.ActBytes, MatmulOp.Most, Pos;
      ghost var t0 := a.Tensors();
      var error, transfers := Run(a, op, f);
      if error.Some? {
        return Err(error.value);
      }
      return Ok(None);
    }

    /** Wait for a started matmul: its lanes are in the destination. */
    method Complete(a: TensorAllocator, p: Pending, f: Kernel)
      requires a.Valid() && Bound(a, p)
      modifies p.slab
      ensures a.Valid() && a.Untouched() && WeightsIn(old(a.Tensors()), p.op)
      ensures Landed(old(a.Tensors()), a.Tensors(), p.op.dst, p.op.dstOff,
                     Lanes(f, p.acts, WeightBytes(old(a.Tensors()), p.op), p.op.RowblockBytes(), p.op.Rowblocks()))
    {
      hide Pos, Lanes, Patch, InOneExtent, TensorAllocator.Valid, TensorAllocator.Tensors, TensorAllocator.ViewOf,
        MatmulOp.RowblockBytes, MatmulOp.ColumnBytes, MatmulOp.Most;
      var op := p.op;
      var n := Pos(op.Rowblocks(), op.RowblockBytes());
      BoundIn(a, p);
      var lanes := Lanes(f, p.acts, p.weightSlab.data[p.weightAt..p.weightAt + n], op.RowblockBytes(), op.Rowblocks());
      a.StoreThroughView(p.slab, p.at, lanes, op.dst, op.dstOff);
    }

    /** Issue and complete with nothing in between: what the synchronous run does. */
    method RunDeferred(a: TensorAllocator, op: MatmulOp, f: Kernel) returns (r: Option<Error>)
      requires a.Valid()
      modifies this, a.slabs
      ensures a.Valid() && a.Untouched()
      ensures Ready(a, op) ==> r.None?
      ensures Ready(a, op) && op.WeightsApart() && op.ActsApart() ==> RunLanded(old(a.Tensors()), a.Tensors(), op, f)
    {
      hide Ready, Output, Landed, Lanes, Pos, OnlyDst, TensorAllocator.Valid, TensorAllocator.Tensors, Deferrable,
        ActivationBytes, WeightBytes, ActsIn, WeightsIn, MatmulOp.RowblockBytes, MatmulOp.ColumnBytes,
        MatmulOp.ActBytes,
        MatmulOp.WeightsApart, MatmulOp.ActsApart, Bound, RunLanded;
      ghost var t0 := a.Tensors();
      var issued := RunAsync(a, op, f);
      if issued.Err? {
        return Some(issued.error);
      }
      if issued.value.Some? {
        BoundSlab(a, issued.value.value);
        DeferrableShape(a, op);
        Complete(a, issued.value.value, f);
        DeferredLanded(t0, a.Tensors(), op, f);
      }
      return None;
    }
  }

  /** Bytes of one column's activation stream. */
  function ActStream(k: nat): nat
  {
    (k / Q1_BLOCK) * Layout.ACTS_BLOCK
  }

  predicate ActsIn(t: map<int, seq<byte>>, op: MatmulOp)
  {
    op.acts in t && op.actsOff + Pos(op.cols, op.ActBytes()) <= |t[op.acts]|
  }

  /** The activations of all columns. */
  function ActivationBytes(t: map<int, seq<byte>>, op: MatmulOp): (b: seq<byte>)
    requires ActsIn(t, op)
    ensures |b| == Pos(op.cols, op.ActBytes())
  {
    t[op.acts][op.actsOff..op.actsOff + Pos(op.cols, op.ActBytes())]
  }

  /** The first columns have landed. */
  predicate RunSoFar(t0: map<int, seq<byte>>, t1: map<int, seq<byte>>, op: MatmulOp, f: Kernel, col: nat)
  {
    && WeightsIn(t0, op) && ActsIn(t0, op)
    && Pos(col, op.ActBytes()) <= Pos(op.cols, op.ActBytes())
    && Landed(t0, t1, op.dst, op.dstOff, Output(f, ActivationBytes(t0, op), WeightBytes(t0, op), op, col))
  }

  ghost predicate SourceOk(a: TensorAllocator, source: ActsSource, handle: int, offset: nat, n: nat)
    reads a
  {
    match source
    case InSlab(slab, at) => a.ViewOf(slab, at, handle, offset, n)
    case Copied(bytes) => |bytes| == n
  }

  /** What reading the resolved activations gives now. */
  ghost function SourceBytes(a: TensorAllocator, source: ActsSource, handle: int, offset: nat, n: nat): (b: seq<byte>)
    requires a.Valid() && SourceOk(a, source, handle, offset, n)
    reads a, a.slabs
    ensures |b| == n
  {
    match source
    case InSlab(slab, at) => a.ViewReads(slab, at, handle, offset, n); a.Tensors()[handle][offset..offset + n]
    case Copied(bytes) => bytes
  }

  predicate SourceIs(source: ActsSource, b: seq<byte>)
  {
    source.Copied? ==> source.bytes == b
  }

  lemma ReadyShape(a: TensorAllocator, op: MatmulOp)
    ensures Ready(a, op) ==> RangesReady(a, op)
    ensures RangesReady(a, op) ==> op.ShapeOk() && op.weights in a.records
    ensures RangesReady(a, op) ==> a.RangeError(op.acts, op.actsOff, Pos(op.cols, op.ActBytes())).None?
  {
  }

  lemma BufferSizes(op: MatmulOp)
    requires op.ShapeOk()
    ensures op.ActBytes() > 0
    ensures op.RowblockBytes() <= op.Most() * op.RowblockBytes()
    ensures LANE_BYTES * op.Most() == op.Most() * ROWS * F32_BYTES
  {
    PosMono(1, op.Most(), op.RowblockBytes());
    PosEnds(op.RowblockBytes());
  }

  lemma RunStart(a: TensorAllocator, op: MatmulOp, f: Kernel, source: ActsSource)
    requires a.Valid() && Ready(a, op)
    requires SourceOk(a, source, op.acts, op.actsOff, Pos(op.cols, op.ActBytes()))
    requires op.acts in a.Tensors() && op.actsOff + Pos(op.cols, op.ActBytes()) <= |a.Tensors()[op.acts]|
    requires SourceBytes(a, source, op.acts, op.actsOff, Pos(op.cols, op.ActBytes())) ==
             a.Tensors()[op.acts][op.actsOff..op.actsOff + Pos(op.cols, op.ActBytes())]
    ensures op.weights in a.records && ActsIn(a.Tensors(), op)
    ensures SourceIs(source, ActivationBytes(a.Tensors(), op))
    ensures RunSoFar(a.Tensors(), a.Tensors(), op, f, 0)
  {
    hide Pos, TensorAllocator.RangeError, TensorAllocator.Valid, TensorAllocator.Tensors;
    a.InRange(op.weights, op.weightsOff, Pos(op.Rowblocks(), op.RowblockBytes()));
    a.InRange(op.acts, op.actsOff, Pos(op.cols, op.ActBytes()));
    a.InRange(op.dst, op.dstOff, Pos(op.cols, op.ColumnBytes()));
    PosMono(0, op.cols, op.ActBytes());
    LandNothing(a.Tensors(), op.dst, op.dstOff);
  }

  /** Nothing that has landed disturbed the activations. */
  lemma ActsStill(a: TensorAllocator, t0: map<int, seq<byte>>, source: ActsSource, op: MatmulOp, f: Kernel, col: nat)
    requires a.Valid() && col <= op.cols && RunSoFar(t0, a.Tensors(), op, f, col) && op.ActsApart()
    requires SourceOk(a, source, op.acts, op.actsOff, Pos(op.cols, op.ActBytes()))
    requires SourceIs(source, ActivationBytes(t0, op))
    ensures SourceBytes(a, source, op.acts, op.actsOff, Pos(op.cols, op.ActBytes())) == ActivationBytes(t0, op)
  {
    hide Pos, Landed, Output, TensorAllocator.Valid, TensorAllocator.Tensors, TensorAllocator.ViewOf;
    PosMono(col, op.cols, op.ColumnBytes());
    LandedKeeps(t0, a.Tensors(), op.dst, op.dstOff,
                Output(f, ActivationBytes(t0, op), WeightBytes(t0, op), op, col),
                op.acts, op.actsOff, Pos(op.cols, op.ActBytes()));
  }

  lemma RunDone(t0: map<int, seq<byte>>, t1: map<int, seq<byte>>, op: MatmulOp, f: Kernel)
    requires RunSoFar(t0, t1, op, f, op.cols)
    ensures WeightsIn(t0, op) && ActsIn(t0, op)
    ensures Landed(t0, t1, op.dst, op.dstOff,
                   Output(f, ActivationBytes(t0, op), WeightBytes(t0, op), op, op.cols))
  {
  }

  lemma RunStep(
    t0: map<int, seq<byte>>, t1: map<int, seq<byte>>, t2: map<int, seq<byte>>,
    op: MatmulOp, f: Kernel, acts: seq<byte>, col: nat)
    requires op.WeightsApart() && col < op.cols && RunSoFar(t0, t1, op, f, col) && WeightsIn(t1, op)
    requires Pos(col, op.ActBytes()) <= Pos(col + 1, op.ActBytes()) <= |ActivationBytes(t0, op)|
    requires acts == ActivationBytes(t0, op)[Pos(col, op.ActBytes())..Pos(col + 1, op.ActBytes())]
    requires Landed(t1, t2, op.dst, op.dstOff + Pos(col, op.ColumnBytes()),
               Partial(f, acts, WeightBytes(t1, op), op, op.Rowblocks()))
    ensures RunSoFar(t0, t2, op, f, col + 1)
  {
    hide Pos, Landed, Partial, ActivationBytes;
    PosMono(col, op.cols, op.ColumnBytes());
    var done := Output(f, ActivationBytes(t0, op), WeightBytes(t0, op), op, col);
    LandedKeeps(t0, t1, op.dst, op.dstOff, done, op.weights, op.weightsOff, Pos(op.Rowblocks(), op.RowblockBytes()));
    assert WeightBytes(t1, op) == WeightBytes(t0, op);
    LandMore(t0, t1, t2, op.dst, op.dstOff, done, Partial(f, acts, WeightBytes(t0, op), op, op.Rowblocks()));
  }

  /** Every slab can be streamed from and to. */
  predicate AllDma(a: TensorAllocator)
  {
    forall i :: 0 <= i < |a.slabs| ==> a.slabs[i].dma
  }

  lemma DmaEverywhere(a: TensorAllocator, handle: int, offset: nat, n: nat)
    requires a.Valid() && n > 0
    ensures AllDma(a) && a.RangeError(handle, offset, n).None? ==> a.DmaAt(handle, offset)
  {
    if AllDma(a) && a.RangeError(handle, offset, n).None? {
      a.RecordLength(handle);
      hide Addrs;
      SlabInside(a, handle, offset);
    }
  }

  lemma SlabInside(a: TensorAllocator, handle: int, offset: nat)
    requires a.Valid() && handle in a.records && offset < |Addrs(a.records[handle].extents)|
    ensures Addrs(a.records[handle].extents)[offset].slab < |a.slabs|
  {
    OwnedInside(a.Sizes(), a.records[handle], Addrs(a.records[handle].extents)[offset]);
  }

  /** The arguments name tensors that hold the ranges the run will touch, on slabs it can stream. */
  predicate Ready(a: TensorAllocator, op: MatmulOp)
    reads a
  {
    RangesReady(a, op) && AllDma(a)
  }

  predicate RangesReady(a: TensorAllocator, op: MatmulOp)
    reads a
  {
    && op.ShapeOk()
    && a.RangeError(op.weights, op.weightsOff, Pos(op.Rowblocks(), op.RowblockBytes())).None?
    && a.RangeError(op.acts, op.actsOff, Pos(op.cols, op.ActBytes())).None?
    && a.RangeError(op.dst, op.dstOff, Pos(op.cols, op.ColumnBytes())).None?
  }

  /** One chunk's lanes, cut to its rows, are in the destination and nothing else changed. */
  predicate ChunkLanded(
    before: map<int, seq<byte>>, after: map<int, seq<byte>>,
    op: MatmulOp, f: Kernel, acts: seq<byte>, col: nat, rb: nat, count: nat)
    requires op.ShapeOk()
  {
    var p := op.RowblockBytes();
    var lo, n := op.weightsOff + Pos(rb, p), Pos(count, p);
    var at := op.dstOff + Pos(col, op.ColumnBytes()) + op.RowsBefore(rb) * F32_BYTES;
    var kept := (op.RowsBefore(rb + count) - op.RowsBefore(rb)) * F32_BYTES;
    && op.weights in before && lo + n <= |before[op.weights]|
    && 0 <= kept <= LANE_BYTES * count
    && Landed(before, after, op.dst, at, Lanes(f, acts, before[op.weights][lo..lo + n], p, count)[..kept])
  }

  lemma OnlySame(t: map<int, seq<byte>>, dst: int)
    ensures OnlyDst(t, t, dst)
  {
  }

  lemma ChunkRows(op: MatmulOp, rb: nat, count: nat)
    requires rb < op.Rowblocks() && count >= 1
    ensures op.RowsBefore(rb) < op.RowsBefore(rb + count)
    ensures op.RowsBefore(rb + count) - op.RowsBefore(rb) ==
            if count * ROWS < op.rows - op.RowsBefore(rb) then count * ROWS else op.rows - op.RowsBefore(rb)
    ensures op.RowsBefore(rb + count) - op.RowsBefore(rb) <= count * ROWS
  {
    RowblockCover(op.rows, rb);
  }

  lemma PositivePos(n: nat, p: nat)
    requires n > 0 && p > 0
    ensures Pos(n, p) >= p
  {
    PosEnds(p);
    PosMono(1, n, p);
  }

  /** A chunk's weights and destination are in range, and scratch holds what is not direct. */
  predicate ChunkReady(a: TensorAllocator, op: MatmulOp, col: nat, rb: nat, count: nat)
    reads a
    requires op.ShapeOk()
  {
    var p := op.RowblockBytes();
    && AllDma(a)
    && a.RangeError(op.weights, op.weightsOff + Pos(rb, p), Pos(count, p)).None?
    && (|| InOneExtent(a.records[op.weights].extents, op.weightsOff + Pos(rb, p), Pos(count, p))
        || Pos(count, p) == p)
    && op.RowsBefore(rb) <= op.RowsBefore(rb + count)
    && a.RangeError(op.dst, op.dstOff + Pos(col, op.ColumnBytes()) + op.RowsBefore(rb) * F32_BYTES,
        (op.RowsBefore(rb + count) - op.RowsBefore(rb)) * F32_BYTES).None?
  }

  /** In a ready run every chunk finds its weights and its destination in range. */
  lemma ReadyChunk(a: TensorAllocator, op: MatmulOp, col: nat, rb: nat, count: nat)
    requires a.Valid() && Ready(a, op) && col < op.cols && rb < op.Rowblocks()
    requires count == op.Plan(a.records[op.weights].extents).Size(rb)
    ensures ChunkReady(a, op, col, rb, count)
  {
    var p, cb := op.RowblockBytes(), op.ColumnBytes();
    var w := op.Plan(a.records[op.weights].extents);
    PosAdd(rb, count, p);
    PosMono(rb + count, op.Rowblocks(), p);
    PosEnds(p);
    PosEnds(cb);
    PosAdd(col, 1, cb);
    PosMono(col + 1, op.cols, cb);
    a.RecordLength(op.weights);
    AddrsLength(a.records[op.weights].extents);
    hide Pos, InOneExtent, Remaining, SizeOf, Addrs;
    assert w.Ok();
    w.DirectOrStraddling(rb);
  }

  lemma ChunkIsLanded(
    before: map<int, seq<byte>>, after: map<int, seq<byte>>,
    op: MatmulOp, f: Kernel, acts: seq<byte>, col: nat, rb: nat, count: nat, w: seq<byte>)
    requires op.ShapeOk() && rb < op.Rowblocks() && count >= 1
    requires op.weights in before && op.dst in before
    requires op.weightsOff + Pos(rb, op.RowblockBytes()) + Pos(count, op.RowblockBytes()) <= |before[op.weights]|
    requires w == before[op.weights][op.weightsOff + Pos(rb, op.RowblockBytes())..
                                     op.weightsOff + Pos(rb, op.RowblockBytes()) + Pos(count, op.RowblockBytes())]
    requires
      var at := op.dstOff + Pos(col, op.ColumnBytes()) + op.RowsBefore(rb) * F32_BYTES;
      var kept := (op.RowsBefore(rb + count) - op.RowsBefore(rb)) * F32_BYTES;
      && 0 <= kept <= LANE_BYTES * count && at + kept <= |before[op.dst]|
      && after == before[op.dst := Patch(before[op.dst], at, Lanes(f, acts, w, op.RowblockBytes(), count)[..kept])]
    ensures ChunkLanded(before, after, op, f, acts, col, rb, count)
    ensures OnlyDst(before, after, op.dst)
  {
    hide Pos, Lanes;
  }

  predicate WeightsIn(t: map<int, seq<byte>>, op: MatmulOp)
  {
    op.weights in t && op.weightsOff + Pos(op.Rowblocks(), op.RowblockBytes()) <= |t[op.weights]|
  }

  /** The packed weights of the op. */
  function WeightBytes(t: map<int, seq<byte>>, op: MatmulOp): (w: seq<byte>)
    requires WeightsIn(t, op)
    ensures |w| == Pos(op.Rowblocks(), op.RowblockBytes())
  {
    t[op.weights][op.weightsOff..op.weightsOff + Pos(op.Rowblocks(), op.RowblockBytes())]
  }

  /** The column's first rb rowblocks have landed. */
  predicate ColumnSoFar(
    t0: map<int, seq<byte>>, t1: map<int, seq<byte>>, op: MatmulOp, f: Kernel, acts: seq<byte>, col: nat, rb: nat)
  {
    && WeightsIn(t0, op)
    && Pos(rb, op.RowblockBytes()) <= Pos(op.Rowblocks(), op.RowblockBytes())
    && Landed(t0, t1, op.dst, op.dstOff + Pos(col, op.ColumnBytes()), Partial(f, acts, WeightBytes(t0, op), op, rb))
  }

  lemma OnlyStill(t0: map<int, seq<byte>>, t1: map<int, seq<byte>>, t2: map<int, seq<byte>>, dst: int)
    requires OnlyDst(t0, t1, dst) && OnlyDst(t1, t2, dst)
    ensures OnlyDst(t0, t2, dst)
  {
  }

  lemma ColumnStart(a: TensorAllocator, op: MatmulOp, f: Kernel, acts: seq<byte>, col: nat)
    requires a.Valid() && Ready(a, op) && col < op.cols
    ensures op.weights in a.records && WeightsIn(a.Tensors(), op)
    ensures ColumnSoFar(a.Tensors(), a.Tensors(), op, f, acts, col, 0)
  {
    hide Pos, TensorAllocator.RangeError, TensorAllocator.Valid, TensorAllocator.Tensors;
    a.InRange(op.weights, op.weightsOff, Pos(op.Rowblocks(), op.RowblockBytes()));
    a.InRange(op.dst, op.dstOff, Pos(op.cols, op.ColumnBytes()));
    PosEnds(op.RowblockBytes());
    PosMono(0, op.Rowblocks(), op.RowblockBytes());
    PosMono(col, op.cols, op.ColumnBytes());
    LandNothing(a.Tensors(), op.dst, op.dstOff + Pos(col, op.ColumnBytes()));
    assert Partial(f, acts, WeightBytes(a.Tensors(), op), op, 0) == [];
  }

  lemma ColumnStep(
    t0: map<int, seq<byte>>, t1: map<int, seq<byte>>, t2: map<int, seq<byte>>,
    op: MatmulOp, f: Kernel, acts: seq<byte>, col: nat, rb: nat, count: nat)
    requires op.ShapeOk() && op.WeightsApart() && col < op.cols && count >= 1 && rb + count <= op.Rowblocks()
    requires ColumnSoFar(t0, t1, op, f, acts, col, rb)
    requires ChunkLanded(t1, t2, op, f, acts, col, rb, count)
    ensures ColumnSoFar(t0, t2, op, f, acts, col, rb + count)
  {
    hide Pos, Landed, Lanes, Partial;
    var p, total := op.RowblockBytes(), op.Rowblocks();
    var at := op.dstOff + Pos(col, op.ColumnBytes());
    var w := WeightBytes(t0, op);
    ColumnInside(op, col, rb);
    LandedKeeps(t0, t1, op.dst, at, Partial(f, acts, w, op, rb), op.weights, op.weightsOff, Pos(total, p));
    PosMono(rb + count, total, p);
    PartialStep(f, acts, w, op, rb, count);
    WeightSlice(t0, t1, op, rb, count);
    LandMore(t0, t1, t2, op.dst, at, Partial(f, acts, w, op, rb),
             Lanes(f, acts, w[Pos(rb, p)..Pos(rb + count, p)], p, count)
               [..(op.RowsBefore(rb + count) - op.RowsBefore(rb)) * F32_BYTES]);
  }

  /** What has landed of a column lies in the destination range. */
  lemma ColumnInside(op: MatmulOp, col: nat, rb: nat)
    requires col < op.cols
    ensures Pos(col, op.ColumnBytes()) + op.RowsBefore(rb) * F32_BYTES <= Pos(op.cols, op.ColumnBytes())
  {
    PosAdd(col, 1, op.ColumnBytes());
    PosEnds(op.ColumnBytes());
    PosMono(col + 1, op.cols, op.ColumnBytes());
  }

  lemma WeightSlice(t0: map<int, seq<byte>>, t1: map<int, seq<byte>>, op: MatmulOp, rb: nat, count: nat)
    requires WeightsIn(t0, op) && WeightsIn(t1, op) && rb + count <= op.Rowblocks()
    requires t1[op.weights][op.weightsOff..op.weightsOff + Pos(op.Rowblocks(), op.RowblockBytes())] ==
             WeightBytes(t0, op)
    ensures Pos(rb, op.RowblockBytes()) <= Pos(rb + count, op.RowblockBytes()) <= |WeightBytes(t0, op)|
    ensures Pos(rb + count, op.RowblockBytes()) == Pos(rb, op.RowblockBytes()) + Pos(count, op.RowblockBytes())
    ensures
      var lo := op.weightsOff + Pos(rb, op.RowblockBytes());
      t1[op.weights][lo..lo + Pos(count, op.RowblockBytes())] ==
      WeightBytes(t0, op)[Pos(rb, op.RowblockBytes())..Pos(rb + count, op.RowblockBytes())]
  {
    var p := op.RowblockBytes();
    PosAdd(rb, count, p);
    PosMono(rb + count, op.Rowblocks(), p);
    hide Pos, WeightBytes;
    var all, off, n := t1[op.weights], op.weightsOff, Pos(op.Rowblocks(), p);
    SubSlice(all, off, n, Pos(rb, p), Pos(rb + count, p));
  }

  lemma SubSlice(s: seq<byte>, off: nat, n: nat, i: nat, j: nat)
    requires off + n <= |s| && i <= j <= n
    ensures s[off..off + n][i..j] == s[off + i..off + j]
  {
    var t := s[off..off + n];
    assert forall k :: 0 <= k < j - i ==> t[i..j][k] == t[i + k] == s[off + i + k];
  }
}

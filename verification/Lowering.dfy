/**
 The matmul lowering: the plan of one pair of output rows, the fold of the run psums and
 the walk over all output cells.

 The value of every output cell is proved equal to Reference, a plain sum over the
 32-wide activation blocks of (weight scale) * (activation scale) * (signed integer
 sum), although the psums behind it travelled through plan, descriptors, firmware,
 chip cycles and reply bytes, and although zero groups and blocks are skipped.
 Floats are modelled as reals.
 */
module Lowering {
  import opened Accuracy
  import opened Common
  import opened Chip
  import opened DotProduct
  import opened Protocol
  import opened Firmware
  import opened Link
  import opened Quantize
  import opened Transport

  const WEIGHT_GROUP: nat := 128

  // ----- what a row means -----

  /** The signed integer sum over [lo, hi): the promise for one sub-block. */
  function SignedSum(bits: seq<bool>, q: seq<int>, lo: nat, hi: nat): int
    requires lo <= hi <= |bits| && |bits| == |q|
  {
    if lo == hi then 0 else SignedSum(bits, q, lo, hi - 1) + Contribution(bits[hi - 1], q[hi - 1])
  }

  lemma {:induction false} SignedSumBound(bits: seq<bool>, q: seq<int>, lo: nat, hi: nat)
    requires lo <= hi <= |bits| && |bits| == |q| && Int8s(q)
    ensures -128 * (hi - lo) <= SignedSum(bits, q, lo, hi) <= 128 * (hi - lo)
  {
    if lo < hi {
      SignedSumBound(bits, q, lo, hi - 1);
    }
  }

  lemma {:induction false} SignedSumSplit(bits: seq<bool>, q: seq<int>, lo: nat, mid: nat, hi: nat)
    requires lo <= mid <= hi <= |bits| && |bits| == |q|
    ensures SignedSum(bits, q, lo, hi) == SignedSum(bits, q, lo, mid) + SignedSum(bits, q, mid, hi)
  {
    if mid < hi {
      SignedSumSplit(bits, q, lo, mid, hi - 1);
    }
  }

  function AbsSum(w: seq<real>, lo: nat, hi: nat): (s: real)
    requires lo <= hi <= |w|
    ensures s >= 0.0
  {
    if lo == hi then 0.0 else AbsSum(w, lo, hi - 1) + Abs(w[hi - 1])
  }

  /** Mean magnitude of the weight group holding position `at`. */
  function GroupScale(w: seq<real>, at: nat): real
    requires at < |w|
  {
    var lo := at / WEIGHT_GROUP * WEIGHT_GROUP;
    var hi := Min(lo + WEIGHT_GROUP, |w|);
    AbsSum(w, lo, hi) / (hi - lo) as real
  }

  function Bits(w: seq<real>): (b: seq<bool>)
    ensures |b| == |w|
  {
    seq(|w|, i requires 0 <= i < |w| => w[i] >= 0.0)
  }

  function BlockEnd(k: nat, b: nat): nat
  {
    Min(ACT_BLOCK * b + ACT_BLOCK, k)
  }

  /** One activation block's share of a row's dot product. */
  function Term(w: seq<real>, q: seq<int>, scales: seq<real>, b: nat): real
    requires |q| == |w| && |scales| == Blocks(|w|) && b < Blocks(|w|)
  {
    BlockBounds(|w|, b);
    Share(GroupScale(w, ACT_BLOCK * b), scales[b], SignedSum(Bits(w), q, ACT_BLOCK * b, BlockEnd(|w|, b)))
  }

  /** The reference: every block in order, none skipped. */
  function Reference(w: seq<real>, q: seq<int>, scales: seq<real>, n: nat): real
    requires |q| == |w| && |scales| == Blocks(|w|) && n <= Blocks(|w|)
  {
    if n == 0 then 0.0 else Reference(w, q, scales, n - 1) + Term(w, q, scales, n - 1)
  }

  lemma ZeroTerm(a: real, b: real, c: int)
    ensures a == 0.0 || b == 0.0 ==> Share(a, b, c) == 0.0
  {
    if a == 0.0 || b == 0.0 {
      assert a * b == 0.0;
    }
  }

  // ----- what the reference means for a row of sign bits -----

  lemma {:induction false} FlatAbsSum(w: seq<real>, lo: nat, hi: nat, s: real)
    requires lo <= hi <= |w| && forall i :: lo <= i < hi ==> Magnitude(w[i]) == s
    ensures AbsSum(w, lo, hi) == (hi - lo) as real * s
  {
    if lo < hi {
      FlatAbsSum(w, lo, hi - 1, s);
      assert Abs(w[hi - 1]) == Magnitude(w[hi - 1]);
      assert (hi - lo) as real == (hi - 1 - lo) as real + 1.0;
    }
  }

  /** A group's mean magnitude is that of any of its weights. */
  lemma FlatGroupScale(w: seq<real>, at: nat)
    requires SignRow(w) && at < |w|
    ensures GroupScale(w, at) == Magnitude(w[at])
  {
    hide AbsSum, Magnitude;
    var lo := at / WEIGHT_GROUP * WEIGHT_GROUP;
    var hi := Min(lo + WEIGHT_GROUP, |w|);
    forall i | lo <= i < hi ensures Magnitude(w[i]) == Magnitude(w[at]) {
      assert i / 128 == at / 128;
      SameMagnitude(w, i, at);
    }
    FlatAbsSum(w, lo, hi, Magnitude(w[at]));
    MeanOfEqual(AbsSum(w, lo, hi), (hi - lo) as real, Magnitude(w[at]));
  }

  lemma MeanOfEqual(total: real, n: real, s: real)
    requires n > 0.0 && total == n * s
    ensures total / n == s
  {
  }

  lemma ShareStep(s: real, da: real, sum: int, w: real, q: int)
    requires Magnitude(w) == s
    ensures Share(s, da, sum + Contribution(w >= 0.0, q)) == Share(s, da, sum) + Product(w, Product(da, q as real))
  {
    var c := Contribution(w >= 0.0, q);
    assert s * da * (sum + c) as real == s * da * sum as real + s * da * c as real;
    assert s * c as real == w * q as real;
    assert s * da * c as real == da * (s * c as real) == da * (w * q as real) == w * (da * q as real);
  }

  lemma SumSteps(w: seq<real>, q: seq<int>, scales: seq<real>, lo: nat, i: nat)
    requires lo <= i < |w| == |q| && |scales| == Blocks(|w|)
    ensures SignedSum(Bits(w), q, lo, lo) == 0
    ensures SignedSum(Bits(w), q, lo, i + 1) == SignedSum(Bits(w), q, lo, i) + Contribution(w[i] >= 0.0, q[i])
    ensures DequantizedDot(w, q, scales, i + 1) ==
      DequantizedDot(w, q, scales, i) + Product(w[i], Product(scales[i / 32], q[i] as real))
  {
    hide Contribution, Product;
  }

  /** One block's share, position by position. */
  lemma {:induction false} BlockIsDot(w: seq<real>, q: seq<int>, scales: seq<real>, b: nat, n: nat)
    requires SignRow(w) && |q| == |w| && |scales| == Blocks(|w|) && b < Blocks(|w|)
    requires ACT_BLOCK * b <= n <= BlockEnd(|w|, b)
    ensures ACT_BLOCK * b < |w|
    ensures DequantizedDot(w, q, scales, n) == DequantizedDot(w, q, scales, ACT_BLOCK * b) +
      Share(Magnitude(w[ACT_BLOCK * b]), scales[b], SignedSum(Bits(w), q, ACT_BLOCK * b, n))
  {
    hide Magnitude, Share, Contribution, Product, Bits, SignedSum, DequantizedDot, SignRow;
    var lo := ACT_BLOCK * b;
    BlockBounds(|w|, b);
    if n == lo {
      SumSteps(w, q, scales, lo, lo);
      NothingShared(Magnitude(w[lo]), scales[b]);
    } else {
      var i := n - 1;
      BlockIsDot(w, q, scales, b, i);
      assert i / 32 == b;
      SameMagnitude(w, i, lo);
      SumSteps(w, q, scales, lo, i);
      ShareStep(Magnitude(w[lo]), scales[b], SignedSum(Bits(w), q, lo, i), w[i], q[i]);
    }
  }

  lemma SameMagnitude(w: seq<real>, i: nat, j: nat)
    requires SignRow(w) && i < |w| && j < |w| && i / 128 == j / 128
    ensures Magnitude(w[i]) == Magnitude(w[j])
  {
  }

  lemma NothingShared(dw: real, da: real)
    ensures Share(dw, da, 0) == 0.0
  {
    assert dw * da * 0.0 == 0.0;
  }

  /** For a row of sign bits the reference is the dot product with the dequantized activations. */
  lemma {:induction false} ReferenceIsDot(w: seq<real>, q: seq<int>, scales: seq<real>, n: nat)
    requires SignRow(w) && |q| == |w| && |scales| == Blocks(|w|) && n <= Blocks(|w|)
    ensures Reference(w, q, scales, n) == DequantizedDot(w, q, scales, Min(ACT_BLOCK * n, |w|))
  {
    hide Term, DequantizedDot;
    if n == 0 {
      NoTerms(w, q, scales);
    } else {
      var b := n - 1;
      BlockBounds(|w|, b);
      ReferenceIsDot(w, q, scales, b);
      TermIsDot(w, q, scales, b);
    }
  }

  lemma NoTerms(w: seq<real>, q: seq<int>, scales: seq<real>)
    requires |q| == |w| && |scales| == Blocks(|w|)
    ensures DequantizedDot(w, q, scales, 0) == 0.0
  {
  }

  lemma TermIsDot(w: seq<real>, q: seq<int>, scales: seq<real>, b: nat)
    requires SignRow(w) && |q| == |w| && |scales| == Blocks(|w|) && b < Blocks(|w|)
    ensures DequantizedDot(w, q, scales, BlockEnd(|w|, b)) ==
            DequantizedDot(w, q, scales, Min(ACT_BLOCK * b, |w|)) + Term(w, q, scales, b)
  {
    BlockBounds(|w|, b);
    BlockIsDot(w, q, scales, b, BlockEnd(|w|, b));
    FlatGroupScale(w, ACT_BLOCK * b);
    hide GroupScale, Magnitude, Share, SignRow, DequantizedDot, SignedSum;
  }

  /** What a cell of a row of sign bits means. */
  ghost predicate SignsMeanDot(w: seq<real>, x: seq<Float>, fp16: real -> real, v: real)
    requires |w| == |x|
  {
    SignRow(w) ==> MeansDot(w, x, fp16, v)
  }

  lemma ReferenceMeansDot(w: seq<real>, x: seq<Float>, fp16: real -> real)
    requires |w| == |x|
    ensures SignsMeanDot(w, x, fp16, Reference(w, Quants(x), Scales(x, fp16), Blocks(|w|)))
  {
    hide Reference, SignRow, DequantizedDot, MeansDot, Scales, Quants;
    if SignRow(w) {
      ReferenceIsDot(w, Quants(x), Scales(x, fp16), Blocks(|w|));
      DotMeans(w, x, fp16);
    }
  }

  // ----- one run: a sub-block as consecutive tiles -----

  function LaneWeight(bits: seq<bool>, k: nat, hi: nat): nat
    requires hi <= |bits|
  {
    if k < hi && bits[k] then 1 else 0
  }

  function LaneAct(q: seq<int>, k: nat, hi: nat): int
    requires hi <= |q|
  {
    if k < hi then q[k] else 0
  }

  /** The tile covering positions at and at + 1 of a sub-block ending at hi. */
  function TileFor(b0: seq<bool>, b1: seq<bool>, q: seq<int>, at: nat, hi: nat, starts: bool, ends: bool): Tile
    requires hi <= |q| && |b0| == |q| && |b1| == |q|
  {
    Tile(LaneWeight(b0, at, hi) + 2 * LaneWeight(b0, at + 1, hi),
         LaneWeight(b1, at, hi) + 2 * LaneWeight(b1, at + 1, hi),
         LaneAct(q, at, hi), LaneAct(q, at + 1, hi), 0, 0, starts, ends)
  }

  lemma TileForDot(b0: seq<bool>, b1: seq<bool>, q: seq<int>, at: nat, hi: nat, starts: bool, ends: bool)
    requires at < hi <= |q| && |b0| == |q| && |b1| == |q| && Int8s(q)
    ensures var t := TileFor(b0, b1, q, at, hi, starts, ends);
            var next := Min(at + 2, hi);
            t.OnWire() && TileDot(t, 0) == SignedSum(b0, q, at, next) && TileDot(t, 1) == SignedSum(b1, q, at, next)
  {
    var next := Min(at + 2, hi);
    assert SignedSum(b0, q, at, at + 1) == Contribution(b0[at], q[at]);
    assert SignedSum(b1, q, at, at + 1) == Contribution(b1[at], q[at]);
    WeightBits(LaneWeight(b0, at, hi), LaneWeight(b0, at + 1, hi));
    WeightBits(LaneWeight(b1, at, hi), LaneWeight(b1, at + 1, hi));
  }

  lemma WeightBits(x: nat, y: nat)
    requires x < 2 && y < 2
    ensures (Bit(x + 2 * y, 0) <==> x == 1) && (Bit(x + 2 * y, 1) <==> y == 1)
  {
  }

  /** The accumulators never leave +-4096 in any prefix of the plan. */
  predicate Bounded(ops: seq<Tile>)
  {
    forall n, row :: 0 <= n <= |ops| && 0 <= row < 2 ==> -4096 <= AccAfter(0, ops, n, row) <= 4096
  }

  lemma BoundedSnoc(ops: seq<Tile>, t: Tile)
    requires Bounded(ops)
    requires -4096 <= AccAfter(0, ops + [t], |ops| + 1, 0) <= 4096
    requires -4096 <= AccAfter(0, ops + [t], |ops| + 1, 1) <= 4096
    ensures Bounded(ops + [t])
  {
    forall n, row | 0 <= n <= |ops + [t]| && 0 <= row < 2
      ensures -4096 <= AccAfter(0, ops + [t], n, row) <= 4096
    {
      if n <= |ops| {
        AccAfterPrefix(0, ops, [t], n, row);
      }
    }
  }

  /** One more tile of a run, in integers: no wrap-around can have happened. */
  lemma RunStep(ops: seq<Tile>, b0: seq<bool>, b1: seq<bool>, q: seq<int>, lo: nat, at: nat, hi: nat, ends: bool)
    requires lo <= at < hi <= |q| && hi <= lo + ACT_BLOCK && |b0| == |q| && |b1| == |q| && Int8s(q)
    requires lo < at ==> AccAfter(0, ops, |ops|, 0) == SignedSum(b0, q, lo, at)
                         && AccAfter(0, ops, |ops|, 1) == SignedSum(b1, q, lo, at)
    ensures var t := TileFor(b0, b1, q, at, hi, at == lo, ends);
            var next := Min(at + 2, hi);
            AccAfter(0, ops + [t], |ops| + 1, 0) == SignedSum(b0, q, lo, next)
            && AccAfter(0, ops + [t], |ops| + 1, 1) == SignedSum(b1, q, lo, next)
            && -4096 <= SignedSum(b0, q, lo, next) <= 4096 && -4096 <= SignedSum(b1, q, lo, next) <= 4096
            && t.OnWire()
  {
    hide AccAfter, SignedSum, TileDot, TileFor, Wrap16;
    var t := TileFor(b0, b1, q, at, hi, at == lo, ends);
    var next := Min(at + 2, hi);
    TileForDot(b0, b1, q, at, hi, at == lo, ends);
    TileForFlags(b0, b1, q, at, hi, at == lo, ends);
    SignedSumSplit(b0, q, lo, at, next);
    SignedSumSplit(b1, q, lo, at, next);
    SignedSumBound(b0, q, lo, next);
    SignedSumBound(b1, q, lo, next);
    EmptySum(b0, q, lo);
    EmptySum(b1, q, lo);
    AccSnoc(0, ops, t, 0);
    AccSnoc(0, ops, t, 1);
    WrapId(SignedSum(b0, q, lo, next));
    WrapId(SignedSum(b1, q, lo, next));
  }

  lemma EmptySum(bits: seq<bool>, q: seq<int>, lo: nat)
    requires lo <= |bits| && |bits| == |q|
    ensures SignedSum(bits, q, lo, lo) == 0
  {
  }

  lemma TileForFlags(b0: seq<bool>, b1: seq<bool>, q: seq<int>, at: nat, hi: nat, starts: bool, ends: bool)
    requires hi <= |q| && |b0| == |q| && |b1| == |q|
    ensures var t := TileFor(b0, b1, q, at, hi, starts, ends);
            t.starts == starts && t.ends == ends && t.seed0 == 0 && t.seed1 == 0
  {
  }

  predicate NoBits(b: seq<bool>)
  {
    forall i :: 0 <= i < |b| ==> !b[i]
  }

  /** No tile sets a weight bit of the second row. */
  predicate SecondRowClear(ops: seq<Tile>)
  {
    forall t <- ops :: t.w1 == 0
  }

  lemma ClearTile(ops: seq<Tile>, b0: seq<bool>, b1: seq<bool>, q: seq<int>, at: nat, hi: nat, starts: bool, ends: bool)
    requires hi <= |q| && |b0| == |q| && |b1| == |q| && NoBits(b1) && SecondRowClear(ops)
    ensures SecondRowClear(ops + [TileFor(b0, b1, q, at, hi, starts, ends)])
  {
  }

  /** Append the run of sub-block [lo, hi) to a plan. */
  method AppendRun(plan: seq<Tile>, b0: seq<bool>, b1: seq<bool>, q: seq<int>, lo: nat, hi: nat)
      returns (ops: seq<Tile>)
    requires lo < hi <= |q| && hi <= lo + ACT_BLOCK && |b0| == |q| && |b1| == |q| && Int8s(q)
    requires Bounded(plan) && forall t <- plan :: t.OnWire()
    ensures plan <= ops && |ops| == |plan| + (hi - lo + 1) / 2
    ensures Bounded(ops) && forall t <- ops :: t.OnWire()
    ensures ops[|plan|].starts && ops[|ops| - 1].ends
    ensures AccAfter(0, ops, |ops|, 0) == SignedSum(b0, q, lo, hi)
    ensures AccAfter(0, ops, |ops|, 1) == SignedSum(b1, q, lo, hi)
    ensures NoBits(b1) && SecondRowClear(plan) ==> SecondRowClear(ops)
  {
    hide AccAfter, SignedSum, Bounded, SecondRowClear, NoBits;
    ops := plan;
    var tiles := (hi - lo + COLS - 1) / COLS;
    for t := 0 to tiles
      invariant |ops| == |plan| + t && plan <= ops
      invariant Bounded(ops) && forall o <- ops :: o.OnWire()
      invariant t > 0 ==> ops[|plan|].starts && (ops[|ops| - 1].ends <==> t == tiles)
      invariant t > 0 ==> AccAfter(0, ops, |ops|, 0) == SignedSum(b0, q, lo, Min(lo + 2 * t, hi))
      invariant t > 0 ==> AccAfter(0, ops, |ops|, 1) == SignedSum(b1, q, lo, Min(lo + 2 * t, hi))
      invariant NoBits(b1) && SecondRowClear(plan) ==> SecondRowClear(ops)
    {
      var at := lo + t * COLS;
      var op := TileFor(b0, b1, q, at, hi, t == 0, t == tiles - 1);
      RunStep(ops, b0, b1, q, lo, at, hi, t == tiles - 1);
      BoundedSnoc(ops, op);
      if NoBits(b1) && SecondRowClear(ops) {
        ClearTile(ops, b0, b1, q, at, hi, t == 0, t == tiles - 1);
      }
      ops := ops + [op];
    }
  }

  // ----- the plan of one row pair -----

  /** Fold metadata of one sub-block: its run's tail and the scales to apply. */
  datatype SubBlock = SubBlock(tail: nat, dw0: real, dw1: real, da: real)

  /** The array's two weight rows; row 1 of an odd matmul has no weights. */
  datatype RowPair = RowPair(w0: seq<real>, w1: seq<real>, paired: bool)
  {
    predicate Valid(k: nat) { |w0| == k && |w1| == k }

    function W(row: nat): seq<real> { if row == 0 then w0 else w1 }

    function B0(): seq<bool> { Bits(w0) }

    function B1(): (b: seq<bool>)
      ensures |b| == |w1|
    {
      if paired then Bits(w1) else seq(|w1|, _ => false)
    }

    predicate Has(row: nat) { row == 0 || (row == 1 && paired) }
  }

  predicate InRange(bs: seq<nat>, n: nat)
  {
    forall i :: 0 <= i < |bs| ==> bs[i] < n
  }

  /** What the fold of the given sub-blocks should add up to, on exact integers. */
  function Folded(p: RowPair, q: seq<int>, metas: seq<SubBlock>, blocks: seq<nat>, n: nat, row: nat): real
    requires p.Valid(|q|) && |blocks| == |metas| && n <= |metas|
    requires InRange(blocks, Blocks(|q|))
  {
    if n == 0 then 0.0
    else
      var m := metas[n - 1];
      Folded(p, q, metas, blocks, n - 1, row)
      + Share(if row == 0 then m.dw0 else m.dw1, m.da, BlockSum(p, q, blocks[n - 1], row))
  }

  function BlockSum(p: RowPair, q: seq<int>, b: nat, row: nat): int
    requires p.Valid(|q|) && b < Blocks(|q|)
  {
    BlockBounds(|q|, b);
    SignedSum(Bits(p.W(row)), q, ACT_BLOCK * b, BlockEnd(|q|, b))
  }

  /** Sub-block m's tail is a run tail holding exactly its block's integer sum. */
  predicate TailHolds(p: RowPair, q: seq<int>, ops: seq<Tile>, m: SubBlock, b: nat)
    requires p.Valid(|q|) && b < Blocks(|q|)
  {
    m.tail < |ops| && ops[m.tail].ends && AccAfter(0, ops, m.tail + 1, 0) == BlockSum(p, q, b, 0)
    && (p.paired ==> AccAfter(0, ops, m.tail + 1, 1) == BlockSum(p, q, b, 1))
  }

  lemma TailStable(p: RowPair, q: seq<int>, ops: seq<Tile>, more: seq<Tile>, m: SubBlock, b: nat)
    requires p.Valid(|q|) && b < Blocks(|q|) && TailHolds(p, q, ops, m, b)
    ensures TailHolds(p, q, ops + more, m, b)
  {
    hide AccAfter, BlockSum;
    AccAfterPrefix(0, ops, more, m.tail + 1, 0);
    AccAfterPrefix(0, ops, more, m.tail + 1, 1);
  }

  /** A sub-block's scales are its weight group's and its activation block's. */
  predicate Scaled(p: RowPair, q: seq<int>, scales: seq<real>, m: SubBlock, b: nat)
    requires p.Valid(|q|) && |scales| == Blocks(|q|) && b < Blocks(|q|)
  {
    BlockBounds(|q|, b);
    && m.da == scales[b]
    && m.dw0 == GroupScale(p.w0, ACT_BLOCK * b)
    && (p.paired ==> m.dw1 == GroupScale(p.w1, ACT_BLOCK * b))
  }

  /** A block adds nothing to either row: its activation scale or its weight scales are zero. */
  predicate CountsNothing(p: RowPair, q: seq<int>, scales: seq<real>, b: nat)
    requires p.Valid(|q|) && |scales| == Blocks(|q|) && b < Blocks(|q|)
  {
    BlockBounds(|q|, b);
    scales[b] == 0.0 ||
    (GroupScale(p.w0, ACT_BLOCK * b) == 0.0 && (p.paired ==> GroupScale(p.w1, ACT_BLOCK * b) == 0.0))
  }

  /** The blocks planned among the first n: ascending, and what is left out counts nothing. */
  ghost predicate Covers(p: RowPair, q: seq<int>, scales: seq<real>, bs: seq<nat>, n: nat)
    requires p.Valid(|q|) && |scales| == Blocks(|q|)
  {
    && n <= Blocks(|q|)
    && (forall i :: 0 <= i < |bs| ==> bs[i] < n)
    && (forall i, j :: 0 <= i < j < |bs| ==> bs[i] < bs[j])
    && (forall b :: 0 <= b < n && b !in bs ==> CountsNothing(p, q, scales, b))
  }

  /** The runs stand in the plan in the blocks' order. */
  predicate InPlanOrder(ms: seq<SubBlock>)
  {
    forall i, j :: 0 <= i < j < |ms| ==> ms[i].tail < ms[j].tail
  }

  /** The state of plan construction after the first n activation blocks. */
  ghost predicate Built(p: RowPair, q: seq<int>, scales: seq<real>, ops: seq<Tile>, ms: seq<SubBlock>,
                        bs: seq<nat>, n: nat)
    requires p.Valid(|q|) && |scales| == Blocks(|q|)
  {
    Covers(p, q, scales, bs, n) && |bs| == |ms|
    && Bounded(ops) && (forall t <- ops :: t.OnWire()) && (ops != [] ==> ops[0].starts)
    && (ops == [] <==> ms == []) && |ops| <= 16 * n && InPlanOrder(ms)
    && (forall i :: 0 <= i < |ms| ==>
          TailHolds(p, q, ops, ms[i], bs[i]) && Scaled(p, q, scales, ms[i], bs[i]))
  }

  lemma BuiltSkips(p: RowPair, q: seq<int>, scales: seq<real>, ops: seq<Tile>, ms: seq<SubBlock>,
                   bs: seq<nat>, from: nat, to: nat)
    requires p.Valid(|q|) && |scales| == Blocks(|q|) && Built(p, q, scales, ops, ms, bs, from)
    requires from <= to <= Blocks(|q|)
    requires forall b :: from <= b < to ==> CountsNothing(p, q, scales, b)
    ensures Built(p, q, scales, ops, ms, bs, to)
  {
    hide TailHolds, Bounded, CountsNothing, Scaled, InPlanOrder;
  }

  lemma BuiltAddsBlock(p: RowPair, q: seq<int>, scales: seq<real>, ops: seq<Tile>, ops': seq<Tile>,
                       ms: seq<SubBlock>, bs: seq<nat>, b: nat, m: SubBlock)
    requires p.Valid(|q|) && |scales| == Blocks(|q|) && b < Blocks(|q|)
    requires Built(p, q, scales, ops, ms, bs, b)
    requires ops < ops' && |ops'| <= |ops| + 16 && Bounded(ops') && (forall t <- ops' :: t.OnWire())
             && ops'[|ops|].starts
    requires TailHolds(p, q, ops', m, b) && m.tail == |ops'| - 1 && Scaled(p, q, scales, m, b)
    ensures Built(p, q, scales, ops', ms + [m], bs + [b], b + 1)
  {
    hide Bounded, Scaled, CountsNothing;
    var ms', bs' := ms + [m], bs + [b];
    CoversMore(p, q, scales, bs, b);
    assert forall i :: 0 <= i < |ms| ==> ms[i].tail < |ops|;
    hide TailHolds, Covers;
    forall i | 0 <= i < |ms'|
      ensures bs'[i] < Blocks(|q|) && TailHolds(p, q, ops', ms'[i], bs'[i])
    {
      if i < |ms| {
        CoversBelow(p, q, scales, bs, b, i);
        TailStable(p, q, ops, ops'[|ops|..], ms[i], bs[i]);
        assert ops + ops'[|ops|..] == ops';
      }
    }
  }

  lemma CoversBelow(p: RowPair, q: seq<int>, scales: seq<real>, bs: seq<nat>, n: nat, i: nat)
    requires p.Valid(|q|) && |scales| == Blocks(|q|) && Covers(p, q, scales, bs, n) && i < |bs|
    ensures bs[i] < n <= Blocks(|q|)
  {
    hide CountsNothing;
  }

  lemma CoversMore(p: RowPair, q: seq<int>, scales: seq<real>, bs: seq<nat>, b: nat)
    requires p.Valid(|q|) && |scales| == Blocks(|q|) && b < Blocks(|q|) && Covers(p, q, scales, bs, b)
    ensures Covers(p, q, scales, bs + [b], b + 1)
  {
    hide CountsNothing;
    forall c | 0 <= c < b + 1 && c !in bs + [b] ensures CountsNothing(p, q, scales, c) {
      assert b in bs + [b];
      assert c !in bs;
    }
  }

  method BuildPlan(p: RowPair, q: seq<int>, scales: seq<real>)
      returns (ops: seq<Tile>, metas: seq<SubBlock>, ghost blocks: seq<nat>)
    requires p.Valid(|q|) && |scales| == Blocks(|q|) && Int8s(q)
    ensures Built(p, q, scales, ops, metas, blocks, Blocks(|q|))
    ensures !p.paired ==> SecondRowClear(ops)
  {
    hide Built, GroupScale;
    ops, metas, blocks := [], [], [];
    EmptyBuilt(p, q, scales);
    var k := |q|;
    var q1 := 0;
    ghost var g := 0;
    while q1 < k
      invariant q1 == WEIGHT_GROUP * g
      invariant Built(p, q, scales, ops, metas, blocks, Min(4 * g, Blocks(k)))
      invariant !p.paired ==> SecondRowClear(ops)
      decreases k - q1
    {
      var dw0 := GroupScale(p.w0, q1);
      var dw1 := if p.paired then GroupScale(p.w1, q1) else 0.0;
      if dw0 == 0.0 && dw1 == 0.0 {
        SkippedGroup(p, q, scales, ops, metas, blocks, g);
      } else {
        ops, metas, blocks := AppendGroup(p, q, scales, ops, metas, blocks, q1, g, dw0, dw1);
      }
      q1 := q1 + WEIGHT_GROUP;
      g := g + 1;
    }
    assert 4 * g >= Blocks(k);
  }

  lemma EmptyBuilt(p: RowPair, q: seq<int>, scales: seq<real>)
    requires p.Valid(|q|) && |scales| == Blocks(|q|)
    ensures Built(p, q, scales, [], [], [], 0)
  {
  }

  /** A group's blocks share its scale, so a zero group changes nothing. */
  lemma SkippedGroup(p: RowPair, q: seq<int>, scales: seq<real>, ops: seq<Tile>, ms: seq<SubBlock>,
                     bs: seq<nat>, g: nat)
    requires p.Valid(|q|) && |scales| == Blocks(|q|) && WEIGHT_GROUP * g < |q|
    requires Built(p, q, scales, ops, ms, bs, Min(4 * g, Blocks(|q|)))
    requires GroupScale(p.w0, WEIGHT_GROUP * g) == 0.0 && (p.paired ==> GroupScale(p.w1, WEIGHT_GROUP * g) == 0.0)
    ensures Built(p, q, scales, ops, ms, bs, Min(4 * g + 4, Blocks(|q|)))
  {
    hide Built, GroupScale;
    var from, to := 4 * g, Min(4 * g + 4, Blocks(|q|));
    forall b | from <= b < to ensures CountsNothing(p, q, scales, b) {
      BlockBounds(|q|, b);
      SameScale(p.w0, g, ACT_BLOCK * b);
      SameScale(p.w1, g, ACT_BLOCK * b);
    }
    BuiltSkips(p, q, scales, ops, ms, bs, from, to);
  }

  lemma SameScale(w: seq<real>, g: nat, at: nat)
    requires WEIGHT_GROUP * g <= at < WEIGHT_GROUP * g + WEIGHT_GROUP && at < |w|
    ensures GroupScale(w, at) == GroupScale(w, WEIGHT_GROUP * g)
  {
    assert at / WEIGHT_GROUP == g == WEIGHT_GROUP * g / WEIGHT_GROUP;
  }

  method AppendGroup(p: RowPair, q: seq<int>, scales: seq<real>, ops0: seq<Tile>, metas0: seq<SubBlock>,
                     ghost blocks0: seq<nat>, q1: nat, ghost g: nat, dw0: real, dw1: real)
      returns (ops: seq<Tile>, metas: seq<SubBlock>, ghost blocks: seq<nat>)
    requires p.Valid(|q|) && |scales| == Blocks(|q|) && Int8s(q) && q1 < |q| && q1 == WEIGHT_GROUP * g
    requires Built(p, q, scales, ops0, metas0, blocks0, Min(4 * g, Blocks(|q|)))
    requires dw0 == GroupScale(p.w0, q1) && (p.paired ==> dw1 == GroupScale(p.w1, q1))
    ensures Built(p, q, scales, ops, metas, blocks, Min(4 * g + 4, Blocks(|q|)))
    ensures !p.paired && SecondRowClear(ops0) ==> SecondRowClear(ops)
  {
    hide Built, GroupScale;
    ops, metas, blocks := ops0, metas0, blocks0;
    var k := |q|;
    var q1End := Min(q1 + WEIGHT_GROUP, k);
    var q8 := q1;
    ghost var b := 4 * g;
    while q8 < q1End
      invariant q8 == ACT_BLOCK * b && 4 * g <= b <= 4 * g + 4
      invariant Built(p, q, scales, ops, metas, blocks, Min(b, Blocks(k)))
      invariant !p.paired && SecondRowClear(ops0) ==> SecondRowClear(ops)
      decreases q1End - q8
    {
      var block := q8 / ACT_BLOCK;
      assert block == b && b < Blocks(k);
      var da := scales[block];
      if da == 0.0 {
        BuiltSkips(p, q, scales, ops, metas, blocks, block, block + 1);
      } else {
        SameScale(p.w0, g, q8);
        SameScale(p.w1, g, q8);
        ops, metas, blocks := AppendBlock(p, q, scales, ops, metas, blocks, block, dw0, dw1);
      }
      q8 := q8 + ACT_BLOCK;
      b := b + 1;
    }
    assert b >= Min(4 * g + 4, Blocks(k));
  }

  method AppendBlock(p: RowPair, q: seq<int>, scales: seq<real>, ops0: seq<Tile>, metas0: seq<SubBlock>,
                     ghost blocks0: seq<nat>, b: nat, dw0: real, dw1: real)
      returns (ops: seq<Tile>, metas: seq<SubBlock>, ghost blocks: seq<nat>)
    requires p.Valid(|q|) && |scales| == Blocks(|q|) && Int8s(q) && b < Blocks(|q|) && ACT_BLOCK * b < |q|
    requires Built(p, q, scales, ops0, metas0, blocks0, b)
    requires dw0 == GroupScale(p.w0, ACT_BLOCK * b) && (p.paired ==> dw1 == GroupScale(p.w1, ACT_BLOCK * b))
    ensures Built(p, q, scales, ops, metas, blocks, b + 1)
    ensures !p.paired && SecondRowClear(ops0) ==> SecondRowClear(ops)
  {
    hide GroupScale, Folded, Reference, AccAfter, Bounded, SignedSum;
    var lo, hi := ACT_BLOCK * b, BlockEnd(|q|, b);
    ops := AppendRun(ops0, p.B0(), p.B1(), q, lo, hi);
    var m := SubBlock(|ops0| + (hi - lo + COLS - 1) / COLS - 1, dw0, dw1, scales[b]);
    assert m.tail == |ops| - 1;
    metas, blocks := metas0 + [m], blocks0 + [b];
    assert TailHolds(p, q, ops, m, b) && Scaled(p, q, scales, m, b);
    BuiltAddsBlock(p, q, scales, ops0, ops, metas0, blocks0, b, m);
  }

  // ----- one row pair, end to end -----

  /** How each exchange ends, by its number. */
  type Exchanges = nat -> Exchange

  ghost predicate AllGood(io: Exchanges, from: nat, to: nat)
  {
    forall k :: from <= k < to ==> io(k).Good()
  }

  /**
   One row pair through plan, wire, firmware, chip and reply. On a live transport in step it
   fails exactly when its exchange does, and otherwise gives both reference sums and stays
   in step.
   */
  method RunCellPair(tr: UsbTransport, p: RowPair, q: seq<int>, scales: seq<real>, io: Exchanges, first: nat)
      returns (ok: bool, v0: real, v1: real, next: nat)
    requires tr.Valid() && p.Valid(|q|) && |scales| == Blocks(|q|) && Int8s(q)
    requires |q| < 0x1_0000_0000   // the frame header counts tiles in 32 bits
    modifies tr, tr.conn, tr.conn.streamer.port
    ensures tr.Valid() && (tr.conn.streamer.port.s.error ==> old(tr.conn.streamer.port.s.error))
    ensures first <= next <= first + 1 && (tr.dead <==> old(tr.dead) || !ok)
    ensures !old(tr.dead) && old(tr.conn.InStep()) ==> (ok <==> AllGood(io, first, next))
    ensures ok && old(tr.conn.InStep()) ==> tr.conn.InStep() && v0 == Reference(p.w0, q, scales, Blocks(|q|))
    ensures ok && old(tr.conn.InStep()) && p.paired ==> v1 == Reference(p.w1, q, scales, Blocks(|q|))
  {
    hide TailHolds, Bounded, AccAfter, Reference, Folded, SlotsHold, PlanReply, PlanCycles, TailCount,
      GroupScale, KeepsStep, AfterExchange, AfterWrite, Covers, Scaled, InPlanOrder, Frame, OwnSlots, AllSumsHeld;
    var ops, metas;
    ghost var blocks;
    ops, metas, blocks := BuildPlan(p, q, scales);
    FoldsToReference(p, q, scales, ops, metas, blocks);
    if ops == [] {
      EmptyFold(p, q);
      return true, 0.0, 0.0, first;
    }
    ghost var s := tr.conn.streamer.port.s;
    var psums;
    assert forall t <- ops :: t.Valid();
    HasTail(p, q, ops, metas[0], blocks[0]);
    next := if tr.dead then first else first + 1;
    ok, psums := tr.Execute(ops, io(first));
    if !ok {
      return false, 0.0, 0.0, next;
    }
    OwnSums(p, q, scales, s, ops, psums, metas, blocks);
    v0, v1 := Fold(p, q, metas, psums, blocks);
  }

  /** A plan with a sub-block asks for a reply. */
  lemma HasTail(p: RowPair, q: seq<int>, ops: seq<Tile>, m: SubBlock, b: nat)
    requires p.Valid(|q|) && b < Blocks(|q|) && TailHolds(p, q, ops, m, b)
    ensures ReplyBytes(ops) > 0
  {
    hide AccAfter, BlockSum;
    assert TailCount(ops, m.tail + 1) >= 1;
    TailCountMonotone(ops, m.tail + 1, |ops|);
  }

  /** A block that counts nothing has a zero term. */
  lemma NothingCounted(p: RowPair, q: seq<int>, scales: seq<real>, b: nat, row: nat)
    requires p.Valid(|q|) && |scales| == Blocks(|q|) && b < Blocks(|q|) && p.Has(row)
    requires CountsNothing(p, q, scales, b)
    ensures Term(p.W(row), q, scales, b) == 0.0
  {
    hide GroupScale, SignedSum, Share;
    BlockBounds(|q|, b);
    ZeroTerm(GroupScale(p.W(row), ACT_BLOCK * b), scales[b],
             SignedSum(Bits(p.W(row)), q, ACT_BLOCK * b, BlockEnd(|q|, b)));
  }

  /** A planned block's share is its term. */
  lemma ShareIsTerm(p: RowPair, q: seq<int>, scales: seq<real>, m: SubBlock, b: nat, row: nat)
    requires p.Valid(|q|) && |scales| == Blocks(|q|) && b < Blocks(|q|) && p.Has(row) && Scaled(p, q, scales, m, b)
    ensures Share(if row == 0 then m.dw0 else m.dw1, m.da, BlockSum(p, q, b, row)) == Term(p.W(row), q, scales, b)
  {
    hide GroupScale, SignedSum, Share;
  }

  /** The first k planned blocks are those below n. */
  predicate Below(bs: seq<nat>, k: nat, n: nat)
  {
    k <= |bs| && (forall i :: 0 <= i < k ==> bs[i] < n) && (forall i :: k <= i < |bs| ==> bs[i] >= n)
  }

  /** Folding the planned blocks below n, in plan order, is the reference over all blocks below n. */
  lemma {:induction false} FoldsTo(p: RowPair, q: seq<int>, scales: seq<real>, ms: seq<SubBlock>, bs: seq<nat>,
                                   k: nat, n: nat, row: nat)
    requires p.Valid(|q|) && |scales| == Blocks(|q|) && |bs| == |ms| && InRange(bs, Blocks(|q|))
    requires Covers(p, q, scales, bs, Blocks(|q|)) && n <= Blocks(|q|) && Below(bs, k, n) && p.Has(row)
    requires forall i :: 0 <= i < |ms| ==> Scaled(p, q, scales, ms[i], bs[i])
    ensures Folded(p, q, ms, bs, k, row) == Reference(p.W(row), q, scales, n)
    decreases n
  {
    hide Scaled, CountsNothing, Share, BlockSum, Term, GroupScale;
    if n == 0 {
      assert k == 0;
    } else if k > 0 && bs[k - 1] == n - 1 {
      FoldsTo(p, q, scales, ms, bs, k - 1, n - 1, row);
      ShareIsTerm(p, q, scales, ms[k - 1], n - 1, row);
    } else {
      assert n - 1 !in bs;
      FoldsTo(p, q, scales, ms, bs, k, n - 1, row);
      NothingCounted(p, q, scales, n - 1, row);
    }
  }

  /** What BuildPlan returns folds to the reference: nothing planned twice, nothing that counts left out. */
  lemma FoldsToReference(p: RowPair, q: seq<int>, scales: seq<real>, ops: seq<Tile>, ms: seq<SubBlock>, bs: seq<nat>)
    requires p.Valid(|q|) && |scales| == Blocks(|q|) && Built(p, q, scales, ops, ms, bs, Blocks(|q|))
    ensures InRange(bs, Blocks(|q|))
    ensures Folded(p, q, ms, bs, |ms|, 0) == Reference(p.w0, q, scales, Blocks(|q|))
    ensures p.paired ==> Folded(p, q, ms, bs, |ms|, 1) == Reference(p.w1, q, scales, Blocks(|q|))
  {
    hide TailHolds, Bounded, Reference, Folded, Scaled, CountsNothing;
    FoldsTo(p, q, scales, ms, bs, |ms|, Blocks(|q|), 0);
    assert p.Has(0) && p.W(0) == p.w0;
    if p.paired {
      FoldsTo(p, q, scales, ms, bs, |ms|, Blocks(|q|), 1);
      assert p.Has(1) && p.W(1) == p.w1;
    }
  }

  lemma EmptyFold(p: RowPair, q: seq<int>)
    requires p.Valid(|q|)
    ensures Folded(p, q, [], [], 0, 0) == 0.0 && Folded(p, q, [], [], 0, 1) == 0.0
  {
  }

  /** The outputs at a sub-block's tail are the signed sums of its block. */
  predicate SumsHeld(p: RowPair, q: seq<int>, psums: seq<int>, m: SubBlock, b: nat)
    requires p.Valid(|q|) && b < Blocks(|q|)
  {
    2 * m.tail + 1 < |psums| && psums[2 * m.tail] == BlockSum(p, q, b, 0)
    && (p.paired ==> psums[2 * m.tail + 1] == BlockSum(p, q, b, 1))
  }

  /** The tail slots Execute filled hold the exact integer sums of their blocks. */
  lemma TailPsums(p: RowPair, q: seq<int>, s: State, ops: seq<Tile>, psums: seq<int>, m: SubBlock, b: nat)
    requires p.Valid(|q|) && b < Blocks(|q|) && TailHolds(p, q, ops, m, b)
    requires ops != [] && ops[0].starts && forall t <- ops :: t.OnWire()
    requires SlotsHold(PlanReply(s, WirePlan(ops)), ops, psums, m.tail)
    ensures SumsHeld(p, q, psums, m, b)
  {
    hide AccAfter, BlockSum, PlanReply, Slot, WirePlan;
    ExecuteAnswers(s, ops, m.tail, 0);
    ExecuteAnswers(s, ops, m.tail, 1);
  }

  /** The fold loop; on outputs that hold their blocks' sums it gives the folded reference sums. */
  method Fold(p: RowPair, q: seq<int>, metas: seq<SubBlock>, psums: seq<int>, ghost blocks: seq<nat>)
      returns (acc0: real, acc1: real)
    requires p.Valid(|q|) && |blocks| == |metas| && InRange(blocks, Blocks(|q|))
    requires forall i :: 0 <= i < |metas| ==> 2 * metas[i].tail + 1 < |psums|
    ensures AllSumsHeld(p, q, psums, metas, blocks) ==> acc0 == Folded(p, q, metas, blocks, |metas|, 0)
    ensures AllSumsHeld(p, q, psums, metas, blocks) && p.paired ==> acc1 == Folded(p, q, metas, blocks, |metas|, 1)
  {
    hide BlockSum, Share;
    ghost var own := AllSumsHeld(p, q, psums, metas, blocks);
    acc0, acc1 := 0.0, 0.0;
    for i := 0 to |metas|
      invariant own ==> acc0 == Folded(p, q, metas, blocks, i, 0)
      invariant own && p.paired ==> acc1 == Folded(p, q, metas, blocks, i, 1)
    {
      var m := metas[i];
      acc0 := acc0 + Share(m.dw0, m.da, psums[2 * m.tail]);
      if p.paired {
        acc1 := acc1 + Share(m.dw1, m.da, psums[2 * m.tail + 1]);
      }
    }
  }

  predicate AllSumsHeld(p: RowPair, q: seq<int>, psums: seq<int>, metas: seq<SubBlock>, blocks: seq<nat>)
    requires p.Valid(|q|) && |blocks| == |metas| && InRange(blocks, Blocks(|q|))
  {
    forall i :: 0 <= i < |metas| ==> SumsHeld(p, q, psums, metas[i], blocks[i])
  }

  /** The outputs of the plan's own reply hold every planned block's sums. */
  lemma OwnSums(p: RowPair, q: seq<int>, scales: seq<real>, s: State, ops: seq<Tile>, psums: seq<int>,
                ms: seq<SubBlock>, bs: seq<nat>)
    requires p.Valid(|q|) && |scales| == Blocks(|q|) && Built(p, q, scales, ops, ms, bs, Blocks(|q|)) && ops != []
    ensures InRange(bs, Blocks(|q|)) && |bs| == |ms|
    ensures forall i :: 0 <= i < |ms| ==> ms[i].tail < |ops|
    ensures OwnSlots(s, ops, psums) ==> AllSumsHeld(p, q, psums, ms, bs)
  {
    hide SlotsHold, PlanReply, AccAfter, WirePlan, BlockSum, SumsHeld;
    if OwnSlots(s, ops, psums) {
      forall i | 0 <= i < |ms| ensures SumsHeld(p, q, psums, ms[i], bs[i]) {
        TailPsums(p, q, s, ops, psums, ms[i], bs[i]);
      }
    }
  }

  // ----- all output cells -----

  datatype Cell = Cell(row: nat, col: nat, b2: nat, b3: nat)

  datatype Job = Job(k: nat, rows: nat, cols: nat, n2: nat, n3: nat, share2: nat, share3: nat)
  {
    predicate Valid() { share2 > 0 && share3 > 0 && k < 0x1_0000_0000 }

    predicate Has(c: Cell) { c.row < rows && c.col < cols && c.b2 < n2 && c.b3 < n3 }
  }

  /** src0 rows by (row, i2, i3) and src1 columns by (col, b2, b3). */
  datatype Operands = Operands(w: (nat, nat, nat) -> seq<real>, x: (nat, nat, nat) -> seq<Float>)
  {
    ghost predicate Valid(k: nat)
    {
      (forall r, i, j :: |w(r, i, j)| == k) && (forall c, i, j :: |x(c, i, j)| == k)
    }
  }

  /** The reference value of one output cell, with the broadcast of src0 over b2 and b3. */
  ghost function CellValue(j: Job, o: Operands, fp16: real -> real, c: Cell): real
    requires j.Valid() && o.Valid(j.k)
  {
    var a := o.x(c.col, c.b2, c.b3);
    Reference(o.w(c.row, c.b2 / j.share2, c.b3 / j.share3), Quants(a), Scales(a, fp16), Blocks(j.k))
  }

  /** A cell's value means the dot product of its row, found by the broadcast of src0, with its column. */
  ghost predicate CellMeansDot(j: Job, o: Operands, fp16: real -> real, c: Cell, v: real)
    requires j.Valid() && o.Valid(j.k)
  {
    SignsMeanDot(o.w(c.row, c.b2 / j.share2, c.b3 / j.share3), o.x(c.col, c.b2, c.b3), fp16, v)
  }

  /** Lexicographic progress of the loop nest: c was visited before (b3, b2, col, row). */
  predicate Before(c: Cell, b3: nat, b2: nat, col: nat, row: nat)
  {
    c.b3 < b3 || (c.b3 == b3 && (c.b2 < b2 || (c.b2 == b2 && (c.col < col || (c.col == col && c.row < row)))))
  }

  /** Just the cells visited so far have been written. */
  ghost predicate Placed(j: Job, dst: map<Cell, real>, b3: nat, b2: nat, col: nat, row: nat)
  {
    forall c :: c in dst <==> j.Has(c) && Before(c, b3, b2, col, row)
  }

  /** Every cell written holds its reference value. */
  ghost predicate Right(j: Job, o: Operands, fp16: real -> real, dst: map<Cell, real>)
    requires j.Valid() && o.Valid(j.k)
  {
    forall c :: c in dst ==> dst[c] == CellValue(j, o, fp16, c)
  }

  /** The reference values of a cell and, in a pair, of the one below it. */
  ghost predicate PairRight(j: Job, o: Operands, fp16: real -> real, c: Cell, v0: real, v1: real, paired: bool)
    requires j.Valid() && o.Valid(j.k)
  {
    v0 == CellValue(j, o, fp16, c) && (paired ==> v1 == CellValue(j, o, fp16, c.(row := c.row + 1)))
  }

  /** Every cell written means its dot product. */
  ghost predicate AllMeanDots(j: Job, o: Operands, fp16: real -> real, dst: map<Cell, real>)
    requires j.Valid() && o.Valid(j.k)
  {
    forall c :: c in dst ==> CellMeansDot(j, o, fp16, c, dst[c])
  }

  lemma RightMeansDots(j: Job, o: Operands, fp16: real -> real, dst: map<Cell, real>)
    requires j.Valid() && o.Valid(j.k) && Right(j, o, fp16, dst)
    ensures AllMeanDots(j, o, fp16, dst)
  {
    hide SignsMeanDot, Reference, Quants, Scales, Blocks;
    forall c | c in dst ensures CellMeansDot(j, o, fp16, c, dst[c]) {
      ReferenceMeansDot(o.w(c.row, c.b2 / j.share2, c.b3 / j.share3), o.x(c.col, c.b2, c.b3), fp16);
    }
  }

  /** The only way a cell is written: its precondition says it was not written before. */
  function Store(dst: map<Cell, real>, c: Cell, v: real): map<Cell, real>
    requires c !in dst
  {
    dst[c := v]
  }

  method RunColumn(tr: UsbTransport, j: Job, o: Operands, fp16: real -> real, col: nat, b2: nat, b3: nat,
                   io: Exchanges, first: nat, dst0: map<Cell, real>) returns (ok: bool, dst: map<Cell, real>, next: nat)
    requires tr.Valid() && j.Valid() && o.Valid(j.k) && col < j.cols && b2 < j.n2 && b3 < j.n3
    requires Placed(j, dst0, b3, b2, col, 0)
    modifies tr, tr.conn, tr.conn.streamer.port
    ensures tr.Valid() && (tr.conn.streamer.port.s.error ==> old(tr.conn.streamer.port.s.error))
    ensures first <= next && (tr.dead <==> old(tr.dead) || !ok)
    ensures !old(tr.dead) && old(tr.conn.InStep()) ==> (ok <==> AllGood(io, first, next))
    ensures ok ==> Placed(j, dst, b3, b2, col + 1, 0)
    ensures ok && old(tr.conn.InStep()) && Right(j, o, fp16, dst0) ==> tr.conn.InStep() && Right(j, o, fp16, dst)
    ensures ok && old(tr.conn.InStep()) ==> tr.conn.InStep()
  {
    hide Reference, CellValue, Placed, Right, Quant, Scale, ChipPort.Valid, Wire.InStep, Turn, UsbTransport.Valid;
    dst, next := dst0, first;
    var acts := o.x(col, b2, b3);
    var q, scales := QuantizeActs(acts, fp16);
    assert q == Quants(acts) && scales == Scales(acts, fp16);
    ghost var inStep := tr.conn.InStep();
    var row := 0;
    while row < j.rows
      invariant tr.Valid() && (tr.conn.streamer.port.s.error ==> old(tr.conn.streamer.port.s.error))
      invariant first <= next && (tr.dead <==> old(tr.dead))
      invariant inStep ==> tr.conn.InStep()
      invariant !tr.dead && inStep ==> AllGood(io, first, next)
      invariant Placed(j, dst, b3, b2, col, row)
      invariant inStep && Right(j, o, fp16, dst0) ==> Right(j, o, fp16, dst)
      decreases j.rows - row
    {
      var paired := row + 1 < j.rows;
      var i2, i3 := b2 / j.share2, b3 / j.share3;
      var w0 := o.w(row, i2, i3);
      var w1 := if paired then o.w(row + 1, i2, i3) else w0;
      var v0, v1;
      ok, v0, v1, next := RunCellPair(tr, RowPair(w0, w1, paired), q, scales, io, next);
      if !ok {
        return;
      }
      PairCells(j, o, fp16, row, col, b2, b3, q, scales);
      var c := Cell(row, col, b2, b3);
      PairStored(j, o, fp16, dst, c, v0, v1, paired);
      dst := Store(dst, c, v0);
      if paired {
        dst := Store(dst, c.(row := row + 1), v1);
      }
      row := row + 2;
    }
    PlacedColumn(j, dst, b3, b2, col, row);
    ok := true;
  }

  lemma PlacedCell(j: Job, dst: map<Cell, real>, c: Cell, v: real)
    requires j.Has(c) && Placed(j, dst, c.b3, c.b2, c.col, c.row)
    ensures c !in dst && Placed(j, Store(dst, c, v), c.b3, c.b2, c.col, c.row + 1)
  {
  }

  lemma PlacedPast(j: Job, dst: map<Cell, real>, c: Cell)
    requires c.row >= j.rows && Placed(j, dst, c.b3, c.b2, c.col, c.row)
    ensures Placed(j, dst, c.b3, c.b2, c.col, c.row + 1)
  {
  }

  lemma PlacedColumn(j: Job, dst: map<Cell, real>, b3: nat, b2: nat, col: nat, row: nat)
    requires row >= j.rows && Placed(j, dst, b3, b2, col, row)
    ensures Placed(j, dst, b3, b2, col + 1, 0)
  {
  }

  /** Writing a pair's reference values keeps every cell right. */
  lemma RightPair(j: Job, o: Operands, fp16: real -> real, dst: map<Cell, real>, c: Cell, v0: real, v1: real,
                  paired: bool)
    requires j.Valid() && o.Valid(j.k) && Right(j, o, fp16, dst) && PairRight(j, o, fp16, c, v0, v1, paired)
    ensures Right(j, o, fp16, dst[c := v0])
    ensures paired ==> Right(j, o, fp16, dst[c := v0][c.(row := c.row + 1) := v1])
  {
    hide CellValue;
  }

  /** Storing a pair fills the next two places of the column, and keeps every cell right if the pair is. */
  lemma PairStored(j: Job, o: Operands, fp16: real -> real, dst: map<Cell, real>, c: Cell, v0: real, v1: real,
                   paired: bool)
    requires j.Valid() && o.Valid(j.k) && j.Has(c) && Placed(j, dst, c.b3, c.b2, c.col, c.row)
    requires paired <==> c.row + 1 < j.rows
    ensures c !in dst && c.(row := c.row + 1) !in Store(dst, c, v0)
    ensures var one := Store(dst, c, v0);
      var both := if paired then Store(one, c.(row := c.row + 1), v1) else one;
      && Placed(j, both, c.b3, c.b2, c.col, c.row + 2)
      && (Right(j, o, fp16, dst) && PairRight(j, o, fp16, c, v0, v1, paired) ==> Right(j, o, fp16, both))
  {
    hide CellValue;
    PlacedCell(j, dst, c, v0);
    var one := Store(dst, c, v0);
    if paired {
      PlacedCell(j, one, c.(row := c.row + 1), v1);
    } else {
      PlacedPast(j, one, c.(row := c.row + 1));
    }
    if Right(j, o, fp16, dst) && PairRight(j, o, fp16, c, v0, v1, paired) {
      RightPair(j, o, fp16, dst, c, v0, v1, paired);
    }
  }

  lemma PairCells(j: Job, o: Operands, fp16: real -> real, row: nat, col: nat, b2: nat, b3: nat,
                  q: seq<int>, scales: seq<real>)
    requires j.Valid() && o.Valid(j.k)
    requires q == Quants(o.x(col, b2, b3)) && scales == Scales(o.x(col, b2, b3), fp16)
    ensures CellValue(j, o, fp16, Cell(row, col, b2, b3))
            == Reference(o.w(row, b2 / j.share2, b3 / j.share3), q, scales, Blocks(j.k))
    ensures CellValue(j, o, fp16, Cell(row + 1, col, b2, b3))
            == Reference(o.w(row + 1, b2 / j.share2, b3 / j.share3), q, scales, Blocks(j.k))
  {
    hide Reference;
  }

  /** All columns of one batch plane. */
  method RunPlane(tr: UsbTransport, j: Job, o: Operands, fp16: real -> real, b2: nat, b3: nat,
                  io: Exchanges, first: nat, dst0: map<Cell, real>) returns (ok: bool, dst: map<Cell, real>, next: nat)
    requires tr.Valid() && j.Valid() && o.Valid(j.k) && b2 < j.n2 && b3 < j.n3 && j.rows > 0
    requires Placed(j, dst0, b3, b2, 0, 0)
    modifies tr, tr.conn, tr.conn.streamer.port
    ensures tr.Valid() && (tr.conn.streamer.port.s.error ==> old(tr.conn.streamer.port.s.error))
    ensures first <= next && (tr.dead <==> old(tr.dead) || !ok)
    ensures !old(tr.dead) && old(tr.conn.InStep()) ==> (ok <==> AllGood(io, first, next))
    ensures ok ==> Placed(j, dst, b3, b2 + 1, 0, 0)
    ensures ok && old(tr.conn.InStep()) && Right(j, o, fp16, dst0) ==> Right(j, o, fp16, dst)
    ensures ok && old(tr.conn.InStep()) ==> tr.conn.InStep()
  {
    hide CellValue, Placed, Right, Wire.InStep, Turn, UsbTransport.Valid;
    dst, next := dst0, first;
    ghost var inStep := tr.conn.InStep();
    for col := 0 to j.cols
      invariant tr.Valid() && (tr.conn.streamer.port.s.error ==> old(tr.conn.streamer.port.s.error))
      invariant first <= next && (tr.dead <==> old(tr.dead))
      invariant inStep ==> tr.conn.InStep()
      invariant !tr.dead && inStep ==> AllGood(io, first, next)
      invariant inStep && Right(j, o, fp16, dst0) ==> Right(j, o, fp16, dst)
      invariant Placed(j, dst, b3, b2, col, 0)
    {
      ok, dst, next := RunColumn(tr, j, o, fp16, col, b2, b3, io, next, dst);
      if !ok {
        return;
      }
    }
    PlacedPlane(j, dst, b3, b2);
    ok := true;
  }

  lemma PlacedPlane(j: Job, dst: map<Cell, real>, b3: nat, b2: nat)
    requires Placed(j, dst, b3, b2, j.cols, 0)
    ensures Placed(j, dst, b3, b2 + 1, 0, 0)
  {
  }

  /** All planes of one outer batch. */
  method RunPlanes(tr: UsbTransport, j: Job, o: Operands, fp16: real -> real, b3: nat,
                   io: Exchanges, first: nat, dst0: map<Cell, real>) returns (ok: bool, dst: map<Cell, real>, next: nat)
    requires tr.Valid() && j.Valid() && o.Valid(j.k) && b3 < j.n3 && j.rows > 0
    requires Placed(j, dst0, b3, 0, 0, 0)
    modifies tr, tr.conn, tr.conn.streamer.port
    ensures tr.Valid() && (tr.conn.streamer.port.s.error ==> old(tr.conn.streamer.port.s.error))
    ensures first <= next && (tr.dead <==> old(tr.dead) || !ok)
    ensures !old(tr.dead) && old(tr.conn.InStep()) ==> (ok <==> AllGood(io, first, next))
    ensures ok ==> Placed(j, dst, b3 + 1, 0, 0, 0)
    ensures ok && old(tr.conn.InStep()) && Right(j, o, fp16, dst0) ==> Right(j, o, fp16, dst)
    ensures ok && old(tr.conn.InStep()) ==> tr.conn.InStep()
  {
    hide CellValue, Placed, Right, Wire.InStep, Turn, UsbTransport.Valid;
    dst, next := dst0, first;
    ghost var inStep := tr.conn.InStep();
    for b2 := 0 to j.n2
      invariant tr.Valid() && (tr.conn.streamer.port.s.error ==> old(tr.conn.streamer.port.s.error))
      invariant first <= next && (tr.dead <==> old(tr.dead))
      invariant inStep ==> tr.conn.InStep()
      invariant !tr.dead && inStep ==> AllGood(io, first, next)
      invariant inStep && Right(j, o, fp16, dst0) ==> Right(j, o, fp16, dst)
      invariant Placed(j, dst, b3, b2, 0, 0)
    {
      ok, dst, next := RunPlane(tr, j, o, fp16, b2, b3, io, next, dst);
      if !ok {
        return;
      }
    }
    PlacedPlanes(j, dst, b3);
    ok := true;
  }

  lemma PlacedPlanes(j: Job, dst: map<Cell, real>, b3: nat)
    requires Placed(j, dst, b3, j.n2, 0, 0)
    ensures Placed(j, dst, b3 + 1, 0, 0, 0)
  {
  }

  lemma NothingPlaced(j: Job, o: Operands, fp16: real -> real)
    requires j.Valid() && o.Valid(j.k)
    ensures Placed(j, map[], 0, 0, 0, 0) && Right(j, o, fp16, map[])
  {
  }

  lemma AllPlaced(j: Job, dst: map<Cell, real>)
    requires Placed(j, dst, j.n3, 0, 0, 0)
    ensures forall c :: c in dst <==> j.Has(c)
  {
  }

  /** The whole loop nest. */
  method RunCells(tr: UsbTransport, j: Job, o: Operands, fp16: real -> real, io: Exchanges, first: nat)
      returns (ok: bool, dst: map<Cell, real>, next: nat)
    requires tr.Valid() && j.Valid() && o.Valid(j.k) && j.rows > 0
    modifies tr, tr.conn, tr.conn.streamer.port
    ensures tr.Valid() && (tr.conn.streamer.port.s.error ==> old(tr.conn.streamer.port.s.error))
    ensures first <= next && (tr.dead <==> old(tr.dead) || !ok)
    ensures !old(tr.dead) && old(tr.conn.InStep()) ==> (ok <==> AllGood(io, first, next))
    ensures ok ==> forall c :: c in dst <==> j.Has(c)
    ensures ok && old(tr.conn.InStep()) ==> tr.conn.InStep() && Right(j, o, fp16, dst)
  {
    hide CellValue, Placed, Right, Wire.InStep, Turn, UsbTransport.Valid;
    dst, next := map[], first;
    ghost var inStep := tr.conn.InStep();
    NothingPlaced(j, o, fp16);
    for b3 := 0 to j.n3
      invariant tr.Valid() && (tr.conn.streamer.port.s.error ==> old(tr.conn.streamer.port.s.error))
      invariant first <= next && (tr.dead <==> old(tr.dead))
      invariant inStep ==> tr.conn.InStep() && Right(j, o, fp16, dst)
      invariant !tr.dead && inStep ==> AllGood(io, first, next)
      invariant Placed(j, dst, b3, 0, 0, 0)
    {
      ok, dst, next := RunPlanes(tr, j, o, fp16, b3, io, next, dst);
      if !ok {
        return;
      }
    }
    AllPlaced(j, dst);
    ok := true;
  }

  lemma NoCells(j: Job, o: Operands, fp16: real -> real)
    requires j.Valid() && o.Valid(j.k)
    ensures Right(j, o, fp16, map[]) && AllMeanDots(j, o, fp16, map[])
  {
  }

  /**
   Every cell of the job, each written once. On a live transport in step whose chip has no
   error latched, the call fails exactly when one of its exchanges does, and otherwise
   every cell equals its reference.
   */
  method RunMatmul(tr: UsbTransport, j: Job, o: Operands, fp16: real -> real, io: Exchanges, first: nat)
      returns (ok: bool, dst: map<Cell, real>, next: nat)
    requires tr.Valid() && j.Valid() && o.Valid(j.k)
    modifies tr, tr.conn, tr.conn.streamer.port
    ensures tr.Valid() && first <= next
    ensures !old(tr.dead) && old(tr.conn.InStep()) && !old(tr.conn.streamer.port.s.error) ==>
      (ok <==> AllGood(io, first, next))
    ensures old(tr.dead) ==> (ok <==> j.rows == 0 || j.cols == 0 || j.n2 == 0 || j.n3 == 0)
    ensures ok ==> forall c :: c in dst <==> j.Has(c)
    ensures ok && old(tr.conn.InStep()) ==>
      tr.conn.InStep() && Right(j, o, fp16, dst) && AllMeanDots(j, o, fp16, dst)
  {
    hide CellValue, Right, AllMeanDots, Turn, UsbTransport.Valid, Wire.InStep, Output, Step, AfterExchange, AfterWrite,
      PairFrame, Poll;
    if j.rows == 0 || j.cols == 0 || j.n2 == 0 || j.n3 == 0 {
      NoCells(j, o, fp16);
      return true, map[], first;
    }
    ok, dst, next := RunCells(tr, j, o, fp16, io, first);
    if !ok {
      return;
    }
    if Right(j, o, fp16, dst) {
      RightMeansDots(j, o, fp16, dst);
    }
    var status := tr.Status(io(next));
    next := next + 1;
    ok := !HasError(status);
  }
}

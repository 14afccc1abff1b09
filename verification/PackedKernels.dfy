/**
 The processing-system kernels that read rowblock-packed weights: MATMUL_Q1A8 and the
 Q1_0 row lookup. Both are proved to compute what the row-major tensor says, with the
 same scale bits, weight bits and signed integer sub-sums. The fp16 conversion is the
 parameter `half`; products are over the reals.
 */
module PackedKernels {
  import opened Accuracy
  import opened Common
  import opened DotProduct
  import opened Layout
  import Quantize
  import RowMajor

  function BitAt(x: nat, i: nat): bool
    decreases i
  {
    if i == 0 then x % 2 == 1 else BitAt(x / 2, i - 1)
  }

  /** The signed sum of a sub-block: + where the weight bit is set, - where it is not. */
  function SubSum(bits: nat, quants: seq<int>, at: nat, n: nat): int
    requires at + n <= |quants|
  {
    if n == 0 then 0
    else SubSum(bits, quants, at, n - 1) + if BitAt(bits, n - 1) then quants[at + n - 1] else -quants[at + n - 1]
  }

  lemma ZeroShare(dw: real, da: real, sum: int)
    requires dw == 0.0 || da == 0.0
    ensures Share(dw, da, sum) == 0.0
  {
    assert dw * da == 0.0;
  }

  // ----- what the bits mean -----

  function PowerOfTwo(n: nat): (p: nat)
    ensures p > 0
  {
    if n == 0 then 1 else 2 * PowerOfTwo(n - 1)
  }

  /** Below the cut a bit of a joined word is one of the low part, above it one of the high part. */
  lemma {:induction false} JoinedBit(x: nat, y: nat, n: nat, i: nat)
    requires x < PowerOfTwo(n)
    ensures BitAt(x + PowerOfTwo(n) * y, i) == if i < n then BitAt(x, i) else BitAt(y, i - n)
    decreases n
  {
    if n == 0 {
      assert x + PowerOfTwo(n) * y == y;
    } else {
      var p := PowerOfTwo(n - 1);
      assert PowerOfTwo(n) * y == 2 * (p * y);
      assert (x + 2 * (p * y)) / 2 == x / 2 + p * y && (x + 2 * (p * y)) % 2 == x % 2;
      if i > 0 {
        JoinedBit(x / 2, y, n - 1, i - 1);
      }
    }
  }

  lemma ByteBit(b: byte, j: nat)
    requires j < 8
    ensures BitAt(b, j) == RowMajor.BitOf(b, j)
  {
    var b1, b2, b3 := b / 2, b / 4, b / 8;
    assert b1 / 2 == b2 && b2 / 2 == b3 && b3 / 2 == b / 16 && b / 16 / 2 == b / 32 && b / 32 / 2 == b / 64;
    assert b / 64 / 2 == b / 128;
    BitSteps(b, j);
  }

  lemma BitSteps(x: nat, j: nat)
    requires j < 8
    ensures BitAt(x, j) <==>
      [x, x / 2, x / 2 / 2, x / 2 / 2 / 2, x / 2 / 2 / 2 / 2, x / 2 / 2 / 2 / 2 / 2, x / 2 / 2 / 2 / 2 / 2 / 2,
       x / 2 / 2 / 2 / 2 / 2 / 2 / 2][j] % 2 == 1
  {
    var x2, x4 := x / 2 / 2, x / 2 / 2 / 2 / 2;
    assert j >= 2 ==> BitAt(x, j) == BitAt(x / 2, j - 1) == BitAt(x2, j - 2);
    assert j >= 4 ==> BitAt(x2, j - 2) == BitAt(x2 / 2, j - 3) == BitAt(x4, j - 4);
    assert j >= 6 ==> BitAt(x4, j - 4) == BitAt(x4 / 2, j - 5) == BitAt(x4 / 2 / 2, j - 6);
  }

  /** Bit i of a little-endian word is bit i % 8 of its byte i / 8. */
  lemma WordBit(w: seq<byte>, at: nat, i: nat)
    requires at + 4 <= |w| && i < 32
    ensures BitAt(U32(w, at), i) == RowMajor.BitOf(w[at + i / 8], i % 8)
  {
    hide BitAt, RowMajor.BitOf;
    var b0, b1, b2, b3 := w[at], w[at + 1], w[at + 2], w[at + 3];
    var h3, h2 := b3 as nat, b2 + 256 * (b3 as int);
    var h1 := b1 + 256 * h2;
    EightBits();
    assert U32(w, at) == b0 + 256 * h1;
    hide PowerOfTwo;
    JoinedBit(b0, h1, 8, i);
    if i >= 8 {
      JoinedBit(b1, h2, 8, i - 8);
    }
    if i >= 16 {
      JoinedBit(b2, h3, 8, i - 16);
    }
    ByteBit(w[at + i / 8], i % 8);
  }

  lemma EightBits()
    ensures PowerOfTwo(8) == 256
  {
    assert PowerOfTwo(4) == 16;
  }

  /** One column of activations: int8 values and one scale per 32. */
  datatype Column = Column(quants: seq<int>, scales: seq<real>)
  {
    predicate Valid(bpr: nat)
    {
      |quants| == Q1_BLOCK * bpr && |scales| == SUBS * bpr
    }
  }

  // ----- the row-major reference -----

  /** The first n sub-blocks of block q1 of a row, from the row-major bytes. */
  function BlockAcc(q: Q1, c: Column, half: nat -> real, row: nat, q1: nat, n: nat): real
    requires q.Valid() && c.Valid(q.bpr) && row < q.rows && q1 < q.bpr && n <= SUBS
  {
    if n == 0 then 0.0
    else
      BlockAcc(q, c, half, row, q1, n - 1)
      + Share(half(LaneScale(q, row, q1)), c.scales[SUBS * q1 + n - 1],
              SubSum(LaneBits(q, row, q1, n - 1), c.quants, Q1_BLOCK * q1 + Q8_BLOCK * (n - 1), Q8_BLOCK))
  }

  function RowAcc(q: Q1, c: Column, half: nat -> real, row: nat, n: nat): real
    requires q.Valid() && c.Valid(q.bpr) && row < q.rows && n <= q.bpr
  {
    if n == 0 then 0.0 else RowAcc(q, c, half, row, n - 1) + BlockAcc(q, c, half, row, n - 1, SUBS)
  }

  lemma {:induction false} ZeroBlock(q: Q1, c: Column, half: nat -> real, row: nat, q1: nat, n: nat)
    requires q.Valid() && c.Valid(q.bpr) && row < q.rows && q1 < q.bpr && n <= SUBS
    requires half(LaneScale(q, row, q1)) == 0.0
    ensures BlockAcc(q, c, half, row, q1, n) == 0.0
  {
    hide SubSum, LaneScale, LaneBits, Share;
    if n > 0 {
      ZeroBlock(q, c, half, row, q1, n - 1);
      ZeroShare(half(LaneScale(q, row, q1)), c.scales[SUBS * q1 + n - 1],
                SubSum(LaneBits(q, row, q1, n - 1), c.quants, Q1_BLOCK * q1 + Q8_BLOCK * (n - 1), Q8_BLOCK));
    }
  }

  // ----- the packed kernel -----

  method SumSub(bits: nat, quants: seq<int>, at: nat) returns (sum: int)
    requires at + Q8_BLOCK <= |quants|
    ensures sum == SubSum(bits, quants, at, Q8_BLOCK)
  {
    sum := 0;
    for i := 0 to Q8_BLOCK
      invariant sum == SubSum(bits, quants, at, i)
    {
      if BitAt(bits, i) {
        sum := sum + quants[at + i];
      } else {
        sum := sum - quants[at + i];
      }
    }
  }

  lemma PackedLane(q: Q1, row: nat, q1: nat)
    requires q.Valid() && row < q.rows && q1 < q.bpr
    ensures var a := Address(q.bpr, row / ROWS, q1);
            a + PACKED <= PACKED * q.Total()
            && U16(q.Packed(q.Total()), a + 2 * (row % ROWS)) == LaneScale(q, row, q1)
            && forall sub :: 0 <= sub < SUBS ==>
                 U32(q.Packed(q.Total()), a + SCALES_BYTES + sub * WBITS_BYTES + 4 * (row % ROWS))
                 == LaneBits(q, row, q1, sub)
  {
    hide Q1.Packed, Address, U16, U32;
    RowPlace(q.rows, row);
    BlockReads(q, row / ROWS, q1);
    ScaleReads(q, row, q1);
    forall sub | 0 <= sub < SUBS
      ensures U32(q.Packed(q.Total()),
                  Address(q.bpr, row / ROWS, q1) + SCALES_BYTES + sub * WBITS_BYTES + 4 * (row % ROWS))
              == LaneBits(q, row, q1, sub)
    {
      WbitsReads(q, row, q1, sub);
    }
  }

  /** One output element from packed weights, zero scales skipped. */
  method RowDot(packed: seq<byte>, ghost q: Q1, bpr: nat, c: Column, half: nat -> real, row: nat) returns (acc: real)
    requires q.Valid() && q.bpr == bpr > 0 && c.Valid(bpr) && row < q.rows && packed == q.Packed(q.Total())
    ensures acc == RowAcc(q, c, half, row, bpr)
  {
    hide Q1.Packed, Address, U16, U32, BlockAcc;
    var base := row / ROWS;
    acc := 0.0;
    for q1 := 0 to bpr
      invariant acc == RowAcc(q, c, half, row, q1)
    {
      PackedLane(q, row, q1);
      var block := Address(bpr, base, q1);
      var dw := half(U16(packed, block + 2 * (row % ROWS)));
      if dw == 0.0 {
        ZeroBlock(q, c, half, row, q1, SUBS);
        continue;
      }
      var part := BlockDot(packed, q, bpr, c, half, row, q1, block, dw, acc);
      acc := part;
    }
  }

  method BlockDot(packed: seq<byte>, ghost q: Q1, bpr: nat, c: Column, half: nat -> real, row: nat, q1: nat,
                  block: nat, dw: real, start: real) returns (acc: real)
    requires q.Valid() && q.bpr == bpr && c.Valid(bpr) && row < q.rows && q1 < bpr
    requires block + PACKED <= |packed| && dw == half(LaneScale(q, row, q1))
    requires forall sub :: 0 <= sub < SUBS ==>
               U32(packed, block + SCALES_BYTES + sub * WBITS_BYTES + 4 * (row % ROWS)) == LaneBits(q, row, q1, sub)
    ensures acc == start + BlockAcc(q, c, half, row, q1, SUBS)
  {
    hide U32, LaneBits, LaneScale, SubSum, Share;
    acc := start;
    for sub := 0 to SUBS
      invariant acc == start + BlockAcc(q, c, half, row, q1, sub)
    {
      var at := q1 * Q1_BLOCK + sub * Q8_BLOCK;
      ScaleIndex(q1, sub);
      var da := c.scales[at / Q8_BLOCK];
      if da == 0.0 {
        ZeroShare(dw, da, SubSum(LaneBits(q, row, q1, sub), c.quants, at, Q8_BLOCK));
        continue;
      }
      var bits := U32(packed, block + SCALES_BYTES + sub * WBITS_BYTES + 4 * (row % ROWS));
      var sum := SumSub(bits, c.quants, at);
      acc := acc + Share(dw, da, sum);
    }
  }

  // ----- what the words mean -----

  /** Element i of a row, dequantized from the row-major bytes. */
  function Dequant(q: Q1, half: nat -> real, row: nat, i: nat): real
    requires q.Valid() && row < q.rows && i < Q1_BLOCK * q.bpr
  {
    var q1, sub := i / Q1_BLOCK, i % Q1_BLOCK / Q8_BLOCK;
    var scale := half(LaneScale(q, row, q1));
    if BitAt(LaneBits(q, row, q1, sub), i % Q8_BLOCK) then scale else -scale
  }

  lemma DequantAt(q: Q1, half: nat -> real, row: nat, q1: nat, sub: nat, i: nat)
    requires q.Valid() && row < q.rows && q1 < q.bpr && sub < SUBS && i < Q8_BLOCK
    ensures var at := Q1_BLOCK * q1 + Q8_BLOCK * sub + i;
            at < Q1_BLOCK * q.bpr
            && Dequant(q, half, row, at)
               == var scale := half(LaneScale(q, row, q1));
                  if BitAt(LaneBits(q, row, q1, sub), i) then scale else -scale
  {
    hide LaneScale, LaneBits, BitAt;
    var at := Q1_BLOCK * q1 + Q8_BLOCK * sub + i;
    assert at / Q1_BLOCK == q1 && at % Q1_BLOCK == Q8_BLOCK * sub + i;
    assert (Q8_BLOCK * sub + i) / Q8_BLOCK == sub && at % Q8_BLOCK == i;
  }

  /** Looking up through the words is looking up in the bytes. */
  lemma DequantIsWeight(q: Q1, half: nat -> real, row: nat, i: nat)
    requires q.Valid() && row < q.rows && i < Q1_BLOCK * q.bpr
    ensures Dequant(q, half, row, i) == RowMajor.Row(q.w, q.rows, q.bpr, half, row)[i]
  {
    hide BitAt, RowMajor.BitOf, U32, RowMajor.WeightAt, Q1.Off, Q1.Valid, RowMajor.Row;
    var q1, sub := i / Q1_BLOCK, i % Q1_BLOCK / Q8_BLOCK;
    OffRange(q, row, q1);
    WordWeight(q.w, half, q.Off(row, q1), i % Q1_BLOCK);
    RowElement(q, half, row, i);
    assert i % Q8_BLOCK == i % Q1_BLOCK % Q8_BLOCK;
  }

  lemma RowElement(q: Q1, half: nat -> real, row: nat, i: nat)
    requires q.Valid() && row < q.rows && i < Q1_BLOCK * q.bpr
    ensures q.Off(row, i / Q1_BLOCK) + 18 <= |q.w|
    ensures RowMajor.Row(q.w, q.rows, q.bpr, half, row)[i] ==
            RowMajor.WeightAt(q.w, half, q.Off(row, i / Q1_BLOCK), i % Q1_BLOCK)
  {
    hide RowMajor.WeightAt;
    RowMajor.BlockInside(q.rows, q.bpr, row, i, |q.w|);
  }

  lemma WordWeight(w: seq<byte>, half: nat -> real, at: nat, j: nat)
    requires at + 18 <= |w| && j < 128
    ensures var scale := half(U16(w, at));
      RowMajor.WeightAt(w, half, at, j) == if BitAt(U32(w, at + 2 + j / 32 * 4), j % 32) then scale else -scale
  {
    hide BitAt, RowMajor.BitOf, U32;
    WordBit(w, at + 2 + j / 32 * 4, j % 32);
    assert j / 32 * 4 + j % 32 / 8 == j / 8 && j % 32 % 8 == j % 8;
  }

  lemma DequantIsRow(q: Q1, half: nat -> real, row: nat, out: seq<real>)
    requires q.Valid() && row < q.rows && |out| == Q1_BLOCK * q.bpr
    requires forall i :: 0 <= i < |out| ==> out[i] == Dequant(q, half, row, i)
    ensures out == RowMajor.Row(q.w, q.rows, q.bpr, half, row)
  {
    hide Dequant, RowMajor.Row;
    forall i | 0 <= i < |out| ensures out[i] == RowMajor.Row(q.w, q.rows, q.bpr, half, row)[i] {
      DequantIsWeight(q, half, row, i);
    }
  }

  // ----- what an output of the matmul means -----

  lemma SignedShare(s: real, da: real, sum: int, bit: bool, a: int)
    ensures Share(s, da, sum + if bit then a else -a) ==
            Share(s, da, sum) + Product(if bit then s else -s, Product(da, a as real))
  {
    var c := if bit then a else -a;
    var w := if bit then s else -s;
    assert s * da * (sum + c) as real == s * da * sum as real + s * da * c as real;
    assert s * c as real == w * a as real;
    assert s * da * c as real == da * (s * c as real) == da * (w * a as real) == w * (da * a as real);
  }

  /** The row's weights. */
  function Weights(q: Q1, half: nat -> real, row: nat): (r: seq<real>)
    requires q.Valid() && row < q.rows
    ensures |r| == Q1_BLOCK * q.bpr
  {
    RowMajor.Row(q.w, q.rows, q.bpr, half, row)
  }

  lemma SubSteps(q: Q1, c: Column, half: nat -> real, row: nat, q1: nat, sub: nat, n: nat)
    requires q.Valid() && c.Valid(q.bpr) && row < q.rows && q1 < q.bpr && sub < SUBS && n < Q8_BLOCK
    ensures var at := Q1_BLOCK * q1 + Q8_BLOCK * sub;
      var bits := LaneBits(q, row, q1, sub);
      && at + n < Q1_BLOCK * q.bpr
      && SubSum(bits, c.quants, at, n + 1) ==
         SubSum(bits, c.quants, at, n) + (if BitAt(bits, n) then c.quants[at + n] else -c.quants[at + n])
      && DequantizedDot(Weights(q, half, row), c.quants, c.scales, at + n + 1) ==
         DequantizedDot(Weights(q, half, row), c.quants, c.scales, at + n) +
         Product(if BitAt(bits, n) then half(LaneScale(q, row, q1)) else -half(LaneScale(q, row, q1)),
                 Product(c.scales[SUBS * q1 + sub], c.quants[at + n] as real))
  {
    hide BitAt, LaneBits, LaneScale, Dequant, Product, RowMajor.Row, Q1.Valid, SubSum, DequantizedDot;
    var at := Q1_BLOCK * q1 + Q8_BLOCK * sub;
    DequantAt(q, half, row, q1, sub, n);
    DequantIsWeight(q, half, row, at + n);
    assert (at + n) / 32 == SUBS * q1 + sub;
    DotSnoc(Weights(q, half, row), c.quants, c.scales, at + n);
    SubSnoc(LaneBits(q, row, q1, sub), c.quants, at, n);
  }

  lemma DotSnoc(w: seq<real>, q: seq<int>, scales: seq<real>, n: nat)
    requires n < |w| == |q| && |w| <= 32 * |scales|
    ensures DequantizedDot(w, q, scales, n + 1) ==
            DequantizedDot(w, q, scales, n) + Product(w[n], Product(scales[n / 32], q[n] as real))
  {
  }

  lemma SubSnoc(bits: nat, quants: seq<int>, at: nat, n: nat)
    requires at + n < |quants|
    ensures SubSum(bits, quants, at, n + 1) ==
            SubSum(bits, quants, at, n) + (if BitAt(bits, n) then quants[at + n] else -quants[at + n])
  {
  }

  /** A sub-block's share, position by position. */
  lemma {:induction false} SubIsDot(q: Q1, c: Column, half: nat -> real, row: nat, q1: nat, sub: nat, n: nat)
    requires q.Valid() && c.Valid(q.bpr) && row < q.rows && q1 < q.bpr && sub < SUBS && n <= Q8_BLOCK
    ensures var at := Q1_BLOCK * q1 + Q8_BLOCK * sub;
      && at + n <= Q1_BLOCK * q.bpr
      && DequantizedDot(Weights(q, half, row), c.quants, c.scales, at + n) ==
         DequantizedDot(Weights(q, half, row), c.quants, c.scales, at) +
         Share(half(LaneScale(q, row, q1)), c.scales[SUBS * q1 + sub],
               SubSum(LaneBits(q, row, q1, sub), c.quants, at, n))
  {
    hide Weights, DequantizedDot, SubSum, Share, LaneScale, LaneBits, BitAt, Product;
    var at := Q1_BLOCK * q1 + Q8_BLOCK * sub;
    if n == 0 {
      NothingSummed(LaneBits(q, row, q1, sub), c.quants, at, half(LaneScale(q, row, q1)), c.scales[SUBS * q1 + sub]);
    } else {
      SubIsDot(q, c, half, row, q1, sub, n - 1);
      SubSteps(q, c, half, row, q1, sub, n - 1);
      SignedShare(half(LaneScale(q, row, q1)), c.scales[SUBS * q1 + sub],
                  SubSum(LaneBits(q, row, q1, sub), c.quants, at, n - 1),
                  BitAt(LaneBits(q, row, q1, sub), n - 1), c.quants[at + n - 1]);
    }
  }

  lemma NothingSummed(bits: nat, quants: seq<int>, at: nat, s: real, da: real)
    requires at <= |quants|
    ensures Share(s, da, SubSum(bits, quants, at, 0)) == 0.0
  {
    assert s * da * 0.0 == 0.0;
  }

  lemma {:induction false} BlockIsDot(q: Q1, c: Column, half: nat -> real, row: nat, q1: nat, n: nat)
    requires q.Valid() && c.Valid(q.bpr) && row < q.rows && q1 < q.bpr && n <= SUBS
    ensures Q1_BLOCK * q1 + Q8_BLOCK * n <= Q1_BLOCK * q.bpr
    ensures DequantizedDot(Weights(q, half, row), c.quants, c.scales, Q1_BLOCK * q1 + Q8_BLOCK * n) ==
            DequantizedDot(Weights(q, half, row), c.quants, c.scales, Q1_BLOCK * q1) + BlockAcc(q, c, half, row, q1, n)
  {
    hide Weights, DequantizedDot, SubSum, Share, LaneScale, LaneBits;
    if n > 0 {
      BlockIsDot(q, c, half, row, q1, n - 1);
      SubIsDot(q, c, half, row, q1, n - 1, Q8_BLOCK);
    }
  }

  /** A row's output is the dot product of its weights with the dequantized activations. */
  lemma {:induction false} RowIsDot(q: Q1, c: Column, half: nat -> real, row: nat, n: nat)
    requires q.Valid() && c.Valid(q.bpr) && row < q.rows && n <= q.bpr
    ensures RowAcc(q, c, half, row, n) == DequantizedDot(Weights(q, half, row), c.quants, c.scales, Q1_BLOCK * n)
  {
    hide Weights, DequantizedDot, BlockAcc;
    if n == 0 {
      NoDot(q, c, half, row);
    } else {
      RowIsDot(q, c, half, row, n - 1);
      BlockIsDot(q, c, half, row, n - 1, SUBS);
    }
  }

  lemma NoDot(q: Q1, c: Column, half: nat -> real, row: nat)
    requires q.Valid() && c.Valid(q.bpr) && row < q.rows
    ensures DequantizedDot(Weights(q, half, row), c.quants, c.scales, 0) == 0.0
  {
  }

  /** A column as the kernel quantizes it. */
  function Quantized(a: seq<Quantize.Float>, fp16: real -> real): Column
  {
    Column(Quantize.Quants(a), Quantize.Scales(a, fp16))
  }

  predicate MatmulArgs(rows: nat, cols: nat, k: nat)
  {
    rows > 0 && cols > 0 && k > 0 && k % Q1_BLOCK == 0
  }

  /** Where column c's activations start. */
  function At(c: nat, k: nat): nat
  {
    c * k
  }

  lemma AtNext(c: nat, cols: nat, k: nat)
    requires c < cols
    ensures At(c, k) + k == At(c + 1, k) <= At(cols, k)
  {
    assert At(cols, k) == At(c + 1, k) + At(cols - c - 1, k);
  }

  /** One column of the output, from its own activations. */
  predicate ColumnDone(q: Q1, col: Column, half: nat -> real, out: seq<real>)
    requires q.Valid() && col.Valid(q.bpr)
  {
    |out| == q.rows && forall r :: 0 <= r < q.rows ==> out[r] == RowAcc(q, col, half, r, q.bpr)
  }

  /** Every output means the dot product of its row, as the bytes store it, with the column. */
  ghost predicate ColumnMeans(q: Q1, a: seq<Quantize.Float>, half: nat -> real, fp16: real -> real, out: seq<real>)
    requires q.Valid() && |a| == 128 * q.bpr
  {
    |out| == q.rows && forall r :: 0 <= r < q.rows ==>
      MeansDot(RowMajor.Row(q.w, q.rows, q.bpr, half, r), a, fp16, out[r])
  }

  lemma DoneMeans(q: Q1, a: seq<Quantize.Float>, half: nat -> real, fp16: real -> real, out: seq<real>)
    requires q.Valid() && |a| == Q1_BLOCK * q.bpr && Quantized(a, fp16).Valid(q.bpr)
    requires ColumnDone(q, Quantized(a, fp16), half, out)
    ensures ColumnMeans(q, a, half, fp16, out)
  {
    hide RowAcc, MeansDot, DequantizedDot, RowMajor.Row, Quantize.Quants, Quantize.Scales;
    forall r | 0 <= r < q.rows ensures MeansDot(RowMajor.Row(q.w, q.rows, q.bpr, half, r), a, fp16, out[r]) {
      RowIsDot(q, Quantized(a, fp16), half, r, q.bpr);
      DotMeans(Weights(q, half, r), a, fp16);
    }
  }

  lemma QuantizedValid(a: seq<Quantize.Float>, fp16: real -> real, bpr: nat)
    requires |a| == Q1_BLOCK * bpr
    ensures Quantized(a, fp16).Valid(bpr)
  {
  }

  /**
   MATMUL_Q1A8: each column's activations are quantized, then every row is summed from the
   packed tensor. Output by column and row.
   */
  method MatmulQ1A8(
    packed: seq<byte>, ghost q: Q1, acts: seq<Quantize.Float>, rows: nat, cols: nat, k: nat,
    half: nat -> real, fp16: real -> real) returns (rc: int, dst: seq<seq<real>>)
    requires MatmulArgs(rows, cols, k) ==>
      q.Valid() && q.rows == rows && Q1_BLOCK * q.bpr == k && packed == q.Packed(q.Total()) && |acts| == At(cols, k)
    ensures rc == if rows == 0 || cols == 0 || k == 0 || k % 128 != 0 then -1 else 0
    ensures rc == 0 ==> |dst| == cols && forall c :: 0 <= c < cols ==>
      && At(c, k) + k <= |acts|
      && Quantized(acts[At(c, k)..At(c, k) + k], fp16).Valid(q.bpr)
      && ColumnDone(q, Quantized(acts[At(c, k)..At(c, k) + k], fp16), half, dst[c])
      && ColumnMeans(q, acts[At(c, k)..At(c, k) + k], half, fp16, dst[c])
  {
    hide Q1.Packed, ColumnDone, ColumnMeans, At, Quantized, Column.Valid;
    dst := [];
    if !MatmulArgs(rows, cols, k) {
      return -1, dst;
    }
    AtNext(0, cols, k);
    for c := 0 to cols
      invariant |dst| == c && At(c, k) <= |acts|
      invariant forall c' :: 0 <= c' < c ==>
        && At(c', k) + k <= |acts|
        && Quantized(acts[At(c', k)..At(c', k) + k], fp16).Valid(q.bpr)
        && ColumnDone(q, Quantized(acts[At(c', k)..At(c', k) + k], fp16), half, dst[c'])
        && ColumnMeans(q, acts[At(c', k)..At(c', k) + k], half, fp16, dst[c'])
    {
      AtNext(c, cols, k);
      var a := acts[At(c, k)..At(c, k) + k];
      QuantizedValid(a, fp16, q.bpr);
      var out := MatmulColumn(packed, q, a, rows, k, half, fp16);
      DoneMeans(q, a, half, fp16, out);
      dst := dst + [out];
    }
    rc := 0;
  }

  method MatmulColumn(
    packed: seq<byte>, ghost q: Q1, a: seq<Quantize.Float>, rows: nat, k: nat, half: nat -> real, fp16: real -> real)
    returns (out: seq<real>)
    requires q.Valid() && q.rows == rows && k > 0 && Q1_BLOCK * q.bpr == k == |a| && packed == q.Packed(q.Total())
    ensures Quantized(a, fp16).Valid(q.bpr) && ColumnDone(q, Quantized(a, fp16), half, out)
  {
    hide Q1.Packed, RowAcc, Quantize.Quant, Quantize.Scale;
    var quants, scales := Quantize.QuantizeActs(a, fp16);
    var col := Column(quants, scales);
    assert quants == Quantize.Quants(a) && scales == Quantize.Scales(a, fp16);
    QuantizedValid(a, fp16, q.bpr);
    out := [];
    for r := 0 to rows
      invariant |out| == r && forall r' :: 0 <= r' < r ==> out[r'] == RowAcc(q, col, half, r', q.bpr)
    {
      var acc := RowDot(packed, q, k / Q1_BLOCK, col, half, r);
      out := out + [acc];
    }
  }

  // ----- row lookup -----

  method LookupRow(packed: seq<byte>, ghost q: Q1, bpr: nat, half: nat -> real, row: nat) returns (out: seq<real>)
    requires q.Valid() && q.bpr == bpr > 0 && row < q.rows && packed == q.Packed(q.Total())
    ensures |out| == Q1_BLOCK * bpr
    ensures forall i :: 0 <= i < |out| ==> out[i] == Dequant(q, half, row, i)
  {
    hide Q1.Packed, Address, U16, U32, Dequant, LaneScale, LaneBits;
    var rb, lane := row / ROWS, row % ROWS;
    out := [];
    for b := 0 to bpr
      invariant |out| == Q1_BLOCK * b && forall i :: 0 <= i < |out| ==> out[i] == Dequant(q, half, row, i)
    {
      PackedLane(q, row, b);
      var blk := Address(bpr, rb, b);
      LanePlaces(lane);
      var scale := half(U16(packed, blk + lane / 4 * 8 + lane % 4 * 2));
      for sub := 0 to SUBS
        invariant |out| == Q1_BLOCK * b + Q8_BLOCK * sub
        invariant forall i :: 0 <= i < |out| ==> out[i] == Dequant(q, half, row, i)
      {
        var bits := U32(packed, blk + SCALES_BYTES + sub * WBITS_BYTES + (lane / 2 * 8 + lane % 2 * 4));
        for i := 0 to Q8_BLOCK
          invariant |out| == Q1_BLOCK * b + Q8_BLOCK * sub + i
          invariant forall j :: 0 <= j < |out| ==> out[j] == Dequant(q, half, row, j)
        {
          DequantAt(q, half, row, b, sub, i);
          out := out + [if BitAt(bits, i) then scale else -scale];
        }
      }
    }
  }

  lemma LanePlaces(lane: nat)
    requires lane < ROWS
    ensures lane / 4 * 8 + lane % 4 * 2 == 2 * lane && lane / 2 * 8 + lane % 2 * 4 == 4 * lane
  {
  }

  predicate AllIn(xs: seq<int>, rows: nat)
  {
    forall i :: 0 <= i < |xs| ==> 0 <= xs[i] < rows
  }

  predicate PlaneIn(xs: seq<seq<int>>, rows: nat)
  {
    forall i :: 0 <= i < |xs| ==> AllIn(xs[i], rows)
  }

  predicate CubeIn(xs: seq<seq<seq<int>>>, rows: nat)
  {
    forall i :: 0 <= i < |xs| ==> PlaneIn(xs[i], rows)
  }

  /** out is the row the tensor's row-major bytes store. */
  predicate IsRow(q: Q1, half: nat -> real, row: int, out: seq<real>)
    requires q.Valid()
  {
    0 <= row < q.rows && out == RowMajor.Row(q.w, q.rows, q.bpr, half, row)
  }

  predicate AreRows(q: Q1, half: nat -> real, xs: seq<int>, out: seq<seq<real>>)
    requires q.Valid()
  {
    |out| == |xs| && forall i :: 0 <= i < |xs| ==> IsRow(q, half, xs[i], out[i])
  }

  predicate ArePlanes(q: Q1, half: nat -> real, xs: seq<seq<int>>, out: seq<seq<seq<real>>>)
    requires q.Valid()
  {
    |out| == |xs| && forall i :: 0 <= i < |xs| ==> AreRows(q, half, xs[i], out[i])
  }

  predicate AreCubes(q: Q1, half: nat -> real, xs: seq<seq<seq<int>>>, out: seq<seq<seq<seq<real>>>>)
    requires q.Valid()
  {
    |out| == |xs| && forall i :: 0 <= i < |xs| ==> ArePlanes(q, half, xs[i], out[i])
  }

  /** The innermost index loop. */
  method GetRow(packed: seq<byte>, ghost q: Q1, rows: nat, bpr: nat, half: nat -> real, indices: seq<int>)
      returns (rc: int, dst: seq<seq<real>>)
    requires q.Valid() && q.bpr == bpr > 0 && q.rows == rows && packed == q.Packed(q.Total())
    ensures rc == if AllIn(indices, rows) then 0 else -2
    ensures rc == 0 ==> AreRows(q, half, indices, dst)
  {
    hide Q1.Packed, Dequant;
    dst := [];
    for n := 0 to |indices|
      invariant |dst| == n && AllIn(indices[..n], rows)
      invariant forall m :: 0 <= m < n ==> IsRow(q, half, indices[m], dst[m])
    {
      if indices[n] < 0 || indices[n] >= rows {
        return -2, dst;
      }
      var row := LookupRow(packed, q, bpr, half, indices[n]);
      DequantIsRow(q, half, indices[n], row);
      dst := dst + [row];
    }
    rc := 0;
  }

  /** The middle index loop. */
  method GetPlane(packed: seq<byte>, ghost q: Q1, rows: nat, bpr: nat, half: nat -> real, indices: seq<seq<int>>)
      returns (rc: int, dst: seq<seq<seq<real>>>)
    requires q.Valid() && q.bpr == bpr > 0 && q.rows == rows && packed == q.Packed(q.Total())
    ensures rc == if PlaneIn(indices, rows) then 0 else -2
    ensures rc == 0 ==> ArePlanes(q, half, indices, dst)
  {
    hide Q1.Packed, AreRows, AllIn;
    dst := [];
    for n := 0 to |indices|
      invariant |dst| == n && forall m :: 0 <= m < n ==> AllIn(indices[m], rows) && AreRows(q, half, indices[m], dst[m])
    {
      var plane;
      rc, plane := GetRow(packed, q, rows, bpr, half, indices[n]);
      if rc != 0 {
        return;
      }
      dst := dst + [plane];
    }
    rc := 0;
  }

  /**
   GET_ROWS over three index dimensions, outermost first: -1 for a bad row length, -2 when
   some index is outside the table, else every row looked up.
   */
  method GetRows(
    packed: seq<byte>, ghost q: Q1, rows: nat, headDim: nat, half: nat -> real, indices: seq<seq<seq<int>>>)
    returns (rc: int, dst: seq<seq<seq<seq<real>>>>)
    requires headDim > 0 && headDim % Q1_BLOCK == 0 ==>
      q.Valid() && Q1_BLOCK * q.bpr == headDim && q.rows == rows && packed == q.Packed(q.Total())
    ensures rc == if headDim == 0 || headDim % Q1_BLOCK != 0 then -1 else if CubeIn(indices, rows) then 0 else -2
    ensures rc == 0 ==> AreCubes(q, half, indices, dst)
  {
    hide Q1.Packed, ArePlanes, PlaneIn;
    dst := [];
    if headDim == 0 || headDim % Q1_BLOCK != 0 {
      return -1, dst;
    }
    for n := 0 to |indices|
      invariant |dst| == n
      invariant forall m :: 0 <= m < n ==> PlaneIn(indices[m], rows) && ArePlanes(q, half, indices[m], dst[m])
    {
      var cube;
      rc, cube := GetPlane(packed, q, rows, headDim / Q1_BLOCK, half, indices[n]);
      if rc != 0 {
        return;
      }
      dst := dst + [cube];
    }
    rc := 0;
  }
}

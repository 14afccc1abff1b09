/**
 The Q1A8 wire layouts: row-major Q1_0 weights, the rowblock-packed weights the board
 stores, and the merged AXIS stream.

 PackWeights, MergeActs and PackStream follow the packers' nested beat loops and are
 proved against block-by-block descriptions. On top of those: every scale and weight
 word a consumer reads from the packed form is the row-major one (ScaleReads,
 WbitsReads), packing loses nothing (PackedRoundTrip), padding lanes are zero, and
 packing then merging is byte-for-byte the direct packer's stream (MergeOfPack).
 */
module Layout {
  import opened Common

  const Q1_BLOCK: nat := 128
  const Q1_BYTES: nat := 18
  const Q8_BLOCK: nat := 32
  const ROWS: nat := 8
  const SUBS: nat := 4
  const SCALES_BYTES: nat := 16
  const WBITS_BYTES: nat := 32
  const PACKED: nat := 144
  const STREAM: nat := 304

  function Rowblocks(rows: nat): nat
  {
    (rows + ROWS - 1) / ROWS
  }

  // ----- little-endian words -----

  function Value(b: seq<byte>): nat
  {
    if b == [] then 0 else b[0] + 256 * Value(b[1..])
  }

  lemma LowByte(b: byte, v: nat)
    ensures (b + 256 * v) % 256 == b && (b + 256 * v) / 256 == v
  {
  }

  lemma LeStep(b: byte, v: nat, n: nat)
    ensures LeBytes(b + 256 * v, n + 1) == [b] + LeBytes(v, n)
  {
    LowByte(b, v);
  }

  /** Writing out a word gives back the bytes it was assembled from. */
  lemma {:induction false} LeOfNat(b: seq<byte>)
    ensures LeBytes(Value(b), |b|) == b
  {
    if b != [] {
      hide LeBytes;
      LeOfNat(b[1..]);
      LeStep(b[0], Value(b[1..]), |b| - 1);
    }
  }

  function U16(b: seq<byte>, at: nat): nat
    requires at + 2 <= |b|
  {
    b[at] + 256 * (b[at + 1] as int)
  }

  function U32(b: seq<byte>, at: nat): nat
    requires at + 4 <= |b|
  {
    b[at] + 256 * (b[at + 1] as int) + 65536 * (b[at + 2] as int) + 16777216 * (b[at + 3] as int)
  }

  /** A beat of four 16-bit lanes, each two bytes. */
  lemma ScaleBeat(b: seq<byte>)
    requires |b| == 8
    ensures LeBytes(U16(b, 0) + 65536 * U16(b, 2) + 0x1_0000_0000 * U16(b, 4) + 0x1_0000_0000_0000 * U16(b, 6), 8) == b
  {
    EightBytes(b);
    LeOfNat(b);
  }

  /** A beat of two 32-bit lanes, each four bytes. */
  lemma WbitsBeat(b: seq<byte>)
    requires |b| == 8
    ensures LeBytes(U32(b, 0) + 0x1_0000_0000 * U32(b, 4), 8) == b
  {
    EightBytes(b);
    LeOfNat(b);
  }

  lemma EightBytes(b: seq<byte>)
    requires |b| == 8
    ensures Value(b) == U32(b, 0) + 0x1_0000_0000 * U32(b, 4)
    ensures Value(b) == U16(b, 0) + 65536 * U16(b, 2) + 0x1_0000_0000 * U16(b, 4) + 0x1_0000_0000_0000 * U16(b, 6)
  {
    hide Value, U16, U32;
    var t4 := b[4..];
    FourBytes(b, 0);
    FourBytes(b, 4);
    assert b[0..4] + t4 == b && b[4..8] == t4;
    ValueConcat(b[0..4], t4);
  }

  lemma FourBytes(b: seq<byte>, at: nat)
    requires at + 4 <= |b|
    ensures Value(b[at..at + 4]) == U32(b, at) == U16(b, at) + 65536 * U16(b, at + 2)
  {
    var c := b[at..at + 4];
    var c1, c2, c3 := c[1..], c[2..], c[3..];
    assert c1[1..] == c2 && c2[1..] == c3 && c3[1..] == [];
    assert Value(c3) == c[3] && Value(c2) == c[2] + 256 * Value(c3) && Value(c1) == c[1] + 256 * Value(c2);
  }

  lemma ValueConcat(x: seq<byte>, y: seq<byte>)
    requires |x| == 4
    ensures Value(x + y) == Value(x) + 0x1_0000_0000 * Value(y)
  {
    var z := x + y;
    var z1, z2, z3 := z[1..], z[2..], z[3..];
    assert z1[1..] == z2 && z2[1..] == z3 && z3[1..] == y;
    assert Value(z) == z[0] + 256 * Value(z1) && Value(z1) == z[1] + 256 * Value(z2);
    assert Value(z2) == z[2] + 256 * Value(z3) && Value(z3) == z[3] + 256 * Value(y);
    FourBytes(x, 0);
    assert x[0..4] == x;
  }

  // ----- the row-major source -----

  /** Q1_0 weights: rows of bpr blocks of an fp16 scale and 16 bytes of weight bits. */
  datatype Q1 = Q1(rows: nat, bpr: nat, w: seq<byte>)
  {
    predicate Valid()
    {
      |w| >= Q1_BYTES * (rows * bpr)
    }

    function Off(row: nat, q1: nat): nat
    {
      Q1_BYTES * (row * bpr + q1)
    }

    /** Byte j of block q1 of a row; rows past the end read as zero. */
    function Byte(row: nat, q1: nat, j: nat): byte
      requires Valid() && q1 < bpr && j < Q1_BYTES
    {
      if row < rows then BlockIndex(row, q1, rows, bpr); w[Off(row, q1) + j] else 0
    }

    /** The 16 scale bytes of a rowblock, two per lane. */
    function ScaleSeg(rb: nat, q1: nat): (s: seq<byte>)
      requires Valid() && q1 < bpr
      ensures |s| == SCALES_BYTES
    {
      seq(SCALES_BYTES, i requires 0 <= i < SCALES_BYTES => Byte(ROWS * rb + i / 2, q1, i % 2))
    }

    /** The 32 weight-bit bytes of one sub-block, four per lane. */
    function WbitsSeg(rb: nat, q1: nat, sub: nat): (s: seq<byte>)
      requires Valid() && q1 < bpr && sub < SUBS
      ensures |s| == WBITS_BYTES
    {
      seq(WBITS_BYTES, i requires 0 <= i < WBITS_BYTES => Byte(ROWS * rb + i / 4, q1, 2 + 4 * sub + i % 4))
    }

    /** One packed block: scales, then the four weight-bit segments. */
    function Block(rb: nat, q1: nat): (s: seq<byte>)
      requires Valid() && q1 < bpr
      ensures |s| == PACKED
    {
      ScaleSeg(rb, q1) + WbitsSeg(rb, q1, 0) + WbitsSeg(rb, q1, 1) + WbitsSeg(rb, q1, 2) + WbitsSeg(rb, q1, 3)
    }

    /** The first n packed blocks, rowblock-major. */
    function Packed(n: nat): (s: seq<byte>)
      requires Valid() && bpr > 0
      ensures |s| == PACKED * n
    {
      if n == 0 then [] else Packed(n - 1) + Block((n - 1) / bpr, (n - 1) % bpr)
    }

    /** Blocks in the whole tensor, padding rows included. */
    function Total(): nat
    {
      Rowblocks(rows) * bpr
    }
  }

  lemma BlockIndex(row: nat, q1: nat, rows: nat, bpr: nat)
    requires row < rows && q1 < bpr
    ensures row * bpr + q1 < rows * bpr
  {
    MulAdd(row + 1, rows - row - 1, bpr);
    MulAdd(row, 1, bpr);
  }

  lemma MulAdd(a: nat, b: nat, p: nat)
    ensures (a + b) * p == a * p + b * p && b * p >= 0 && 1 * p == p
  {
  }

  lemma SliceInit<T>(x: seq<T>, y: seq<T>, a: nat, b: nat)
    requires a <= b <= |x|
    ensures (x + y)[a..b] == x[a..b]
  {
  }

  lemma SliceLast<T>(x: seq<T>, y: seq<T>, a: nat, b: nat)
    requires a == |x| && b == |x| + |y|
    ensures (x + y)[a..b] == y
  {
  }

  lemma {:induction false} PackedAt(q: Q1, n: nat, b: nat)
    requires q.Valid() && q.bpr > 0 && b < n
    ensures q.Packed(n)[PACKED * b..PACKED * b + PACKED] == q.Block(b / q.bpr, b % q.bpr)
  {
    hide Q1.Block, Q1.Valid;
    var init, last := q.Packed(n - 1), q.Block((n - 1) / q.bpr, (n - 1) % q.bpr);
    if b < n - 1 {
      PackedAt(q, n - 1, b);
      SliceInit(init, last, PACKED * b, PACKED * b + PACKED);
    } else {
      SliceLast(init, last, PACKED * b, PACKED * b + PACKED);
    }
  }

  lemma SplitIndex(rb: nat, q1: nat, bpr: nat)
    requires q1 < bpr
    ensures (rb * bpr + q1) / bpr == rb && (rb * bpr + q1) % bpr == q1
  {
    var b := rb * bpr + q1;
    var d, m := b / bpr, b % bpr;
    assert b == bpr * d + m;
    if d < rb {
      ProductAtLeast(bpr, rb - d);
      assert false;
    } else if d > rb {
      ProductAtLeast(bpr, d - rb);
      assert false;
    }
  }

  lemma ProductAtLeast(a: nat, b: nat)
    requires b >= 1
    ensures a * b >= a
  {
  }

  /** A block's address as the consumers compute it. */
  function Address(bpr: nat, rb: nat, q1: nat): nat
  {
    rb * (bpr * PACKED) + q1 * PACKED
  }

  lemma AddressLaw(bpr: nat, rb: nat, q1: nat)
    ensures Address(bpr, rb, q1) == PACKED * (rb * bpr + q1)
  {
    assert rb * (bpr * PACKED) == PACKED * (rb * bpr);
  }

  /** Every block of the tensor is found where the consumers look for it. */
  lemma BlockReads(q: Q1, rb: nat, q1: nat)
    requires q.Valid() && rb < Rowblocks(q.rows) && q1 < q.bpr
    ensures var a := Address(q.bpr, rb, q1);
            a + PACKED <= PACKED * q.Total() && q.Packed(q.Total())[a..a + PACKED] == q.Block(rb, q1)
  {
    BlockIndex(rb, q1, Rowblocks(q.rows), q.bpr);
    AddressLaw(q.bpr, rb, q1);
    SplitIndex(rb, q1, q.bpr);
    PackedAt(q, q.Total(), rb * q.bpr + q1);
  }

  // ----- what the consumers read -----

  lemma BlockScales(q: Q1, rb: nat, q1: nat, i: nat)
    requires q.Valid() && q1 < q.bpr && i < SCALES_BYTES
    ensures q.Block(rb, q1)[i] == q.ScaleSeg(rb, q1)[i]
  {
    hide Q1.ScaleSeg, Q1.WbitsSeg;
  }

  lemma BlockWbits(q: Q1, rb: nat, q1: nat, sub: nat, i: nat)
    requires q.Valid() && q1 < q.bpr && sub < SUBS && i < WBITS_BYTES
    ensures q.Block(rb, q1)[SCALES_BYTES + sub * WBITS_BYTES + i] == q.WbitsSeg(rb, q1, sub)[i]
  {
    hide Q1.ScaleSeg, Q1.WbitsSeg;
  }

  lemma BlockBytes(q: Q1, rb: nat, q1: nat, lane: nat, j: nat)
    requires q.Valid() && q1 < q.bpr && lane < ROWS && j < Q1_BYTES
    ensures q.Block(rb, q1)[PlaceOf(lane, j)] == q.Byte(ROWS * rb + lane, q1, j)
  {
    hide Q1.Block, Q1.Byte;
    if j < 2 {
      BlockScales(q, rb, q1, 2 * lane + j);
    } else {
      var sub, i := (j - 2) / 4, (j - 2) % 4;
      BlockWbits(q, rb, q1, sub, 4 * lane + i);
      assert 2 + 4 * sub + i == j && (4 * lane + i) / 4 == lane && (4 * lane + i) % 4 == i;
    }
  }

  /** Where byte j of a lane's block goes inside the packed block. */
  function PlaceOf(lane: nat, j: nat): (at: nat)
    requires lane < ROWS && j < Q1_BYTES
    ensures at < PACKED
  {
    if j < 2 then 2 * lane + j else SCALES_BYTES + (j - 2) / 4 * WBITS_BYTES + 4 * lane + (j - 2) % 4
  }

  lemma RowPlace(rows: nat, row: nat)
    requires row < rows
    ensures row / ROWS < Rowblocks(rows) && row % ROWS < ROWS && ROWS * (row / ROWS) + row % ROWS == row
  {
  }

  /** Every source byte survives, at a fixed place: packing can be undone. */
  lemma PackedRoundTrip(q: Q1, row: nat, q1: nat, j: nat)
    requires q.Valid() && row < q.rows && q1 < q.bpr && j < Q1_BYTES
    ensures var a := Address(q.bpr, row / ROWS, q1) + PlaceOf(row % ROWS, j);
            a < PACKED * q.Total() && q.Off(row, q1) + j < |q.w|
            && q.Packed(q.Total())[a] == q.w[q.Off(row, q1) + j]
  {
    hide Q1.Packed, Q1.Block, PlaceOf, Address;
    RowPlace(q.rows, row);
    var rb, lane := row / ROWS, row % ROWS;
    BlockReads(q, rb, q1);
    BlockBytes(q, rb, q1, lane, j);
    BlockIndex(row, q1, q.rows, q.bpr);
    var a := Address(q.bpr, rb, q1);
    assert q.Packed(q.Total())[a..a + PACKED][PlaceOf(lane, j)] == q.Packed(q.Total())[a + PlaceOf(lane, j)];
  }

  /** Lanes past the last row are zero in the packed form. */
  lemma PaddingIsZero(q: Q1, row: nat, q1: nat, j: nat)
    requires q.Valid() && q.rows <= row < ROWS * Rowblocks(q.rows) && q1 < q.bpr && j < Q1_BYTES
    ensures var a := Address(q.bpr, row / ROWS, q1) + PlaceOf(row % ROWS, j);
            a < PACKED * q.Total() && q.Packed(q.Total())[a] == 0
  {
    hide Q1.Packed, Q1.Block, PlaceOf, Address;
    var rb, lane := row / ROWS, row % ROWS;
    assert ROWS * rb + lane == row && rb < Rowblocks(q.rows);
    BlockReads(q, rb, q1);
    BlockBytes(q, rb, q1, lane, j);
    var a := Address(q.bpr, rb, q1);
    assert q.Packed(q.Total())[a..a + PACKED][PlaceOf(lane, j)] == q.Packed(q.Total())[a + PlaceOf(lane, j)];
  }

  /** The matmul's and the row lookup's scale address, and the same fp16 bits behind it. */
  lemma ScaleReads(q: Q1, row: nat, q1: nat)
    requires q.Valid() && row < q.rows && q1 < q.bpr
    ensures var lane := row % ROWS;
            var a := Address(q.bpr, row / ROWS, q1) + 2 * lane;
            2 * lane == lane / 4 * 8 + lane % 4 * 2
            && a + 2 <= PACKED * q.Total() && q.Off(row, q1) + 2 <= |q.w|
            && U16(q.Packed(q.Total()), a) == U16(q.w, q.Off(row, q1))
  {
    hide Q1.Packed, Address, Q1.Off, Q1.Valid, Q1.Total;
    PackedRoundTrip(q, row, q1, 0);
    PackedRoundTrip(q, row, q1, 1);
    OffRange(q, row, q1);
  }

  lemma OffRange(q: Q1, row: nat, q1: nat)
    requires q.Valid() && row < q.rows && q1 < q.bpr
    ensures q.Off(row, q1) + Q1_BYTES <= |q.w|
  {
    BlockIndex(row, q1, q.rows, q.bpr);
  }

  lemma WbitsPlace(lane: nat, sub: nat, i: nat)
    requires lane < ROWS && sub < SUBS && i < 4
    ensures PlaceOf(lane, 2 + 4 * sub + i) == SCALES_BYTES + sub * WBITS_BYTES + 4 * lane + i
  {
    assert (4 * sub + i) / 4 == sub && (4 * sub + i) % 4 == i;
  }

  lemma WbitsByte(q: Q1, row: nat, q1: nat, sub: nat, i: nat)
    requires q.Valid() && row < q.rows && q1 < q.bpr && sub < SUBS && i < 4
    ensures var a := Address(q.bpr, row / ROWS, q1) + SCALES_BYTES + sub * WBITS_BYTES + 4 * (row % ROWS) + i;
            a < PACKED * q.Total() && q.Off(row, q1) + 2 + 4 * sub + i < |q.w|
            && q.Packed(q.Total())[a] == q.w[q.Off(row, q1) + 2 + 4 * sub + i]
  {
    hide Q1.Packed, Address, Q1.Off, Q1.Valid, Q1.Total, PlaceOf;
    PackedRoundTrip(q, row, q1, 2 + 4 * sub + i);
    WbitsPlace(row % ROWS, sub, i);
  }

  /** The weight-word address of a sub-block, and the same 32 weight bits behind it. */
  lemma WbitsReads(q: Q1, row: nat, q1: nat, sub: nat)
    requires q.Valid() && row < q.rows && q1 < q.bpr && sub < SUBS
    ensures var lane := row % ROWS;
            var a := Address(q.bpr, row / ROWS, q1) + SCALES_BYTES + sub * WBITS_BYTES + 4 * lane;
            4 * lane == lane / 2 * 8 + lane % 2 * 4
            && a + 4 <= PACKED * q.Total() && q.Off(row, q1) + 2 + 4 * sub + 4 <= |q.w|
            && U32(q.Packed(q.Total()), a) == U32(q.w, q.Off(row, q1) + 2 + 4 * sub)
  {
    hide Q1.Packed, Address, Q1.Off, Q1.Valid, Q1.Total;
    WbitsByte(q, row, q1, sub, 0);
    WbitsByte(q, row, q1, sub, 1);
    WbitsByte(q, row, q1, sub, 2);
    WbitsByte(q, row, q1, sub, 3);
    OffRange(q, row, q1);
  }

  // ----- the packers -----

  /** A 16-bit lane moved to its place in a beat. */
  function Shift16(x: nat, local: nat): nat
  {
    if local == 0 then x else if local == 1 then 0x1_0000 * x
    else if local == 2 then 0x1_0000_0000 * x else 0x1_0000_0000_0000 * x
  }

  function Shift32(x: nat, local: nat): nat
  {
    if local == 0 then x else 0x1_0000_0000 * x
  }

  /** The scale a lane contributes: the source's fp16 bits, zero past the last row. */
  function LaneScale(q: Q1, row: nat, q1: nat): nat
    requires q.Valid() && q1 < q.bpr
  {
    if row < q.rows then BlockIndex(row, q1, q.rows, q.bpr); U16(q.w, q.Off(row, q1)) else 0
  }

  function LaneBits(q: Q1, row: nat, q1: nat, sub: nat): nat
    requires q.Valid() && q1 < q.bpr && sub < SUBS
  {
    if row < q.rows then BlockIndex(row, q1, q.rows, q.bpr); U32(q.w, q.Off(row, q1) + 2 + sub * 4) else 0
  }

  lemma ByteIs(q: Q1, row: nat, q1: nat, j: nat)
    requires q.Valid() && q1 < q.bpr && j < Q1_BYTES
    ensures row < q.rows ==> q.Off(row, q1) + Q1_BYTES <= |q.w| && q.Byte(row, q1, j) == q.w[q.Off(row, q1) + j]
    ensures row >= q.rows ==> q.Byte(row, q1, j) == 0
  {
    if row < q.rows {
      BlockIndex(row, q1, q.rows, q.bpr);
    }
  }

  lemma LaneScaleInSeg(q: Q1, rb: nat, q1: nat, lane: nat)
    requires q.Valid() && q1 < q.bpr && lane < ROWS
    ensures U16(q.ScaleSeg(rb, q1), 2 * lane) == LaneScale(q, ROWS * rb + lane, q1)
  {
    hide Q1.Byte, Q1.Off;
    var s, row := q.ScaleSeg(rb, q1), ROWS * rb + lane;
    assert s[2 * lane] == q.Byte(row, q1, 0) && s[2 * lane + 1] == q.Byte(row, q1, 1);
    ByteIs(q, row, q1, 0);
    ByteIs(q, row, q1, 1);
  }

  lemma LaneBitsInSeg(q: Q1, rb: nat, q1: nat, sub: nat, lane: nat)
    requires q.Valid() && q1 < q.bpr && sub < SUBS && lane < ROWS
    ensures U32(q.WbitsSeg(rb, q1, sub), 4 * lane) == LaneBits(q, ROWS * rb + lane, q1, sub)
  {
    hide Q1.Byte, Q1.Off;
    var s, row, j := q.WbitsSeg(rb, q1, sub), ROWS * rb + lane, 2 + 4 * sub;
    assert s[4 * lane] == q.Byte(row, q1, j) && s[4 * lane + 1] == q.Byte(row, q1, j + 1)
           && s[4 * lane + 2] == q.Byte(row, q1, j + 2) && s[4 * lane + 3] == q.Byte(row, q1, j + 3);
    ByteIs(q, row, q1, j);
    ByteIs(q, row, q1, j + 1);
    ByteIs(q, row, q1, j + 2);
    ByteIs(q, row, q1, j + 3);
  }

  lemma SliceU16(s: seq<byte>, at: nat, i: nat)
    requires at + 8 <= |s| && i < 4
    ensures U16(s[at..at + 8], 2 * i) == U16(s, at + 2 * i)
  {
  }

  lemma SliceU32(s: seq<byte>, at: nat, i: nat)
    requires at + 8 <= |s| && i < 2
    ensures U32(s[at..at + 8], 4 * i) == U32(s, at + 4 * i)
  {
  }

  function ScaleSum(seg: seq<byte>, n: nat): nat
    requires |seg| == 8 && n <= 4
  {
    if n == 0 then 0 else ScaleSum(seg, n - 1) + Shift16(U16(seg, 2 * (n - 1)), n - 1)
  }

  function WbitsSum(seg: seq<byte>, n: nat): nat
    requires |seg| == 8 && n <= 2
  {
    if n == 0 then 0 else WbitsSum(seg, n - 1) + Shift32(U32(seg, 4 * (n - 1)), n - 1)
  }

  lemma ScaleSumBytes(seg: seq<byte>)
    requires |seg| == 8
    ensures LeBytes(ScaleSum(seg, 4), 8) == seg
  {
    hide U16, LeBytes;
    ScaleBeat(seg);
    assert ScaleSum(seg, 1) == U16(seg, 0);
    assert ScaleSum(seg, 2) == ScaleSum(seg, 1) + 0x1_0000 * U16(seg, 2);
    assert ScaleSum(seg, 3) == ScaleSum(seg, 2) + 0x1_0000_0000 * U16(seg, 4);
    assert ScaleSum(seg, 4) == ScaleSum(seg, 3) + 0x1_0000_0000_0000 * U16(seg, 6);
  }

  lemma WbitsSumBytes(seg: seq<byte>)
    requires |seg| == 8
    ensures LeBytes(WbitsSum(seg, 2), 8) == seg
  {
    hide U32, LeBytes;
    WbitsBeat(seg);
    assert WbitsSum(seg, 1) == U32(seg, 0);
  }

  /** One beat of four scales, lane by lane; lanes past row_count stay zero. */
  method ScaleWord(q: Q1, rb: nat, q1: nat, beat: nat) returns (b: seq<byte>)
    requires q.Valid() && q1 < q.bpr && beat < 2
    ensures b == q.ScaleSeg(rb, q1)[8 * beat..8 * beat + 8]
  {
    hide Q1.ScaleSeg, U16, Q1.Off, LeBytes, Shift16, Q1.Valid;
    ghost var all := q.ScaleSeg(rb, q1);
    ghost var seg := all[8 * beat..8 * beat + 8];
    var rowStart := rb * ROWS;
    var rowCount := if q.rows < rowStart + ROWS then q.rows - rowStart else ROWS;
    var word := 0;
    for local := 0 to 4
      invariant word == ScaleSum(seg, local)
    {
      var lane := beat * 4 + local;
      LaneScaleInSeg(q, rb, q1, lane);
      SliceU16(all, 8 * beat, local);
      var scale := if lane < rowCount then LaneScale(q, rowStart + lane, q1) else 0;
      word := word + Shift16(scale, local);
    }
    ScaleSumBytes(seg);
    b := LeBytes(word, 8);
  }

  /** One beat of two 32-bit weight words. */
  method WbitsWord(q: Q1, rb: nat, q1: nat, sub: nat, beat: nat) returns (b: seq<byte>)
    requires q.Valid() && q1 < q.bpr && sub < SUBS && beat < 4
    ensures b == q.WbitsSeg(rb, q1, sub)[8 * beat..8 * beat + 8]
  {
    hide Q1.WbitsSeg, U32, Q1.Off, LeBytes, Shift32, Q1.Valid;
    ghost var all := q.WbitsSeg(rb, q1, sub);
    ghost var seg := all[8 * beat..8 * beat + 8];
    var rowStart := rb * ROWS;
    var rowCount := if q.rows < rowStart + ROWS then q.rows - rowStart else ROWS;
    var word := 0;
    for local := 0 to 2
      invariant word == WbitsSum(seg, local)
    {
      var lane := beat * 2 + local;
      LaneBitsInSeg(q, rb, q1, sub, lane);
      SliceU32(all, 8 * beat, local);
      var bits := if lane < rowCount then LaneBits(q, rowStart + lane, q1, sub) else 0;
      word := word + Shift32(bits, local);
    }
    WbitsSumBytes(seg);
    b := LeBytes(word, 8);
  }

  method PackScales(q: Q1, rb: nat, q1: nat) returns (b: seq<byte>)
    requires q.Valid() && q1 < q.bpr
    ensures b == q.ScaleSeg(rb, q1)
  {
    hide Q1.ScaleSeg;
    b := [];
    for beat := 0 to 2
      invariant b == q.ScaleSeg(rb, q1)[..8 * beat]
    {
      var w := ScaleWord(q, rb, q1, beat);
      b := b + w;
    }
  }

  method PackWbits(q: Q1, rb: nat, q1: nat, sub: nat) returns (b: seq<byte>)
    requires q.Valid() && q1 < q.bpr && sub < SUBS
    ensures b == q.WbitsSeg(rb, q1, sub)
  {
    hide Q1.WbitsSeg;
    b := [];
    for beat := 0 to 4
      invariant b == q.WbitsSeg(rb, q1, sub)[..8 * beat]
    {
      var w := WbitsWord(q, rb, q1, sub, beat);
      b := b + w;
    }
  }

  method PackBlock(q: Q1, rb: nat, q1: nat) returns (b: seq<byte>)
    requires q.Valid() && q1 < q.bpr
    ensures b == q.Block(rb, q1)
  {
    hide Q1.ScaleSeg, Q1.WbitsSeg;
    b := PackScales(q, rb, q1);
    for sub := 0 to SUBS
      invariant b == q.Block(rb, q1)[..SCALES_BYTES + WBITS_BYTES * sub]
    {
      var w := PackWbits(q, rb, q1, sub);
      assert q.Block(rb, q1)[SCALES_BYTES + WBITS_BYTES * sub..SCALES_BYTES + WBITS_BYTES * (sub + 1)] == w;
      b := b + w;
    }
  }

  /** Repack a row-major tensor; -2 and -3 are the argument errors. */
  method PackWeights(w: seq<byte>, rows: nat, k: nat) returns (rc: int, out: seq<byte>)
    requires |w| >= Q1_BYTES * (rows * (k / Q1_BLOCK))
    ensures rc == if k == 0 || k % Q1_BLOCK != 0 then -2 else if rows == 0 then -3 else 0
    ensures rc == 0 ==> k / Q1_BLOCK > 0 && out == Q1(rows, k / Q1_BLOCK, w).Packed(Rowblocks(rows) * (k / Q1_BLOCK))
    ensures rc == 0 ==> |out| == PACKED * (Rowblocks(rows) * (k / Q1_BLOCK))
  {
    hide Q1.Block, Q1.Valid;
    out := [];
    if k == 0 || k % Q1_BLOCK != 0 {
      return -2, out;
    }
    if rows == 0 {
      return -3, out;
    }
    var q := Q1(rows, k / Q1_BLOCK, w);
    ValidHere(q);
    var bpr := q.bpr;
    for rb := 0 to Rowblocks(rows)
      invariant out == q.Packed(rb * bpr)
    {
      for q1 := 0 to bpr
        invariant out == q.Packed(rb * bpr + q1)
      {
        SplitIndex(rb, q1, bpr);
        var b := PackBlock(q, rb, q1);
        out := out + b;
      }
      assert (rb + 1) * bpr == rb * bpr + bpr;
    }
    rc := 0;
  }

  lemma ValidHere(q: Q1)
    requires |q.w| >= Q1_BYTES * (q.rows * q.bpr)
    ensures q.Valid()
  {
  }

  // ----- the merged stream -----

  /** One column's quantized activations: k bytes and an fp16 scale per 32 of them. */
  datatype Acts = Acts(quants: seq<byte>, scales: seq<nat>)
  {
    predicate Valid(bpr: nat)
    {
      |quants| == Q1_BLOCK * bpr && |scales| == SUBS * bpr
    }

    /** Activations and scale beat of one sub-block. */
    function Sub(bpr: nat, q1: nat, sub: nat): (s: seq<byte>)
      requires Valid(bpr) && q1 < bpr && sub < SUBS
      ensures |s| == Q8_BLOCK + 8
    {
      var at := Q1_BLOCK * q1 + Q8_BLOCK * sub;
      quants[at..at + Q8_BLOCK] + LeBytes(scales[SUBS * q1 + sub], 8)
    }
  }

  const ACTS_SUB: nat := 40
  const ACTS_BLOCK: nat := 160

  /** The first n sub-blocks of one block of the separate activation stream. */
  function ActSubs(a: Acts, bpr: nat, q1: nat, n: nat): (s: seq<byte>)
    requires a.Valid(bpr) && q1 < bpr && n <= SUBS
    ensures |s| == ACTS_SUB * n
  {
    if n == 0 then [] else ActSubs(a, bpr, q1, n - 1) + a.Sub(bpr, q1, n - 1)
  }

  /** The activation stream of the first n blocks. */
  function ActStream(a: Acts, bpr: nat, n: nat): (s: seq<byte>)
    requires a.Valid(bpr) && n <= bpr
    ensures |s| == ACTS_BLOCK * n
  {
    if n == 0 then [] else ActStream(a, bpr, n - 1) + ActSubs(a, bpr, n - 1, SUBS)
  }

  lemma {:induction false} ActSubAt(a: Acts, bpr: nat, q1: nat, n: nat, sub: nat)
    requires a.Valid(bpr) && q1 < bpr && sub < n <= SUBS
    ensures ActSubs(a, bpr, q1, n)[ACTS_SUB * sub..ACTS_SUB * sub + ACTS_SUB] == a.Sub(bpr, q1, sub)
  {
    hide Acts.Sub, Acts.Valid;
    if sub < n - 1 {
      ActSubAt(a, bpr, q1, n - 1, sub);
      SliceInit(ActSubs(a, bpr, q1, n - 1), a.Sub(bpr, q1, n - 1), ACTS_SUB * sub, ACTS_SUB * sub + ACTS_SUB);
    }
  }

  lemma {:induction false} ActBlockAt(a: Acts, bpr: nat, n: nat, q1: nat)
    requires a.Valid(bpr) && q1 < n <= bpr
    ensures ActStream(a, bpr, n)[ACTS_BLOCK * q1..ACTS_BLOCK * q1 + ACTS_BLOCK] == ActSubs(a, bpr, q1, SUBS)
  {
    hide ActSubs, Acts.Valid;
    if q1 < n - 1 {
      ActBlockAt(a, bpr, n - 1, q1);
      SliceInit(ActStream(a, bpr, n - 1), ActSubs(a, bpr, n - 1, SUBS), ACTS_BLOCK * q1, ACTS_BLOCK * q1 + ACTS_BLOCK);
    }
  }

  /** Where the kernel finds a sub-block's activations and scale in the separate stream. */
  lemma ActStreamReads(a: Acts, bpr: nat, q1: nat, sub: nat)
    requires a.Valid(bpr) && q1 < bpr && sub < SUBS
    ensures
      var at := ACTS_BLOCK * q1 + ACTS_SUB * sub;
      at + ACTS_SUB <= |ActStream(a, bpr, bpr)| && ActStream(a, bpr, bpr)[at..at + ACTS_SUB] == a.Sub(bpr, q1, sub)
  {
    hide ActStream, ActSubs, Acts.Sub, Acts.Valid;
    ActBlockAt(a, bpr, bpr, q1);
    ActSubAt(a, bpr, q1, SUBS, sub);
    SliceTwice(ActStream(a, bpr, bpr), ACTS_BLOCK * q1, ACTS_BLOCK, ACTS_SUB * sub, ACTS_SUB);
  }

  lemma SliceTwice<T>(s: seq<T>, lo: nat, n: nat, i: nat, m: nat)
    requires lo + n <= |s| && i + m <= n
    ensures s[lo..lo + n][i..i + m] == s[lo + i..lo + i + m]
  {
    var t := s[lo..lo + n];
    var x, y := t[i..i + m], s[lo + i..lo + i + m];
    forall k | 0 <= k < m ensures x[k] == y[k] {
      assert x[k] == t[i + k] == s[lo + (i + k)];
    }
  }

  method PackActs(a: Acts, k: nat) returns (rc: int, out: seq<byte>)
    requires a.Valid(k / Q1_BLOCK)
    ensures rc == if k == 0 || k % Q1_BLOCK != 0 then -2 else 0
    ensures rc == 0 ==> out == ActStream(a, k / Q1_BLOCK, k / Q1_BLOCK) && |out| == ACTS_BLOCK * (k / Q1_BLOCK)
  {
    hide Acts.Valid, LeBytes;
    out := [];
    if k == 0 || k % Q1_BLOCK != 0 {
      return -2, out;
    }
    var bpr := k / Q1_BLOCK;
    for q1 := 0 to bpr
      invariant out == ActStream(a, bpr, q1)
    {
      for sub := 0 to SUBS
        invariant out == ActStream(a, bpr, q1) + ActSubs(a, bpr, q1, sub)
      {
        var s := ActBeat(a, bpr, q1, sub);
        Concat3(ActStream(a, bpr, q1), ActSubs(a, bpr, q1, sub), s);
        out := out + s;
      }
    }
    rc := 0;
  }

  method ActBeat(a: Acts, bpr: nat, q1: nat, sub: nat) returns (s: seq<byte>)
    requires a.Valid(bpr) && q1 < bpr && sub < SUBS
    ensures s == a.Sub(bpr, q1, sub)
  {
    hide LeBytes;
    var index := q1 * SUBS + sub;
    s := a.quants[index * Q8_BLOCK..index * Q8_BLOCK + Q8_BLOCK];
    s := s + LeBytes(a.scales[index], 8);
  }

  function MergedSub(b: seq<byte>, a: Acts, bpr: nat, q1: nat, sub: nat): seq<byte>
    requires |b| == PACKED && a.Valid(bpr) && q1 < bpr && sub < SUBS
  {
    a.Sub(bpr, q1, sub) + b[SCALES_BYTES + WBITS_BYTES * sub..SCALES_BYTES + WBITS_BYTES * sub + WBITS_BYTES]
  }

  /** The first n sub-blocks of a merged block. */
  function MergedSubs(b: seq<byte>, a: Acts, bpr: nat, q1: nat, n: nat): seq<byte>
    requires |b| == PACKED && a.Valid(bpr) && q1 < bpr && n <= SUBS
  {
    if n == 0 then [] else MergedSubs(b, a, bpr, q1, n - 1) + MergedSub(b, a, bpr, q1, n - 1)
  }

  function Merged(packed: seq<byte>, a: Acts, bpr: nat, n: nat): seq<byte>
    requires bpr > 0 && a.Valid(bpr) && |packed| >= PACKED * n
  {
    if n == 0 then []
    else
      var b := packed[PACKED * (n - 1)..PACKED * (n - 1) + PACKED];
      Merged(packed, a, bpr, n - 1) + (b[..SCALES_BYTES] + MergedSubs(b, a, bpr, (n - 1) % bpr, SUBS))
  }

  /** The stream as the direct packer describes it, from the row-major weights. */
  function StreamSubs(q: Q1, a: Acts, rb: nat, q1: nat, n: nat): seq<byte>
    requires q.Valid() && a.Valid(q.bpr) && q1 < q.bpr && n <= SUBS
  {
    if n == 0 then [] else StreamSubs(q, a, rb, q1, n - 1) + (a.Sub(q.bpr, q1, n - 1) + q.WbitsSeg(rb, q1, n - 1))
  }

  function Stream(q: Q1, a: Acts, n: nat): (s: seq<byte>)
    requires q.Valid() && q.bpr > 0 && a.Valid(q.bpr)
    ensures |s| == STREAM * n
  {
    if n == 0 then []
    else
      var rb, q1 := (n - 1) / q.bpr, (n - 1) % q.bpr;
      StreamLength(q, a, rb, q1, SUBS);
      Stream(q, a, n - 1) + (q.ScaleSeg(rb, q1) + StreamSubs(q, a, rb, q1, SUBS))
  }

  lemma {:induction false} StreamLength(q: Q1, a: Acts, rb: nat, q1: nat, n: nat)
    requires q.Valid() && a.Valid(q.bpr) && q1 < q.bpr && n <= SUBS
    ensures |StreamSubs(q, a, rb, q1, n)| == 72 * n
  {
    hide Q1.WbitsSeg, Acts.Sub, Q1.Valid;
    if n > 0 {
      StreamLength(q, a, rb, q1, n - 1);
    }
  }

  method MergeActs(packed: seq<byte>, a: Acts, rows: nat, k: nat) returns (rc: int, out: seq<byte>)
    requires a.Valid(k / Q1_BLOCK) && |packed| >= PACKED * (Rowblocks(rows) * (k / Q1_BLOCK))
    ensures rc == if k == 0 || k % Q1_BLOCK != 0 then -2 else if rows == 0 then -3 else 0
    ensures rc == 0 ==> k / Q1_BLOCK > 0 && out == Merged(packed, a, k / Q1_BLOCK, Rowblocks(rows) * (k / Q1_BLOCK))
  {
    hide Acts.Valid, MergedSub;
    out := [];
    if k == 0 || k % Q1_BLOCK != 0 {
      return -2, out;
    }
    if rows == 0 {
      return -3, out;
    }
    var bpr, p := k / Q1_BLOCK, 0;
    for rb := 0 to Rowblocks(rows)
      invariant p == PACKED * (rb * bpr) <= |packed| && out == Merged(packed, a, bpr, rb * bpr)
    {
      for q1 := 0 to bpr
        invariant p == PACKED * (rb * bpr + q1) <= |packed| && out == Merged(packed, a, bpr, rb * bpr + q1)
      {
        BlockIndex(rb, q1, Rowblocks(rows), bpr);
        SplitIndex(rb, q1, bpr);
        var m := MergeBlock(packed[p..p + PACKED], a, bpr, q1);
        out := out + m;
        p := p + PACKED;
      }
      assert (rb + 1) * bpr == rb * bpr + bpr;
    }
    rc := 0;
  }

  /** One block: copy scales, then interleave activations with the weight bits. */
  method MergeBlock(b: seq<byte>, a: Acts, bpr: nat, q1: nat) returns (out: seq<byte>)
    requires |b| == PACKED && a.Valid(bpr) && q1 < bpr
    ensures out == b[..SCALES_BYTES] + MergedSubs(b, a, bpr, q1, SUBS)
  {
    hide LeBytes, Acts.Sub, MergedSub;
    out := b[..SCALES_BYTES];
    for sub := 0 to SUBS
      invariant out == b[..SCALES_BYTES] + MergedSubs(b, a, bpr, q1, sub)
    {
      var m := MergeSub(b, a, bpr, q1, sub);
      Concat3(b[..SCALES_BYTES], MergedSubs(b, a, bpr, q1, sub), m);
      out := out + m;
    }
  }

  method MergeSub(b: seq<byte>, a: Acts, bpr: nat, q1: nat, sub: nat) returns (out: seq<byte>)
    requires |b| == PACKED && a.Valid(bpr) && q1 < bpr && sub < SUBS
    ensures out == MergedSub(b, a, bpr, q1, sub)
  {
    hide LeBytes;
    var at := q1 * Q1_BLOCK + sub * Q8_BLOCK;
    ScaleIndex(q1, sub);
    out := a.quants[at..at + Q8_BLOCK];
    out := out + LeBytes(a.scales[at / Q8_BLOCK], 8);
    out := out + b[SCALES_BYTES + WBITS_BYTES * sub..SCALES_BYTES + WBITS_BYTES * sub + WBITS_BYTES];
  }

  lemma ScaleIndex(q1: nat, sub: nat)
    ensures (q1 * Q1_BLOCK + sub * Q8_BLOCK) / Q8_BLOCK == SUBS * q1 + sub
  {
  }

  lemma Concat3<T>(a: seq<T>, b: seq<T>, c: seq<T>)
    ensures (a + b) + c == a + (b + c)
  {
  }

  /** The direct packer, one column: rowblock by rowblock from the row-major weights. */
  method PackStream(q: Q1, a: Acts) returns (out: seq<byte>)
    requires q.Valid() && q.bpr > 0 && a.Valid(q.bpr)
    ensures out == Stream(q, a, q.Total())
  {
    hide Q1.Valid, Acts.Valid, StreamSubs, Q1.ScaleSeg;
    out := [];
    for rb := 0 to Rowblocks(q.rows)
      invariant out == Stream(q, a, rb * q.bpr)
    {
      for q1 := 0 to q.bpr
        invariant out == Stream(q, a, rb * q.bpr + q1)
      {
        SplitIndex(rb, q1, q.bpr);
        var b := StreamBlock(q, a, rb, q1);
        out := out + b;
      }
      assert (rb + 1) * q.bpr == rb * q.bpr + q.bpr;
    }
  }

  /** All columns, one stream after the other. */
  function Streams(q: Q1, cols: seq<Acts>): (s: seq<byte>)
    requires q.Valid() && q.bpr > 0 && forall c :: 0 <= c < |cols| ==> cols[c].Valid(q.bpr)
    ensures |s| == StreamBytes(q, |cols|)
  {
    if cols == [] then [] else Streams(q, cols[..|cols| - 1]) + Stream(q, cols[|cols| - 1], q.Total())
  }

  function StreamBytes(q: Q1, cols: nat): nat
  {
    if cols == 0 then 0 else StreamBytes(q, cols - 1) + STREAM * q.Total()
  }

  /** The whole matmul's stream, or why there is none. */
  method PackMatmulStream(w: seq<byte>, cols: seq<Acts>, rows: nat, k: nat) returns (rc: int, out: seq<byte>)
    requires |w| >= Q1_BYTES * (rows * (k / Q1_BLOCK)) && forall c :: 0 <= c < |cols| ==> cols[c].Valid(k / Q1_BLOCK)
    ensures rc == if rows == 0 || cols == [] then -1 else if k == 0 || k % Q1_BLOCK != 0 then -2 else 0
    ensures rc == 0 ==> k / Q1_BLOCK > 0 && out == Streams(Q1(rows, k / Q1_BLOCK, w), cols)
  {
    hide Acts.Valid, Stream, StreamBytes;
    out := [];
    if rows == 0 || cols == [] {
      return -1, out;
    }
    if k == 0 || k % Q1_BLOCK != 0 {
      return -2, out;
    }
    var q := Q1(rows, k / Q1_BLOCK, w);
    for col := 0 to |cols|
      invariant out == Streams(q, cols[..col])
    {
      var s := PackStream(q, cols[col]);
      assert cols[..col + 1][..col] == cols[..col];
      out := out + s;
    }
    assert cols[..|cols|] == cols;
    return 0, out;
  }

  method StreamBlock(q: Q1, a: Acts, rb: nat, q1: nat) returns (out: seq<byte>)
    requires q.Valid() && a.Valid(q.bpr) && q1 < q.bpr
    ensures out == q.ScaleSeg(rb, q1) + StreamSubs(q, a, rb, q1, SUBS)
  {
    hide Q1.ScaleSeg, Q1.WbitsSeg, Acts.Sub;
    out := PackScales(q, rb, q1);
    ghost var head := out;
    for sub := 0 to SUBS
      invariant out == head + StreamSubs(q, a, rb, q1, sub)
    {
      var acts := ActBytes(q, a, q1, sub);
      var bits := PackWbits(q, rb, q1, sub);
      Concat3(head, StreamSubs(q, a, rb, q1, sub), acts + bits);
      out := out + (acts + bits);
    }
  }

  /** Four beats of eight activations, each beat assembled as a word, then the scale beat. */
  method ActBytes(q: Q1, a: Acts, q1: nat, sub: nat) returns (out: seq<byte>)
    requires a.Valid(q.bpr) && q1 < q.bpr && sub < SUBS
    ensures out == a.Sub(q.bpr, q1, sub)
  {
    hide LeBytes, Value;
    var at := q1 * Q1_BLOCK + sub * Q8_BLOCK;
    ScaleIndex(q1, sub);
    out := [];
    for beat := 0 to 4
      invariant out == a.quants[at..at + 8 * beat]
    {
      var b := a.quants[at + beat * 8..at + beat * 8 + 8];
      LeOfNat(b);
      out := out + LeBytes(Value(b), 8);
    }
    out := out + LeBytes(a.scales[at / Q8_BLOCK], 8);
  }

  lemma {:induction false} SubsAgree(q: Q1, a: Acts, rb: nat, q1: nat, n: nat)
    requires q.Valid() && a.Valid(q.bpr) && q1 < q.bpr && n <= SUBS
    ensures MergedSubs(q.Block(rb, q1), a, q.bpr, q1, n) == StreamSubs(q, a, rb, q1, n)
  {
    hide Q1.ScaleSeg, Q1.WbitsSeg, Acts.Sub;
    if n > 0 {
      SubsAgree(q, a, rb, q1, n - 1);
      var b, sub := q.Block(rb, q1), n - 1;
      forall i | 0 <= i < WBITS_BYTES
        ensures b[SCALES_BYTES + WBITS_BYTES * sub + i] == q.WbitsSeg(rb, q1, sub)[i]
      {
        BlockWbits(q, rb, q1, sub, i);
      }
      assert b[SCALES_BYTES + WBITS_BYTES * sub..SCALES_BYTES + WBITS_BYTES * sub + WBITS_BYTES]
          == q.WbitsSeg(rb, q1, sub);
    }
  }

  /** Packing and then merging is the direct packer, byte for byte, at every length. */
  lemma {:induction false} MergeOfPack(q: Q1, a: Acts, total: nat, n: nat)
    requires q.Valid() && q.bpr > 0 && a.Valid(q.bpr) && n <= total
    ensures |q.Packed(total)| >= PACKED * n && Merged(q.Packed(total), a, q.bpr, n) == Stream(q, a, n)
  {
    hide Q1.Block, StreamSubs, MergedSubs, Q1.ScaleSeg, Q1.Packed, Q1.Valid, Acts.Valid;
    if n > 0 {
      MergeOfPack(q, a, total, n - 1);
      var rb, q1 := (n - 1) / q.bpr, (n - 1) % q.bpr;
      PackedAt(q, total, n - 1);
      SubsAgree(q, a, rb, q1, SUBS);
      BlockHead(q, rb, q1);
      var b := q.Packed(total)[PACKED * (n - 1)..PACKED * (n - 1) + PACKED];
      assert b == q.Block(rb, q1);
    }
  }

  lemma BlockHead(q: Q1, rb: nat, q1: nat)
    requires q.Valid() && q1 < q.bpr
    ensures q.Block(rb, q1)[..SCALES_BYTES] == q.ScaleSeg(rb, q1)
  {
    hide Q1.ScaleSeg, Q1.WbitsSeg;
  }
}

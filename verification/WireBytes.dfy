/**
 The bytes on the wire, in plain numbers: the chip cycles of a tile (TileBytes), the 'M' frame
 of a plan (FrameBytes), and what each bit of the chip's status means (StatusBits).
 */
module WireBytes {
  import opened Common
  import opened Chip
  import opened Protocol
  import opened Firmware
  import opened Link

  /** An integer as an unsigned byte. */
  function Unsigned8(v: int): byte
    requires -128 <= v < 128
  {
    if v < 0 then v + 256 else v
  }

  function Unsigned16(v: int): (u: nat)
    requires -32768 <= v < 32768
    ensures u < 65536
  {
    if v < 0 then v + 65536 else v
  }

  function Clear(): seq<Cycle> { [Cycle(0x01, 0), Cycle(0x07, 0)] }

  function Load(t: Tile): seq<Cycle>
    requires t.Valid()
  {
    [Cycle(0x02, t.w0), Cycle(0x0A, t.w1), Cycle(0x03, Unsigned8(t.a0)), Cycle(0x0B, Unsigned8(t.a1))]
  }

  function Seed(t: Tile): seq<Cycle>
    requires t.Valid()
  {
    [Cycle(0x04, Unsigned16(t.seed0) % 256), Cycle(0x14, Unsigned16(t.seed0) / 256),
     Cycle(0x0C, Unsigned16(t.seed1) % 256), Cycle(0x1C, Unsigned16(t.seed1) / 256)]
  }

  function Fire(): seq<Cycle>
  {
    [Cycle(0x05, 0), Cycle(0x07, 0), Cycle(0x07, 0), Cycle(0x07, 0), Cycle(0x07, 0), Cycle(0x07, 0), Cycle(0x07, 0),
     Cycle(0x07, 0)]
  }

  function ReadBack(): seq<Cycle> { [Cycle(0x06, 0), Cycle(0x16, 0), Cycle(0x0E, 0), Cycle(0x1E, 0)] }

  /**
   A run head clears and seeds; weights and activations come in between; one START and seven
   NOPs fire; a run tail reads the four result bytes, low before high, row by row.
   */
  lemma TileBytes(t: Tile)
    requires t.Valid()
    ensures TileCycles(t) ==
      (if t.starts then Clear() else []) + Load(t) + (if t.starts then Seed(t) else []) + Fire() +
      (if t.ends then ReadBack() else [])
  {
    hide *;
    LoadBytes(t);
    SeedBytes(t);
    FixedBytes();
    var head, seed := if t.starts then Clear() else [], if t.starts then Seed(t) else [];
    var tail := if t.ends then ReadBack() else [];
    Assoc(head, LdwSeg(t), LdaSeg(t));
    TileParts(t, head, seed, tail);
  }

  lemma TileParts(t: Tile, head: seq<Cycle>, seed: seq<Cycle>, tail: seq<Cycle>)
    requires head == (if t.starts then HeadSeg() else []) && seed == (if t.starts then SeedSeg(t) else [])
    requires tail == (if t.ends then RdpSeg() else [])
    ensures TileCycles(t) == head + LdwSeg(t) + LdaSeg(t) + seed + FireSeg() + tail
  {
    hide HeadSeg, LdwSeg, LdaSeg, SeedSeg, FireSeg, RdpSeg, TileCyclesFor;
  }

  lemma BytesOf(a: int, s: int)
    requires -128 <= a < 128 && -32768 <= s < 32768
    ensures a % 256 == Unsigned8(a)
    ensures ByteOf(s, 0) == Unsigned16(s) % 256 && ByteOf(s, 1) == Unsigned16(s) / 256
  {
  }

  lemma LoadBytes(t: Tile)
    requires t.Valid()
    ensures LdwSeg(t) + LdaSeg(t) == Load(t)
  {
    BytesOf(t.a0, 0);
    BytesOf(t.a1, 0);
    hide Unsigned8;
  }

  lemma SeedBytes(t: Tile)
    requires t.Valid()
    ensures SeedSeg(t) == Seed(t)
  {
    BytesOf(0, t.seed0);
    BytesOf(0, t.seed1);
    hide ByteOf, Unsigned16;
    SeedCycles(Unsigned16(t.seed0) % 256, Unsigned16(t.seed0) / 256, Unsigned16(t.seed1) % 256,
               Unsigned16(t.seed1) / 256);
  }

  lemma SeedCycles(b0: byte, b1: byte, b2: byte, b3: byte)
    ensures RowBytes(CMD_SEED, b0, b1, b2, b3) == [Cycle(0x04, b0), Cycle(0x14, b1), Cycle(0x0C, b2), Cycle(0x1C, b3)]
  {
    PinsOf(CMD_SEED, 0, 0);
    PinsOf(CMD_SEED, 0, 1);
    PinsOf(CMD_SEED, 1, 0);
    PinsOf(CMD_SEED, 1, 1);
    hide PackUi, RowByteArg;
  }

  lemma PinsOf(cmd: nat, row: nat, b: nat)
    requires cmd < 8 && row < 2 && b < 2
    ensures PackUi(cmd, RowByteArg(row, b)) == cmd + 8 * row + 16 * b
  {
    SmallMod(row, 2);
    SmallMod(row + 2 * b, 32);
  }

  lemma FixedBytes()
    ensures HeadSeg() == Clear() && FireSeg() == Fire() && RdpSeg() == ReadBack()
  {
  }

  /** 'M', the tile count in four bytes, then three bytes to a tile. */
  lemma FrameBytes(ops: seq<Tile>, i: nat)
    requires i < |ops| < 0x1_0000_0000 && ops[i].Valid() && ops[i].w0 < 4 && ops[i].w1 < 4
    ensures var f, n, t := Frame(ops), |ops|, ops[i];
      && |f| == 5 + 3 * n
      && f[..5] == [0x4D, n % 256, n / 0x100 % 256, n / 0x1_0000 % 256, n / 0x100_0000]
      && f[5 + 3 * i..8 + 3 * i] ==
         [Unsigned8(t.a0), Unsigned8(t.a1),
          t.w0 + 4 * t.w1 + (if t.starts then 16 else 0) + (if t.ends then 32 else 0)]
  {
    EncodedAt(ops, i);
    BytesOf(ops[i].a0, 0);
    BytesOf(ops[i].a1, 0);
    CountBytes(|ops|);
    DescriptorBytes(ops[i]);
    hide Encoded, LeBytes, Descriptor, Unsigned8;
    var f := Frame(ops);
    assert f[5..] == Encoded(ops);
    assert f[5 + 3 * i..8 + 3 * i] == f[5..][3 * i..3 * i + 3];
  }

  lemma CountBytes(n: nat)
    requires n < 0x1_0000_0000
    ensures LeBytes(n, 4) == [n % 256, n / 0x100 % 256, n / 0x1_0000 % 256, n / 0x100_0000]
  {
    var n1, n2, n3 := n / 256, n / 256 / 256, n / 256 / 256 / 256;
    assert n2 == n / 0x1_0000 && n3 == n / 0x100_0000 < 256;
    assert LeBytes(n3, 1) == [n3 % 256] + LeBytes(n3 / 256, 0) == [n3];
    assert LeBytes(n2, 2) == [n2 % 256] + LeBytes(n3, 1);
    assert LeBytes(n1, 3) == [n1 % 256] + LeBytes(n2, 2);
    assert LeBytes(n, 4) == [n % 256] + LeBytes(n1, 3);
  }

  lemma DescriptorBytes(t: Tile)
    requires t.Valid() && t.w0 < 4 && t.w1 < 4
    ensures Descriptor(t) ==
      [t.a0 % 256, t.a1 % 256, t.w0 + 4 * t.w1 + (if t.starts then 16 else 0) + (if t.ends then 32 else 0)]
  {
  }

  /** Bit by bit: busy, done, weights loaded, all sums in, ready to start, stable, error. */
  lemma StatusBits(s: State)
    ensures var st := Status(s);
      && (st % 2 == 1 <==> !s.phase.Idle?) && (st / 2 % 2 == 1 <==> s.done) && (st / 4 % 2 == 1 <==> s.weightDone)
      && (st / 8 % 2 == 1 <==> s.got0 && s.got1) && (st / 16 % 2 == 1 <==> s.phase.Idle?)
      && (st / 32 % 2 == 1 <==> s.phase.Idle?) && (st / 64 % 2 == 1 <==> s.error) && st < 128
  {
    var idle, error := Weight(s.phase.Idle?), Weight(s.error);
    var b0, b1, b2, b3 := Weight(!s.phase.Idle?), Weight(s.done), Weight(s.weightDone), Weight(s.got0 && s.got1);
    var x5 := idle + 2 * error;
    var x4 := idle + 2 * x5;
    var x3 := b3 + 2 * x4;
    var x2 := b2 + 2 * x3;
    var x1 := b1 + 2 * x2;
    var st := Status(s);
    assert st == b0 + 2 * x1;
    assert st / 2 == x1 && x1 / 2 == x2 && x2 / 2 == x3 && x3 / 2 == x4 && x4 / 2 == x5 && x5 / 2 == error;
    assert st / 4 == x2 && st / 8 == x3 && st / 16 == x4 && st / 32 == x5 && st / 64 == error;
  }

  /** 'X', the count one, then the two input bytes of a cycle. */
  lemma PairBytes(c: Cycle)
    ensures PairFrame(c) == [0x58, 1, 0, 0, 0, c.ui, c.uio]
  {
    CountBytes(1);
    hide LeBytes;
  }

  /** Which mode a header letter starts: M and X take a body of n, five lead away, the rest are ignored. */
  lemma ModeLetters(m: byte, n: nat)
    ensures ModeOf(m, n) ==
      if m == 'M' as int then Macro(n)
      else if m == 'X' as int then Raw(n)
      else if m in {'a' as int, 'd' as int, 'B' as int, 'F' as int, 'L' as int} then Away
      else Header
  {
  }
}

/**
 The chip-cycle protocol of one matmul tile and of a plan of tiles: the layout that
 both the host encoder and the firmware macro have to produce, and what a plan
 means on the chip.

 PlanLaw is the bridge between the two: driving the cycles of any plan through the
 tile leaves in each accumulator the wrapped sum of the dot products since the last
 run head, and the bytes read back at every run tail are exactly the bytes of that
 sum.
 */
module Protocol {
  import opened Common
  import opened Chip

  const PAD_CYCLES: nat := 6
  const PSUM_BYTES: nat := 2

  /** One K-tile: packed weight bits and seed per array row, activations per lane. */
  datatype Tile = Tile(w0: byte, w1: byte, a0: int, a1: int, seed0: int, seed1: int,
                       starts: bool, ends: bool)
  {
    predicate Valid()
    {
      -128 <= a0 < 128 && -128 <= a1 < 128 && -32768 <= seed0 < 32768 && -32768 <= seed1 < 32768
    }

    /** Encodable in a 3-byte descriptor without loss. */
    predicate OnWire()
    {
      Valid() && w0 < 4 && w1 < 4 && seed0 == 0 && seed1 == 0
    }

    function W(row: nat): byte { if row == 0 then w0 else w1 }
    function A(lane: nat): int { if lane == 0 then a0 else a1 }
    function Seed(row: nat): int { if row == 0 then seed0 else seed1 }
  }

  function PackUi(cmd: nat, arg: nat): byte
    requires cmd < 8
  {
    cmd + 8 * (arg % 32)
  }

  function RowByteArg(row: nat, b: nat): nat
  {
    row % 2 + 2 * b
  }

  function TileCyclesFor(starts: bool, ends: bool): nat
  {
    (if starts then 2 + ROWS * PSUM_BYTES else 0)
    + ROWS + COLS + 2 + PAD_CYCLES
    + (if ends then ROWS * PSUM_BYTES else 0)
  }

  // ----- the cycle layout, segment by segment -----

  function HeadSeg(): (cs: seq<Cycle>)
    ensures |cs| == 2
  {
    [Cycle(PackUi(CMD_CLEAR, 0), 0), NOP]
  }

  function LdwSeg(t: Tile): (cs: seq<Cycle>)
    ensures |cs| == 2
  {
    [Cycle(PackUi(CMD_LDW, 0), t.w0), Cycle(PackUi(CMD_LDW, 1), t.w1)]
  }

  function LdaSeg(t: Tile): (cs: seq<Cycle>)
    ensures |cs| == 2
  {
    [Cycle(PackUi(CMD_LDA, 0), t.a0 % 256), Cycle(PackUi(CMD_LDA, 1), t.a1 % 256)]
  }

  function RowBytes(cmd: nat, b0: byte, b1: byte, b2: byte, b3: byte): (cs: seq<Cycle>)
    requires cmd < 8
    ensures |cs| == 4
  {
    [Cycle(PackUi(cmd, RowByteArg(0, 0)), b0), Cycle(PackUi(cmd, RowByteArg(0, 1)), b1),
     Cycle(PackUi(cmd, RowByteArg(1, 0)), b2), Cycle(PackUi(cmd, RowByteArg(1, 1)), b3)]
  }

  function SeedSeg(t: Tile): (cs: seq<Cycle>)
    ensures |cs| == 4
  {
    RowBytes(CMD_SEED, ByteOf(t.seed0, 0), ByteOf(t.seed0, 1), ByteOf(t.seed1, 0), ByteOf(t.seed1, 1))
  }

  function FireSeg(): (cs: seq<Cycle>)
    ensures |cs| == 2 + PAD_CYCLES
  {
    [START] + Nops(1 + PAD_CYCLES)
  }

  function RdpSeg(): (cs: seq<Cycle>)
    ensures |cs| == 4
  {
    RowBytes(CMD_RDP, 0, 0, 0, 0)
  }

  function BodySeg(t: Tile): (cs: seq<Cycle>)
    ensures |cs| == TileCyclesFor(t.starts, false)
  {
    (if t.starts then HeadSeg() else []) + LdwSeg(t) + LdaSeg(t) + (if t.starts then SeedSeg(t) else [])
    + FireSeg()
  }

  /** Everything the chip sees for one tile. */
  function TileCycles(t: Tile): (cs: seq<Cycle>)
    ensures |cs| == TileCyclesFor(t.starts, t.ends)
  {
    BodySeg(t) + (if t.ends then RdpSeg() else [])
  }

  function PlanCycles(ops: seq<Tile>): seq<Cycle>
  {
    if ops == [] then [] else PlanCycles(ops[..|ops| - 1]) + TileCycles(ops[|ops| - 1])
  }

  /** The bytes that come back for a tile, run from state s: four for a run tail. */
  function TileReply(s: State, t: Tile): (r: seq<byte>)
    ensures |r| == if t.ends then 4 else 0
  {
    hide *;
    if t.ends then Outputs(After(s, BodySeg(t)), RdpSeg()) else []
  }

  function PlanReply(s: State, ops: seq<Tile>): seq<byte>
  {
    if ops == [] then []
    else
      var init := ops[..|ops| - 1];
      PlanReply(s, init) + TileReply(After(s, PlanCycles(init)), ops[|ops| - 1])
  }

  // ----- what it all means -----

  /** The sum the documentation promises for array row `row` of one tile. */
  function TileDot(t: Tile, row: nat): int
  {
    Contribution(Bit(t.W(row), 0), t.a0) + Contribution(Bit(t.W(row), 1), t.a1)
  }

  /** Accumulator `row` after the first n tiles, from initial value `acc`. */
  function AccAfter(acc: int, ops: seq<Tile>, n: nat, row: nat): int
    requires n <= |ops|
  {
    if n == 0 then acc
    else
      var t := ops[n - 1];
      Wrap16((if t.starts then t.Seed(row) else AccAfter(acc, ops, n - 1, row)) + TileDot(t, row))
  }

  lemma {:induction false} AccAfterPrefix(acc: int, ops: seq<Tile>, more: seq<Tile>, n: nat, row: nat)
    requires n <= |ops|
    ensures AccAfter(acc, ops + more, n, row) == AccAfter(acc, ops, n, row)
  {
    if n > 0 {
      AccAfterPrefix(acc, ops, more, n - 1, row);
    }
  }

  function PsumBytes(x: int, y: int): seq<byte>
  {
    [ByteOf(x, 0), ByteOf(x, 1), ByteOf(y, 0), ByteOf(y, 1)]
  }

  /** The reply a plan promises: both psums of every run tail, in order. */
  function PromisedReply(acc0: int, acc1: int, ops: seq<Tile>, n: nat): (r: seq<byte>)
    requires n <= |ops|
    ensures |r| == 4 * TailCount(ops, n)
  {
    if n == 0 then []
    else PromisedReply(acc0, acc1, ops, n - 1)
         + if ops[n - 1].ends
           then PsumBytes(AccAfter(acc0, ops, n, 0), AccAfter(acc1, ops, n, 1))
           else []
  }

  function TailCount(ops: seq<Tile>, n: nat): nat
    requires n <= |ops|
  {
    if n == 0 then 0 else TailCount(ops, n - 1) + if ops[n - 1].ends then 1 else 0
  }

  // ----- the chip's answer to each segment -----

  lemma AfterOne(s: State, c: Cycle)
    ensures After(s, [c]) == Step(s, c)
    ensures Outputs(s, [c]) == [Output(Step(s, c), c)]
  {
    hide Step, Output;
    assert [c][..0] == [];
    assert After(s, [c]) == Step(After(s, []), c);
    assert Outputs(s, [c]) == Outputs(s, []) + [Output(After(s, [c]), c)];
  }

  lemma AfterTwo(s: State, c: Cycle, d: Cycle)
    ensures After(s, [c, d]) == Step(Step(s, c), d)
    ensures Outputs(s, [c, d]) == [Output(Step(s, c), c), Output(Step(Step(s, c), d), d)]
  {
    hide Step, Output, After, Outputs;
    AfterOne(s, c);
    AfterOne(Step(s, c), d);
    AfterConcat(s, [c], [d]);
    assert [c] + [d] == [c, d];
  }

  /** The host-visible registers. */
  datatype View = View(w00: bool, w01: bool, w10: bool, w11: bool, a0: int, a1: int, acc0: int, acc1: int)

  function ViewOf(s: State): View
  {
    View(s.w00, s.w01, s.w10, s.w11, s.a0, s.a1, s.acc0, s.acc1)
  }

  lemma DivByEight(q: nat, r: nat)
    requires r < 8
    ensures (r + 8 * q) / 8 == q && (r + 8 * q) % 8 == r
  {
  }

  lemma DivByTwo(q: nat, r: nat)
    requires r < 2
    ensures (r + 2 * q) / 2 == q && (r + 2 * q) % 2 == r
  {
  }

  lemma DivDiv(x: nat)
    ensures x / 16 == x / 8 / 2
  {
  }

  /** A quiet chip reads a command's argument as the encoders wrote it. */
  lemma ArgLaw(cmd: nat, row: nat, b: nat)
    requires cmd < 8 && row < 2 && b < 2
    ensures var ui := PackUi(cmd, RowByteArg(row, b));
            ui % 8 == cmd && ui / 8 % 2 == row && ui / 16 % 2 == b
  {
    var arg := RowByteArg(row, b);
    assert arg == row + 2 * b;
    SmallMod(arg, 32);
    assert PackUi(cmd, arg) == cmd + 8 * arg;
    DivByEight(arg, cmd);
    DivByTwo(b, row);
    SmallMod(b, 2);
    DivDiv(cmd + 8 * arg);
  }

  lemma LdwStep(s: State, row: nat, w: byte)
    requires Quiet(s) && row < 2
    ensures var r := Step(s, Cycle(PackUi(CMD_LDW, row), w));
            Quiet(r) && ViewOf(r) == if row == 0 then ViewOf(s).(w00 := Bit(w, 0), w01 := Bit(w, 1))
                                     else ViewOf(s).(w10 := Bit(w, 0), w11 := Bit(w, 1))
  {
  }

  lemma LdaStep(s: State, lane: nat, a: int)
    requires Quiet(s) && lane < 2 && -128 <= a < 128
    ensures var r := Step(s, Cycle(PackUi(CMD_LDA, lane), a % 256));
            Quiet(r) && ViewOf(r) == if lane == 0 then ViewOf(s).(a0 := a) else ViewOf(s).(a1 := a)
  {
  }

  lemma SeedStep(s: State, row: nat, i: nat, b: byte)
    requires Quiet(s) && row < 2 && i < 2
    ensures var r := Step(s, Cycle(PackUi(CMD_SEED, RowByteArg(row, i)), b));
            Quiet(r) && ViewOf(r) == if row == 0 then ViewOf(s).(acc0 := WithByte(s.acc0, i, b))
                                     else ViewOf(s).(acc1 := WithByte(s.acc1, i, b))
  {
    ArgLaw(CMD_SEED, row, i);
  }

  lemma RdpStep(s: State, row: nat, i: nat)
    requires Quiet(s) && row < 2 && i < 2
    ensures var c := Cycle(PackUi(CMD_RDP, RowByteArg(row, i)), 0);
            Quiet(Step(s, c)) && ViewOf(Step(s, c)) == ViewOf(s)
            && Output(Step(s, c), c) == ByteOf(if row == 0 then s.acc0 else s.acc1, i)
  {
    ArgLaw(CMD_RDP, row, i);
  }

  lemma HeadLaw(s: State)
    ensures var r := After(s, HeadSeg());
            Quiet(r) && ViewOf(r) == ViewOf(s).(a0 := 0, a1 := 0, acc0 := 0, acc1 := 0)
  {
    hide After;
    AfterTwo(s, HeadSeg()[0], NOP);
  }

  lemma LdwLaw(s: State, t: Tile)
    requires Quiet(s)
    ensures var r := After(s, LdwSeg(t));
            Quiet(r) && ViewOf(r) == ViewOf(s).(w00 := Bit(t.w0, 0), w01 := Bit(t.w0, 1),
                                                w10 := Bit(t.w1, 0), w11 := Bit(t.w1, 1))
  {
    hide After, Step, PackUi;
    var cs := LdwSeg(t);
    AfterTwo(s, cs[0], cs[1]);
    LdwStep(s, 0, t.w0);
    LdwStep(Step(s, cs[0]), 1, t.w1);
  }

  lemma LdaLaw(s: State, t: Tile)
    requires Quiet(s) && t.Valid()
    ensures var r := After(s, LdaSeg(t));
            Quiet(r) && ViewOf(r) == ViewOf(s).(a0 := t.a0, a1 := t.a1)
  {
    hide After, Step, PackUi;
    var cs := LdaSeg(t);
    AfterTwo(s, cs[0], cs[1]);
    LdaStep(s, 0, t.a0);
    LdaStep(Step(s, cs[0]), 1, t.a1);
  }

  lemma SeedBytes(acc: int, seed: int)
    requires -32768 <= seed < 32768
    ensures WithByte(WithByte(acc, 0, ByteOf(seed, 0)), 1, ByteOf(seed, 1)) == seed
  {
    hide Wrap16;
    LowReplaced(acc, seed % 256);
    WrapKeepsLow(acc - acc % 256 + seed % 256);
    HighAndLow(seed);
  }

  lemma LowReplaced(acc: int, b: int)
    requires 0 <= b < 256
    ensures (acc - acc % 256 + b) % 256 == b
  {
  }

  lemma WrapKeepsLow(x: int)
    ensures Wrap16(x) % 256 == x % 256
  {
  }

  lemma HighAndLow(seed: int)
    requires -32768 <= seed < 32768
    ensures Wrap16(seed / 256 % 256 * 256 + seed % 256) == seed
  {
    assert seed / 256 % 256 == if seed < 0 then seed / 256 + 256 else seed / 256;
    assert seed == seed / 256 * 256 + seed % 256;
  }

  /** Writing both bytes of one row's seed replaces that accumulator. */
  lemma SeedRowLaw(s: State, row: nat, seed: int)
    requires Quiet(s) && row < 2 && -32768 <= seed < 32768
    ensures var r := After(s, [Cycle(PackUi(CMD_SEED, RowByteArg(row, 0)), ByteOf(seed, 0)),
                               Cycle(PackUi(CMD_SEED, RowByteArg(row, 1)), ByteOf(seed, 1))]);
            Quiet(r) && ViewOf(r) == if row == 0 then ViewOf(s).(acc0 := seed) else ViewOf(s).(acc1 := seed)
  {
    hide After, Step, PackUi, WithByte, ByteOf;
    var c := Cycle(PackUi(CMD_SEED, RowByteArg(row, 0)), ByteOf(seed, 0));
    var d := Cycle(PackUi(CMD_SEED, RowByteArg(row, 1)), ByteOf(seed, 1));
    AfterTwo(s, c, d);
    SeedStep(s, row, 0, ByteOf(seed, 0));
    SeedStep(Step(s, c), row, 1, ByteOf(seed, 1));
    SeedBytes(if row == 0 then s.acc0 else s.acc1, seed);
  }

  lemma SeedLaw(s: State, t: Tile)
    requires Quiet(s) && t.Valid()
    ensures var r := After(s, SeedSeg(t));
            Quiet(r) && ViewOf(r) == ViewOf(s).(acc0 := t.seed0, acc1 := t.seed1)
  {
    hide After, Step, PackUi, ByteOf, RowByteArg;
    var cs := SeedSeg(t);
    var x, y := [cs[0], cs[1]], [cs[2], cs[3]];
    SeedRowLaw(s, 0, t.seed0);
    SeedRowLaw(After(s, x), 1, t.seed1);
    AfterConcat(s, x, y);
    assert cs == x + y;
  }

  lemma FireSegLaw(s: State)
    requires Quiet(s)
    ensures Fired(s, After(s, FireSeg()))
  {
    hide Step, Fired, After;
    FireLaw(s);
    AfterOne(s, START);
    var n := 1 + PAD_CYCLES;
    AfterNops(Step(s, START), n);
    AfterConcat(s, [START], Nops(n));
  }

  lemma RdpRowLaw(s: State, row: nat)
    requires Quiet(s) && row < 2
    ensures var cs := [Cycle(PackUi(CMD_RDP, RowByteArg(row, 0)), 0),
                       Cycle(PackUi(CMD_RDP, RowByteArg(row, 1)), 0)];
            var acc := if row == 0 then s.acc0 else s.acc1;
            Quiet(After(s, cs)) && ViewOf(After(s, cs)) == ViewOf(s)
            && Outputs(s, cs) == [ByteOf(acc, 0), ByteOf(acc, 1)]
  {
    hide After, Step, PackUi, Outputs, Output, ByteOf;
    var c := Cycle(PackUi(CMD_RDP, RowByteArg(row, 0)), 0);
    AfterTwo(s, c, Cycle(PackUi(CMD_RDP, RowByteArg(row, 1)), 0));
    RdpStep(s, row, 0);
    RdpStep(Step(s, c), row, 1);
  }

  lemma RdpLaw(s: State)
    requires Quiet(s)
    ensures var r := After(s, RdpSeg());
            Quiet(r) && ViewOf(r) == ViewOf(s)
    ensures Outputs(s, RdpSeg()) == PsumBytes(s.acc0, s.acc1)
  {
    hide After, Step, PackUi, Outputs, Output, ByteOf, RowByteArg;
    var cs := RdpSeg();
    var x, y := [cs[0], cs[1]], [cs[2], cs[3]];
    RdpRowLaw(s, 0);
    RdpRowLaw(After(s, x), 1);
    AfterConcat(s, x, y);
    assert cs == x + y;
  }

  /** The accumulator a tile starts from. */
  function Base(s: State, t: Tile, row: nat): int
  {
    if t.starts then t.Seed(row) else if row == 0 then s.acc0 else s.acc1
  }

  function LoadSeg(t: Tile): (cs: seq<Cycle>)
    ensures |cs| == 4 + if t.starts then 6 else 0
  {
    (if t.starts then HeadSeg() else []) + LdwSeg(t) + LdaSeg(t) + (if t.starts then SeedSeg(t) else [])
  }

  lemma LoadLaw(s: State, t: Tile)
    requires t.Valid() && (t.starts || Quiet(s))
    ensures var r := After(s, LoadSeg(t));
            Quiet(r) && ViewOf(r) == View(Bit(t.w0, 0), Bit(t.w0, 1), Bit(t.w1, 0), Bit(t.w1, 1),
                                          t.a0, t.a1, Base(s, t, 0), Base(s, t, 1))
  {
    hide Step, Quiet, SeedSeg, LdwSeg, LdaSeg, HeadSeg;
    var head := if t.starts then HeadSeg() else [];
    HeadLaw(s);
    var s1 := After(s, head);
    LdwLaw(s1, t);
    AfterConcat(s, head, LdwSeg(t));
    var s2 := After(s1, LdwSeg(t));
    LdaLaw(s2, t);
    AfterConcat(s, head + LdwSeg(t), LdaSeg(t));
    var s3 := After(s2, LdaSeg(t));
    SeedLaw(s3, t);
    AfterConcat(s, head + LdwSeg(t) + LdaSeg(t), if t.starts then SeedSeg(t) else []);
  }

  /** One tile: from any state for a run head, from a quiet state otherwise. */
  lemma TileLaw(s: State, t: Tile)
    requires t.Valid() && (t.starts || Quiet(s))
    ensures var r := After(s, TileCycles(t));
            Quiet(r) && r.acc0 == Wrap16(Base(s, t, 0) + TileDot(t, 0))
            && r.acc1 == Wrap16(Base(s, t, 1) + TileDot(t, 1))
            && TileReply(s, t) == if t.ends then PsumBytes(r.acc0, r.acc1) else []
  {
    hide Step, After, Outputs, FireSeg, RdpSeg, LdwSeg, LdaSeg, SeedSeg, HeadSeg, PsumBytes, Wrap16;
    LoadLaw(s, t);
    var m := After(s, LoadSeg(t));
    FireSegLaw(m);
    AfterConcat(s, LoadSeg(t), FireSeg());
    assert BodySeg(t) == LoadSeg(t) + FireSeg();
    var b := After(s, BodySeg(t));
    if t.ends {
      RdpLaw(b);
      AfterConcat(s, BodySeg(t), RdpSeg());
    } else {
      assert TileCycles(t) == BodySeg(t);
    }
  }

  lemma AccSnoc(acc: int, init: seq<Tile>, t: Tile, row: nat)
    ensures var ops := init + [t];
            AccAfter(acc, ops, |ops|, row)
            == Wrap16((if t.starts then t.Seed(row) else AccAfter(acc, init, |init|, row)) + TileDot(t, row))
  {
    hide Wrap16, TileDot;
    AccAfterPrefix(acc, init, [t], |init|, row);
  }

  lemma PromisedSnoc(x: int, y: int, init: seq<Tile>, t: Tile)
    ensures var ops := init + [t];
            PromisedReply(x, y, ops, |ops|)
            == PromisedReply(x, y, init, |init|)
               + if t.ends then PsumBytes(AccAfter(x, ops, |ops|, 0), AccAfter(y, ops, |ops|, 1)) else []
  {
    hide PsumBytes, AccAfter;
    PromisedPrefix(x, y, init, [t], |init|);
  }

  lemma PlanSnoc(s: State, init: seq<Tile>, t: Tile)
    ensures PlanCycles(init + [t]) == PlanCycles(init) + TileCycles(t)
    ensures PlanReply(s, init + [t]) == PlanReply(s, init) + TileReply(After(s, PlanCycles(init)), t)
  {
    hide TileCycles, TileReply, After;
    var ops := init + [t];
    assert ops[..|ops| - 1] == init;
  }

  lemma NoTiles(s: State)
    ensures After(s, PlanCycles([])) == s && PlanReply(s, []) == []
    ensures AccAfter(s.acc0, [], 0, 0) == s.acc0 && AccAfter(s.acc1, [], 0, 1) == s.acc1
    ensures PromisedReply(s.acc0, s.acc1, [], 0) == []
  {
  }

  /** Every plan, of any length and run structure, from a quiet chip. */
  lemma {:induction false} PlanLaw(s: State, ops: seq<Tile>)
    requires Quiet(s) && forall t <- ops :: t.Valid()
    ensures var r := After(s, PlanCycles(ops));
            Quiet(r) && r.acc0 == AccAfter(s.acc0, ops, |ops|, 0) && r.acc1 == AccAfter(s.acc1, ops, |ops|, 1)
    ensures PlanReply(s, ops) == PromisedReply(s.acc0, s.acc1, ops, |ops|)
  {
    hide Step, TileCycles, TileDot, PsumBytes, Quiet, TileReply, After, Wrap16;
    hide PlanCycles, PlanReply, AccAfter, PromisedReply;
    if ops == [] {
      NoTiles(s);
    } else {
      var init, t := ops[..|ops| - 1], ops[|ops| - 1];
      assert t in ops && ops == init + [t];
      PlanLaw(s, init);
      PlanSnoc(s, init, t);
      TileLaw(After(s, PlanCycles(init)), t);
      AfterConcat(s, PlanCycles(init), TileCycles(t));
      AccSnoc(s.acc0, init, t, 0);
      AccSnoc(s.acc1, init, t, 1);
      PromisedSnoc(s.acc0, s.acc1, init, t);
    }
  }

  lemma {:induction false} PromisedPrefix(acc0: int, acc1: int, ops: seq<Tile>, more: seq<Tile>, n: nat)
    requires n <= |ops|
    ensures PromisedReply(acc0, acc1, ops + more, n) == PromisedReply(acc0, acc1, ops, n)
    ensures TailCount(ops + more, n) == TailCount(ops, n)
  {
    hide PsumBytes;
    if n > 0 {
      PromisedPrefix(acc0, acc1, ops, more, n - 1);
      AccAfterPrefix(acc0, ops, more, n, 0);
      AccAfterPrefix(acc1, ops, more, n, 1);
    }
  }

  // ----- when a plan's answers depend on the chip it finds -----

  /** A run tail is read before any run head has reset the accumulators. */
  predicate ReadsInherited(ops: seq<Tile>)
  {
    exists i :: 0 <= i < |ops| && ops[i].ends && forall j :: 0 <= j <= i ==> !ops[j].starts
  }

  lemma {:induction false} AccIndependent(x: int, y: int, ops: seq<Tile>, n: nat, row: nat)
    requires n <= |ops| && exists j :: 0 <= j < n && ops[j].starts
    ensures AccAfter(x, ops, n, row) == AccAfter(y, ops, n, row)
  {
    if !ops[n - 1].starts {
      AccIndependent(x, y, ops, n - 1, row);
    }
  }

  lemma {:induction false} ReplyIndependent(x0: int, x1: int, y0: int, y1: int, ops: seq<Tile>, n: nat)
    requires n <= |ops| && !ReadsInherited(ops)
    ensures PromisedReply(x0, x1, ops, n) == PromisedReply(y0, y1, ops, n)
  {
    if n > 0 {
      ReplyIndependent(x0, x1, y0, y1, ops, n - 1);
      if ops[n - 1].ends {
        var i := n - 1;
        assert exists j :: 0 <= j <= i && ops[j].starts;
        var j :| 0 <= j <= i && ops[j].starts;
        AccIndependent(x0, y0, ops, n, 0);
        AccIndependent(x1, y1, ops, n, 1);
      }
    }
  }

  lemma {:induction false} AccShifts(x: int, ops: seq<Tile>, n: nat, row: nat)
    requires n <= |ops| && forall j :: 0 <= j < n ==> !ops[j].starts
    requires -32768 <= x < 32768
    ensures AccAfter(x, ops, n, row) == Wrap16(x + DotSum(ops, n, row))
  {
    if n > 0 {
      AccShifts(x, ops, n - 1, row);
      WrapAdd(x + DotSum(ops, n - 1, row), TileDot(ops[n - 1], row));
    } else {
      WrapId(x);
    }
  }

  function DotSum(ops: seq<Tile>, n: nat, row: nat): int
    requires n <= |ops|
  {
    if n == 0 then 0 else DotSum(ops, n - 1, row) + TileDot(ops[n - 1], row)
  }

  lemma WrapApart(x: int)
    ensures Wrap16(x) != Wrap16(x + 1)
    ensures ByteOf(Wrap16(x), 0) != ByteOf(Wrap16(x + 1), 0)
  {
  }

  /** The first headless tail shows the inherited accumulator in its low byte. */
  lemma {:induction false} ReplyDiffers(ops: seq<Tile>, i: nat, n: nat)
    requires i < n <= |ops| && ops[i].ends && forall j :: 0 <= j <= i ==> !ops[j].starts
    ensures PromisedReply(0, 0, ops, n) != PromisedReply(1, 0, ops, n)
  {
    hide AccAfter, DotSum, Wrap16, TileDot;
    var x, y := PromisedReply(0, 0, ops, i), PromisedReply(1, 0, ops, i);
    AccShifts(0, ops, i + 1, 0);
    AccShifts(1, ops, i + 1, 0);
    WrapApart(DotSum(ops, i + 1, 0));
    PromisedAt(0, 0, ops, i + 1, n);
    PromisedAt(1, 0, ops, i + 1, n);
    var p, q := PromisedReply(0, 0, ops, i + 1), PromisedReply(1, 0, ops, i + 1);
    assert p[|x|] == ByteOf(AccAfter(0, ops, i + 1, 0), 0);
    assert q[|y|] == ByteOf(AccAfter(1, ops, i + 1, 0), 0);
    assert PromisedReply(0, 0, ops, n)[|x|] == p[|x|] && PromisedReply(1, 0, ops, n)[|x|] == q[|x|];
  }

  lemma {:induction false} PromisedAt(x0: int, x1: int, ops: seq<Tile>, m: nat, n: nat)
    requires m <= n <= |ops|
    ensures PromisedReply(x0, x1, ops, m) <= PromisedReply(x0, x1, ops, n)
  {
    if m < n {
      PromisedAt(x0, x1, ops, m, n - 1);
    }
  }

  /** A quiet chip with the given accumulators. */
  function QuietChip(acc0: int, acc1: int): (s: State)
    ensures Quiet(s) && s.acc0 == acc0 && s.acc1 == acc1
  {
    var p := Pe(false, 0, 0, false);
    State(Idle, 0, false, false, false, false, false, false, false, 0, 0, p, p, p, p, acc0, acc1, false, false)
  }

  /**
   The exact condition: a plan answers the same on every quiet chip if and only if
   no tail comes before the first head.
   */
  lemma StateIndependence(ops: seq<Tile>)
    requires forall t <- ops :: t.Valid()
    ensures (forall s, s' :: Quiet(s) && Quiet(s') ==> PlanReply(s, ops) == PlanReply(s', ops))
            <==> !ReadsInherited(ops)
  {
    if ReadsInherited(ops) {
      var i :| 0 <= i < |ops| && ops[i].ends && forall j :: 0 <= j <= i ==> !ops[j].starts;
      var s, s' := QuietChip(0, 0), QuietChip(1, 0);
      PlanLaw(s, ops);
      PlanLaw(s', ops);
      ReplyDiffers(ops, i, |ops|);
      assert PlanReply(s, ops) != PlanReply(s', ops);
    } else {
      forall s, s' | Quiet(s) && Quiet(s')
        ensures PlanReply(s, ops) == PlanReply(s', ops)
      {
        PlanLaw(s, ops);
        PlanLaw(s', ops);
        ReplyIndependent(s.acc0, s.acc1, s'.acc0, s'.acc1, ops, |ops|);
      }
    }
  }

  lemma {:induction false} PlanCyclesConcat(x: seq<Tile>, y: seq<Tile>)
    ensures PlanCycles(x + y) == PlanCycles(x) + PlanCycles(y)
  {
    hide TileCycles;
    if y == [] {
      assert x + y == x;
    } else {
      var y', last := y[..|y| - 1], TileCycles(y[|y| - 1]);
      PlanCyclesConcat(x, y');
      assert (x + y)[..|x + y| - 1] == x + y';
      var a, b := PlanCycles(x), PlanCycles(y');
      assert PlanCycles(x + y) == (a + b) + last;
      assert (a + b) + last == a + (b + last);
    }
  }

  lemma {:induction false} PlanReplyConcat(s: State, x: seq<Tile>, y: seq<Tile>)
    ensures PlanReply(s, x + y) == PlanReply(s, x) + PlanReply(After(s, PlanCycles(x)), y)
  {
    hide TileCycles, TileReply, Step, After, PlanCycles;
    if y == [] {
      assert x + y == x;
    } else {
      var y' := y[..|y| - 1];
      PlanReplyConcat(s, x, y');
      assert (x + y)[..|x + y| - 1] == x + y';
      PlanCyclesConcat(x, y');
      AfterConcat(s, PlanCycles(x), PlanCycles(y'));
      var m := After(s, PlanCycles(x));
      var last := TileReply(After(m, PlanCycles(y')), y[|y| - 1]);
      assert PlanReply(s, x + y) == PlanReply(s, x + y') + last;
      assert PlanReply(m, y) == PlanReply(m, y') + last;
    }
  }

  /** A plan that opens with a run head answers as on a fresh chip, whatever state it finds. */
  lemma HeadedPlanLaw(s: State, ops: seq<Tile>)
    requires ops != [] && ops[0].starts && forall t <- ops :: t.Valid()
    ensures PlanReply(s, ops) == PromisedReply(0, 0, ops, |ops|)
    ensures Quiet(After(s, PlanCycles(ops)))
  {
    var f := QuietChip(0, 0);
    HeadedPlansAgree(s, f, ops);
    PlanLaw(f, ops);
  }

  lemma HeadedPlansAgree(s: State, f: State, ops: seq<Tile>)
    requires ops != [] && ops[0].starts && forall t <- ops :: t.Valid()
    ensures PlanReply(s, ops) == PlanReply(f, ops)
    ensures Quiet(After(s, PlanCycles(ops)))
  {
    hide TileCycles, TileReply, Step, After, PlanCycles, PlanReply, AccAfter, PromisedReply, Wrap16, TileDot, PsumBytes;
    var h, rest := [ops[0]], ops[1..];
    assert ops == h + rest;
    SingleTile(s, ops[0]);
    SingleTile(f, ops[0]);
    TileLaw(s, ops[0]);
    TileLaw(f, ops[0]);
    PlanReplyConcat(s, h, rest);
    PlanReplyConcat(f, h, rest);
    PlanCyclesConcat(h, rest);
    AfterConcat(s, PlanCycles(h), PlanCycles(rest));
    PlanLaw(After(s, PlanCycles(h)), rest);
    PlanLaw(After(f, PlanCycles(h)), rest);
  }

  lemma SingleTile(s: State, t: Tile)
    ensures PlanCycles([t]) == TileCycles(t)
    ensures PlanReply(s, [t]) == TileReply(s, t)
  {
    hide TileCycles, TileReply, Step;
    assert [t][..0] == [];
    assert PlanCycles([t]) == PlanCycles([]) + TileCycles(t);
    assert PlanReply(s, [t]) == PlanReply(s, []) + TileReply(After(s, []), t);
  }

  // ----- nothing but NOPs while busy -----

  /** In every state the cycles pass through, a busy chip is only ever sent NOP. */
  predicate Polite(s: State, cs: seq<Cycle>)
  {
    forall i :: 0 <= i < |cs| && !After(s, cs[..i]).phase.Idle? ==> cs[i] == NOP
  }

  lemma SplitPrefix<T>(x: seq<T>, y: seq<T>, i: nat)
    requires i < |x| + |y|
    ensures if i < |x| then (x + y)[..i] == x[..i] && (x + y)[i] == x[i]
            else (x + y)[..i] == x + y[..i - |x|] && (x + y)[i] == y[i - |x|]
  {
  }

  lemma PoliteConcat(s: State, x: seq<Cycle>, y: seq<Cycle>)
    requires Polite(s, x) && Polite(After(s, x), y)
    ensures Polite(s, x + y)
  {
    hide Step;
    hide After;
    forall i | 0 <= i < |x + y| && !After(s, (x + y)[..i]).phase.Idle?
      ensures (x + y)[i] == NOP
    {
      SplitPrefix(x, y, i);
      if i >= |x| {
        AfterConcat(s, x, y[..i - |x|]);
      }
    }
  }

  predicate NoStart(cs: seq<Cycle>)
  {
    forall i :: 0 <= i < |cs| ==> cs[i].ui % 8 != CMD_START
  }

  /** Commands other than START keep a quiet chip quiet, so any run of them is polite. */
  lemma {:induction false} QuietRun(s: State, cs: seq<Cycle>)
    requires Quiet(s) && NoStart(cs)
    ensures Quiet(After(s, cs)) && Polite(s, cs)
  {
    hide Step, Quiet;
    forall i | 0 <= i <= |cs|
      ensures Quiet(After(s, cs[..i]))
    {
      QuietPrefix(s, cs, i);
    }
    assert cs[..|cs|] == cs;
    QuietIsIdle();
  }

  lemma QuietIsIdle()
    ensures forall s: State :: Quiet(s) ==> s.phase.Idle?
  {
  }

  lemma {:induction false} QuietPrefix(s: State, cs: seq<Cycle>, i: nat)
    requires Quiet(s) && NoStart(cs) && i <= |cs|
    ensures Quiet(After(s, cs[..i]))
  {
    hide Step;
    if i > 0 {
      QuietPrefix(s, cs, i - 1);
      assert cs[..i][..i - 1] == cs[..i - 1];
      QuietStep(After(s, cs[..i - 1]), cs[i - 1]);
    }
  }

  lemma QuietStep(s: State, c: Cycle)
    requires Quiet(s) && c.ui % 8 != CMD_START
    ensures Quiet(Step(s, c))
  {
  }

  lemma FirePolite(s: State)
    requires Quiet(s)
    ensures Polite(s, FireSeg())
  {
    hide Step, After;
    var cs := FireSeg();
    AfterNone(s);
    assert cs[..0] == [] && After(s, cs[..0]).phase.Idle?;
  }

  lemma AfterNone(s: State)
    ensures After(s, []) == s
  {
  }

  lemma NoStartConcat(x: seq<Cycle>, y: seq<Cycle>)
    requires NoStart(x) && NoStart(y)
    ensures NoStart(x + y)
  {
  }

  lemma EmptyNoStart()
    ensures NoStart([])
  {
  }

  lemma SegsQuiet(t: Tile)
    ensures NoStart(HeadSeg()) && NoStart(LdwSeg(t)) && NoStart(LdaSeg(t)) && NoStart(SeedSeg(t)) && NoStart(RdpSeg())
  {
    hide RowByteArg, ByteOf;
    forall cmd: nat, arg: nat | cmd < 8 && cmd != CMD_START
      ensures PackUi(cmd, arg) % 8 != CMD_START
    {
      DivByEight(arg % 32, cmd);
    }
  }

  lemma LoadSegQuiet(t: Tile)
    ensures NoStart(LoadSeg(t)) && NoStart(RdpSeg())
  {
    var head, seeds := if t.starts then HeadSeg() else [], if t.starts then SeedSeg(t) else [];
    SegsQuiet(t);
    EmptyNoStart();
    hide NoStart, HeadSeg, SeedSeg, LdwSeg, LdaSeg, RdpSeg;
    NoStartConcat(head, LdwSeg(t));
    NoStartConcat(head + LdwSeg(t), LdaSeg(t));
    NoStartConcat(head + LdwSeg(t) + LdaSeg(t), seeds);
  }

  lemma TilePolite(s: State, t: Tile)
    requires Quiet(s) && t.Valid()
    ensures Polite(s, TileCycles(t))
  {
    hide Step, After, Polite, FireSeg, RdpSeg, LdwSeg, LdaSeg, SeedSeg, HeadSeg, NoStart;
    LoadSegQuiet(t);
    EmptyNoStart();
    QuietRun(s, LoadSeg(t));
    var m := After(s, LoadSeg(t));
    FirePolite(m);
    PoliteConcat(s, LoadSeg(t), FireSeg());
    assert BodySeg(t) == LoadSeg(t) + FireSeg();
    FireSegLaw(m);
    AfterConcat(s, LoadSeg(t), FireSeg());
    var tail := if t.ends then RdpSeg() else [];
    QuietRun(After(s, BodySeg(t)), tail);
    PoliteConcat(s, BodySeg(t), tail);
  }

  /** Whatever the plan, the chip is never disturbed while it computes. */
  lemma {:induction false} PlanPolite(s: State, ops: seq<Tile>)
    requires Quiet(s) && forall t <- ops :: t.Valid()
    ensures Polite(s, PlanCycles(ops))
  {
    hide Step, TileCycles;
    if ops != [] {
      hide Polite;
      var n := |ops| - 1;
      assert ops[n] in ops;
      PlanPolite(s, ops[..n]);
      PlanLaw(s, ops[..n]);
      TilePolite(After(s, PlanCycles(ops[..n])), ops[n]);
      PoliteConcat(s, PlanCycles(ops[..n]), TileCycles(ops[n]));
    }
  }

  /**
   A plan that opens with a run head, on a chip in any state: the CLEAR it opens with is the
   only cycle that may meet a busy chip, and from there on only NOPs do.
   */
  lemma HeadedPlanPolite(s: State, ops: seq<Tile>)
    requires ops != [] && ops[0].starts && forall t <- ops :: t.Valid()
    ensures var cs := PlanCycles(ops);
      cs != [] && cs[0].ui % 8 == CMD_CLEAR && Polite(Step(s, cs[0]), cs[1..])
  {
    hide Step, After, Polite, PlanCycles;
    var cs := PlanCycles(ops);
    OpensWithClear(ops);
    var q := Step(s, cs[0]);
    ClearQuiets(s, cs[0]);
    PlanPolite(q, ops);
    PoliteTail(q, cs);
  }

  lemma OpensWithClear(ops: seq<Tile>)
    requires ops != [] && ops[0].starts
    ensures PlanCycles(ops) != [] && PlanCycles(ops)[0] == HeadSeg()[0] && HeadSeg()[0].ui % 8 == CMD_CLEAR
  {
    hide PackUi, LdwSeg, LdaSeg, SeedSeg, FireSeg, RdpSeg;
    assert ops == [ops[0]] + ops[1..];
    PlanCyclesConcat([ops[0]], ops[1..]);
    assert [ops[0]][..0] == [];
    ClearUi();
  }

  lemma ClearUi()
    ensures PackUi(CMD_CLEAR, 0) % 8 == CMD_CLEAR
  {
  }

  lemma ClearQuiets(s: State, c: Cycle)
    requires c.ui % 8 == CMD_CLEAR
    ensures Quiet(Step(s, c)) && Step(Step(s, c), c) == Step(s, c)
  {
  }

  /** If the first cycle changes nothing, what follows it is polite on its own. */
  lemma PoliteTail(q: State, cs: seq<Cycle>)
    requires cs != [] && Polite(q, cs) && Step(q, cs[0]) == q
    ensures Polite(q, cs[1..])
  {
    hide Step;
    forall i | 0 <= i < |cs| - 1 && !After(q, cs[1..][..i]).phase.Idle?
      ensures cs[1..][i] == NOP
    {
      assert cs[..i + 1] == cs[..1] + cs[1..][..i];
      AfterConcat(q, cs[..1], cs[1..][..i]);
      AfterFirst(q, cs);
      hide After;
      assert cs[i + 1] == NOP;
    }
  }

  lemma AfterFirst(q: State, cs: seq<Cycle>)
    requires cs != []
    ensures After(q, cs[..1]) == Step(q, cs[0])
  {
    hide Step;
    AfterNone(q);
    assert cs[..1][..0] == [];
  }
}

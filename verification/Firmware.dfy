/**
 Both ends of the USB wire. On the host: the tile-pair encoder, the 3-byte
 descriptor encoder and the reply decoder. On the streamer: the tile macro and the
 'X' and 'M' request loops that drive the chip.

 Every method is proved against the plan semantics of module Protocol, so a
 descriptor sent in 'M' mode and the pairs of BuildTilePairs sent in 'X' mode put
 the same cycles on the chip, whatever the batching (ModesAgree), and Execute
 recovers each accumulator as the signed integer it holds (DecodedPsum).
 */
module Firmware {
  import opened Common
  import opened Chip
  import opened Protocol

  // ----- host: one tile as (ui, uio) byte pairs -----

  /** The cycles held in the first 2n bytes of a buffer. */
  function Pairs(b: seq<byte>, n: nat): (cs: seq<Cycle>)
    requires 2 * n <= |b|
    ensures |cs| == n
  {
    seq(n, i requires 0 <= i < n => Cycle(b[2 * i], b[2 * i + 1]))
  }

  /** Append one pair at pair-index p, touching nothing else. */
  method Put(dst: array<byte>, p: nat, a: byte, b: byte) returns (p': nat)
    requires 2 * p + 2 <= dst.Length
    modifies dst
    ensures p' == p + 1
    ensures Pairs(dst[..], p') == old(Pairs(dst[..], p)) + [Cycle(a, b)]
    ensures forall k :: 2 * p' <= k < dst.Length ==> dst[k] == old(dst[k])
  {
    dst[2 * p] := a;
    dst[2 * p + 1] := b;
    p' := p + 1;
  }

  /** The two-level row/byte loops visit a row-byte segment left to right. */
  lemma RowByteOrder(cmd: nat, b: seq<byte>, row: nat, i: nat)
    requires cmd < 8 && |b| == 4 && row < 2 && i < 2
    ensures var seg := RowBytes(cmd, b[0], b[1], b[2], b[3]);
            seg[..2 * row + i + 1] == seg[..2 * row + i] + [Cycle(PackUi(cmd, RowByteArg(row, i)), b[2 * row + i])]
  {
    hide PackUi;
    var seg := RowBytes(cmd, b[0], b[1], b[2], b[3]);
    var k := 2 * row + i;
    assert seg[..k + 1] == seg[..k] + [seg[k]];
  }

  method BuildTilePairs(dst: array<byte>, t: Tile) returns (p: nat, rdpOffset: int)
    requires 2 * TileCyclesFor(t.starts, t.ends) <= dst.Length && t.Valid()
    modifies dst
    ensures p == TileCyclesFor(t.starts, t.ends)
    ensures Pairs(dst[..], p) == TileCycles(t)
    ensures rdpOffset == if t.ends then |BodySeg(t)| else -1
    ensures forall k :: 2 * p <= k < dst.Length ==> dst[k] == old(dst[k])
  {
    hide HeadSeg, LdwSeg, LdaSeg, SeedSeg, FireSeg, RdpSeg, Pairs, RowBytes;
    p := BuildLoads(dst, t);
    ghost var seeds := if t.starts then SeedSeg(t) else [];
    if t.starts {
      p := BuildRowBytes(dst, p, CMD_SEED, PsumBytes(t.seed0, t.seed1));
      SeedRowBytes(t);
    }
    assert Pairs(dst[..], p) == LoadSeg(t);
    p := BuildFire(dst, p);
    assert Pairs(dst[..], p) == BodySeg(t);
    rdpOffset := -1;
    if t.ends {
      rdpOffset := p;
      p := BuildRowBytes(dst, p, CMD_RDP, [0, 0, 0, 0]);
      RdpRowBytes();
    }
  }

  lemma SeedRowBytes(t: Tile)
    ensures var b := PsumBytes(t.seed0, t.seed1);
            RowBytes(CMD_SEED, b[0], b[1], b[2], b[3]) == SeedSeg(t)
  {
    hide ByteOf, RowBytes;
  }

  lemma RdpRowBytes()
    ensures RowBytes(CMD_RDP, 0, 0, 0, 0) == RdpSeg()
  {
    hide RowBytes;
  }

  /** CLEAR and NOP for a run head, then the weight rows and the activation lanes. */
  method BuildLoads(dst: array<byte>, t: Tile) returns (p: nat)
    requires 12 <= dst.Length && t.Valid()
    modifies dst
    ensures var cs := (if t.starts then HeadSeg() else []) + LdwSeg(t) + LdaSeg(t);
            p == |cs| && Pairs(dst[..], p) == cs
    ensures forall k :: 2 * p <= k < dst.Length ==> dst[k] == old(dst[k])
  {
    hide PackUi;
    p := 0;
    if t.starts {
      p := Put(dst, p, PackUi(CMD_CLEAR, 0), 0);
      NopUi();
      p := Put(dst, p, PackUi(CMD_NOP, 0), 0);
    }
    ghost var head := if t.starts then HeadSeg() else [];
    assert Pairs(dst[..], p) == head;
    for row := 0 to ROWS
      invariant p == |head| + row && Pairs(dst[..], p) == head + LdwSeg(t)[..row]
      invariant forall k :: 2 * p <= k < dst.Length ==> dst[k] == old(dst[k])
    {
      p := Put(dst, p, PackUi(CMD_LDW, row), t.W(row));
      assert LdwSeg(t)[..row + 1] == LdwSeg(t)[..row] + [LdwSeg(t)[row]];
    }
    p := BuildActs(dst, p, t);
  }

  method BuildActs(dst: array<byte>, p0: nat, t: Tile) returns (p: nat)
    requires 2 * p0 + 4 <= dst.Length
    modifies dst
    ensures p == p0 + 2 && Pairs(dst[..], p) == old(Pairs(dst[..], p0)) + LdaSeg(t)
    ensures forall k :: 2 * p <= k < dst.Length ==> dst[k] == old(dst[k])
  {
    hide PackUi;
    p := p0;
    for lane := 0 to COLS
      invariant p == p0 + lane && Pairs(dst[..], p) == old(Pairs(dst[..], p0)) + LdaSeg(t)[..lane]
      invariant forall k :: 2 * p <= k < dst.Length ==> dst[k] == old(dst[k])
    {
      p := Put(dst, p, PackUi(CMD_LDA, lane), t.A(lane) % 256);
      assert LdaSeg(t)[..lane + 1] == LdaSeg(t)[..lane] + [LdaSeg(t)[lane]];
    }
  }

  lemma NopUi()
    ensures Cycle(PackUi(CMD_NOP, 0), 0) == NOP && Cycle(PackUi(CMD_START, 0), 0) == START
  {
  }

  /** The row-major byte loops shared by SEED and RDP. */
  method BuildRowBytes(dst: array<byte>, p0: nat, cmd: nat, b: seq<byte>) returns (p: nat)
    requires cmd < 8 && |b| == 4 && 2 * p0 + 8 <= dst.Length
    modifies dst
    ensures p == p0 + 4
    ensures Pairs(dst[..], p) == old(Pairs(dst[..], p0)) + RowBytes(cmd, b[0], b[1], b[2], b[3])
    ensures forall k :: 2 * p <= k < dst.Length ==> dst[k] == old(dst[k])
  {
    ghost var seg := RowBytes(cmd, b[0], b[1], b[2], b[3]);
    hide PackUi, RowBytes, RowByteArg;
    p := p0;
    for row := 0 to ROWS
      invariant p == p0 + 2 * row && Pairs(dst[..], p) == old(Pairs(dst[..], p0)) + seg[..2 * row]
      invariant forall k :: 2 * p <= k < dst.Length ==> dst[k] == old(dst[k])
    {
      for i := 0 to PSUM_BYTES
        invariant p == p0 + 2 * row + i && Pairs(dst[..], p) == old(Pairs(dst[..], p0)) + seg[..2 * row + i]
        invariant forall k :: 2 * p <= k < dst.Length ==> dst[k] == old(dst[k])
      {
        RowByteOrder(cmd, b, row, i);
        p := Put(dst, p, PackUi(cmd, RowByteArg(row, i)), b[2 * row + i]);
      }
    }
    assert seg[..4] == seg;
  }

  method BuildFire(dst: array<byte>, p0: nat) returns (p: nat)
    requires 2 * (p0 + 2 + PAD_CYCLES) <= dst.Length
    modifies dst
    ensures p == p0 + 2 + PAD_CYCLES && Pairs(dst[..], p) == old(Pairs(dst[..], p0)) + FireSeg()
    ensures forall k :: 2 * p <= k < dst.Length ==> dst[k] == old(dst[k])
  {
    hide PackUi;
    NopUi();
    ghost var loads := Pairs(dst[..], p0);
    p := Put(dst, p0, PackUi(CMD_START, 0), 0);
    p := Put(dst, p, PackUi(CMD_NOP, 0), 0);
    for i := 0 to PAD_CYCLES
      invariant p == p0 + 2 + i && Pairs(dst[..], p) == loads + ([START] + Nops(1 + i))
      invariant forall k :: 2 * p <= k < dst.Length ==> dst[k] == old(dst[k])
    {
      p := Put(dst, p, PackUi(CMD_NOP, 0), 0);
      assert Nops(2 + i) == Nops(1 + i) + [NOP];
    }
  }

  // ----- the streamer's side of the chip pins -----

  class ChipPort {
    var s: State
    ghost var origin: State
    ghost var log: seq<Cycle>

    /** The registers are what the logged cycles make of the original state. */
    ghost predicate Valid()
      reads this
    {
      s == After(origin, log)
    }

    constructor (s0: State)
      ensures Valid() && s == s0 && origin == s0 && log == []
    {
      s, origin, log := s0, s0, [];
    }

    method ChipCycle(ui: byte, uio: byte) returns (uo: byte)
      requires Valid()
      modifies this
      ensures Valid() && origin == old(origin)
      ensures log == old(log) + [Cycle(ui, uio)]
      ensures s == Step(old(s), Cycle(ui, uio)) && uo == Output(s, Cycle(ui, uio))
    {
      var c := Cycle(ui, uio);
      s := Step(s, c);
      uo := Output(s, c);
      log := log + [c];
      Snoc(origin, old(log), c);
    }
  }

  /** The host's descriptor byte: two weight bits per row, then the run flags. */
  function PackedByte(t: Tile): byte
  {
    t.w0 % 4 + 4 * (t.w1 % 4) + 16 * ((if t.starts then 1 else 0) + (if t.ends then 2 else 0))
  }

  function Descriptor(t: Tile): (d: seq<byte>)
    ensures |d| == 3
  {
    [t.a0 % 256, t.a1 % 256, PackedByte(t)]
  }

  /** The tile the firmware makes of three descriptor bytes. */
  function FromDescriptor(d0: byte, d1: byte, d2: byte): Tile
  {
    Tile(d2 % 4, d2 / 4 % 4, Signed8(d0), Signed8(d1), 0, 0, d2 / 16 % 2 == 1, d2 / 32 % 2 == 1)
  }

  /** What a descriptor keeps of a tile: two weight bits per row and no seeds. */
  function Wire(t: Tile): (w: Tile)
    ensures t.OnWire() ==> w == t
  {
    t.(w0 := t.w0 % 4, w1 := t.w1 % 4, seed0 := 0, seed1 := 0)
  }

  lemma DescriptorRoundTrip(t: Tile)
    requires t.Valid()
    ensures var d := Descriptor(t);
            FromDescriptor(d[0], d[1], d[2]) == Wire(t)
    ensures Wire(t).Valid()
  {
    var f := (if t.starts then 1 else 0) + (if t.ends then 2 else 0);
    var x, y := t.w0 % 4, t.w1 % 4;
    var b := PackedByte(t);
    assert b == x + 4 * y + 16 * f;
    assert b / 4 == y + 4 * f && b / 16 == f;
  }

  /** The tiles in the first n descriptors of a request body. */
  function Tiles(body: seq<byte>, n: nat): (ts: seq<Tile>)
    requires 3 * n <= |body|
    ensures |ts| == n
  {
    seq(n, i requires 0 <= i < n => FromDescriptor(body[3 * i], body[3 * i + 1], body[3 * i + 2]))
  }

  lemma NothingSent(s: State)
    ensures After(s, []) == s && Outputs(s, []) == []
    ensures PlanCycles([]) == [] && PlanReply(s, []) == []
  {
    hide Step, Output, TileCycles, TileReply;
  }

  class Streamer {
    const port: ChipPort

    constructor (p: ChipPort)
      ensures port == p
    {
      port := p;
    }

    /** One tile, unrolled on the spot; the reply is empty unless the tile ends a run. */
    method RunTileMacro(starts: bool, ends: bool, pw0: byte, pw1: byte, a0: byte, a1: byte)
        returns (psum: seq<byte>)
      requires port.Valid()
      modifies port
      ensures port.Valid() && port.origin == old(port.origin)
      ensures var t := Tile(pw0, pw1, Signed8(a0), Signed8(a1), 0, 0, starts, ends);
              port.log == old(port.log) + TileCycles(t) && psum == TileReply(old(port.s), t)
    {
      hide Step, Output, BodySeg, RdpSeg, After, Outputs, Signed8;
      ghost var t := Tile(pw0, pw1, Signed8(a0), Signed8(a1), 0, 0, starts, ends);
      RunBody(starts, pw0, pw1, a0, a1, t);
      psum := [];
      AfterConcat(port.origin, old(port.log), BodySeg(t));
      if ends {
        psum := RunRdp();
        Assoc(old(port.log), BodySeg(t), RdpSeg());
      }
    }

    /** Both psums, row-major, low byte first. */
    method RunRdp() returns (psum: seq<byte>)
      requires port.Valid()
      modifies port
      ensures port.Valid() && port.origin == old(port.origin)
      ensures port.log == old(port.log) + RdpSeg() && psum == Outputs(old(port.s), RdpSeg())
    {
      hide Step, Output, After, Outputs, PackUi, RowByteArg, RowBytes;
      ghost var seg := RdpSeg();
      NothingSent(port.s);
      assert seg[..0] == [];
      psum := [];
      for r := 0 to ROWS
        invariant port.Valid() && port.origin == old(port.origin) && port.log == old(port.log) + seg[..2 * r]
        invariant psum == Outputs(old(port.s), seg[..2 * r]) && port.s == After(old(port.s), seg[..2 * r])
      {
        for b := 0 to PSUM_BYTES
          invariant port.Valid() && port.origin == old(port.origin) && port.log == old(port.log) + seg[..2 * r + b]
          invariant psum == Outputs(old(port.s), seg[..2 * r + b]) && port.s == After(old(port.s), seg[..2 * r + b])
        {
          RowByteOrder(CMD_RDP, [0, 0, 0, 0], r, b);
          Snoc(old(port.s), seg[..2 * r + b], Cycle(PackUi(CMD_RDP, RowByteArg(r, b)), 0));
          var uo := port.ChipCycle(PackUi(CMD_RDP, RowByteArg(r, b)), 0);
          psum := psum + [uo];
        }
      }
      assert seg[..4] == seg;
    }

    method RunBody(starts: bool, pw0: byte, pw1: byte, a0: byte, a1: byte, ghost t: Tile)
      requires port.Valid()
      requires t.w0 == pw0 && t.w1 == pw1 && t.a0 == Signed8(a0) && t.a1 == Signed8(a1)
      requires t.seed0 == 0 && t.seed1 == 0 && t.starts == starts
      modifies port
      ensures port.Valid() && port.origin == old(port.origin)
      ensures port.log == old(port.log) + BodySeg(t)
    {
      hide Step, Output, After, HeadSeg, LdwSeg, LdaSeg, SeedSeg;
      ghost var log0 := port.log;
      RunLoads(starts, pw0, pw1, a0, a1, t);
      ghost var head, seeds := if starts then HeadSeg() else [], if starts then SeedSeg(t) else [];
      if starts {
        RunSeeds(t);
      }
      assert port.log == log0 + LoadSeg(t);
      RunFire();
      Assoc(log0, LoadSeg(t), FireSeg());
      assert BodySeg(t) == LoadSeg(t) + FireSeg();
    }

    method RunLoads(starts: bool, pw0: byte, pw1: byte, a0: byte, a1: byte, ghost t: Tile)
      requires port.Valid()
      requires t.w0 == pw0 && t.w1 == pw1 && t.a0 == Signed8(a0) && t.a1 == Signed8(a1)
      modifies port
      ensures port.Valid() && port.origin == old(port.origin)
      ensures port.log == old(port.log) + ((if starts then HeadSeg() else []) + LdwSeg(t) + LdaSeg(t))
    {
      hide Step, Output, After;
      var uo;
      ghost var log0 := port.log;
      ghost var head := if starts then HeadSeg() else [];
      if starts {
        uo := port.ChipCycle(PackUi(CMD_CLEAR, 0), 0);
        uo := port.ChipCycle(PackUi(CMD_NOP, 0), 0);
      }
      assert port.log == log0 + head;
      uo := port.ChipCycle(PackUi(CMD_LDW, 0), pw0);
      uo := port.ChipCycle(PackUi(CMD_LDW, 1), pw1);
      assert port.log == log0 + (head + LdwSeg(t));
      uo := port.ChipCycle(PackUi(CMD_LDA, 0), a0);
      uo := port.ChipCycle(PackUi(CMD_LDA, 1), a1);
    }

    method RunSeeds(ghost t: Tile)
      requires port.Valid() && t.seed0 == 0 && t.seed1 == 0
      modifies port
      ensures port.Valid() && port.origin == old(port.origin)
      ensures port.log == old(port.log) + SeedSeg(t)
    {
      hide Step, Output, After;
      ghost var log0 := port.log;
      for r := 0 to ROWS
        invariant port.Valid() && port.origin == old(port.origin)
        invariant port.log == log0 + SeedSeg(t)[..2 * r]
      {
        for b := 0 to PSUM_BYTES
          invariant port.Valid() && port.origin == old(port.origin)
          invariant port.log == log0 + SeedSeg(t)[..2 * r + b]
        {
          RowByteOrder(CMD_SEED, [0, 0, 0, 0], r, b);
          var uo := port.ChipCycle(PackUi(CMD_SEED, RowByteArg(r, b)), 0);
        }
      }
      assert SeedSeg(t)[..4] == SeedSeg(t);
    }

    method RunFire()
      requires port.Valid()
      modifies port
      ensures port.Valid() && port.origin == old(port.origin)
      ensures port.log == old(port.log) + FireSeg()
    {
      hide Step, Output, After;
      ghost var log0 := port.log;
      var uo := port.ChipCycle(PackUi(CMD_START, 0), 0);
      uo := port.ChipCycle(PackUi(CMD_NOP, 0), 0);
      for i := 0 to PAD_CYCLES
        invariant port.Valid() && port.origin == old(port.origin)
        invariant port.log == log0 + ([START] + Nops(1 + i))
      {
        uo := port.ChipCycle(PackUi(CMD_NOP, 0), 0);
        assert Nops(2 + i) == Nops(1 + i) + [NOP];
      }
    }

    /** 'X' mode: n raw (ui, uio) pairs, 64 at a time, one sampled byte back for each. */
    method ModeX(body: seq<byte>, n: nat) returns (rx: seq<byte>)
      requires port.Valid() && 2 * n <= |body|
      modifies port
      ensures port.Valid() && port.origin == old(port.origin)
      ensures port.log == old(port.log) + Pairs(body, n)
      ensures rx == Outputs(old(port.s), Pairs(body, n))
    {
      hide Step, Output, After, Outputs;
      NothingSent(port.s);
      ghost var cs := Pairs(body, n);
      rx := [];
      var remaining := n;
      assert cs[..0] == [];
      while remaining > 0
        invariant 0 <= remaining <= n
        invariant port.Valid() && port.origin == old(port.origin)
        invariant port.log == old(port.log) + cs[..n - remaining]
        invariant rx == Outputs(old(port.s), cs[..n - remaining])
      {
        var batch := if remaining < 64 then remaining else 64;
        var base := n - remaining;
        ghost var seg := cs[base..base + batch];
        AfterConcat(port.origin, old(port.log), cs[..base]);
        AfterConcat(old(port.s), cs[..base], seg);
        var out := BatchX(body, base, batch, n);
        assert cs[..base + batch] == cs[..base] + seg;
        rx := rx + out;
        remaining := remaining - batch;
      }
      assert cs[..n] == cs;
    }

    method BatchX(body: seq<byte>, base: nat, batch: nat, ghost n: nat) returns (out: seq<byte>)
      requires port.Valid() && 2 * n <= |body| && base + batch <= n
      modifies port
      ensures port.Valid() && port.origin == old(port.origin)
      ensures var seg := Pairs(body, n)[base..base + batch];
              port.log == old(port.log) + seg && out == Outputs(old(port.s), seg)
    {
      hide Step, Output;
      ghost var seg := Pairs(body, n)[base..base + batch];
      out := [];
      assert seg[..0] == [];
      for i := 0 to batch
        invariant port.Valid() && port.origin == old(port.origin)
        invariant port.log == old(port.log) + seg[..i]
        invariant port.s == After(old(port.s), seg[..i]) && out == Outputs(old(port.s), seg[..i])
      {
        hide After, Outputs;
        assert seg[..i + 1] == seg[..i] + [seg[i]];
        Snoc(old(port.s), seg[..i], seg[i]);
        var uo := port.ChipCycle(body[2 * (base + i)], body[2 * (base + i) + 1]);
        out := out + [uo];
      }
      assert seg[..batch] == seg;
    }

    /** 'M' mode: n 3-byte descriptors, 32 at a time, four bytes back per run tail. */
    method ModeM(body: seq<byte>, n: nat) returns (rx: seq<byte>)
      requires port.Valid() && 3 * n <= |body|
      modifies port
      ensures port.Valid() && port.origin == old(port.origin)
      ensures port.log == old(port.log) + PlanCycles(Tiles(body, n))
      ensures rx == PlanReply(old(port.s), Tiles(body, n))
    {
      hide Step, After, PlanCycles, PlanReply;
      NothingSent(port.s);
      ghost var ts := Tiles(body, n);
      rx := [];
      var remaining := n;
      assert ts[..0] == [];
      while remaining > 0
        invariant 0 <= remaining <= n
        invariant port.Valid() && port.origin == old(port.origin)
        invariant port.log == old(port.log) + PlanCycles(ts[..n - remaining])
        invariant rx == PlanReply(old(port.s), ts[..n - remaining])
      {
        var batch := if remaining < 32 then remaining else 32;
        var base := n - remaining;
        ghost var seg := ts[base..base + batch];
        AfterConcat(port.origin, old(port.log), PlanCycles(ts[..base]));
        PlanReplyConcat(old(port.s), ts[..base], seg);
        PlanCyclesConcat(ts[..base], seg);
        Assoc(old(port.log), PlanCycles(ts[..base]), PlanCycles(seg));
        var out := BatchM(body, base, batch, n);
        assert ts[..base + batch] == ts[..base] + seg;
        rx := rx + out;
        remaining := remaining - batch;
      }
      assert ts[..n] == ts;
    }

    method BatchM(body: seq<byte>, base: nat, batch: nat, ghost n: nat) returns (out: seq<byte>)
      requires port.Valid() && 3 * n <= |body| && base + batch <= n
      modifies port
      ensures port.Valid() && port.origin == old(port.origin)
      ensures var seg := Tiles(body, n)[base..base + batch];
              port.log == old(port.log) + PlanCycles(seg) && out == PlanReply(old(port.s), seg)
    {
      hide Step, TileCycles, TileReply;
      ghost var seg := Tiles(body, n)[base..base + batch];
      out := [];
      assert seg[..0] == [];
      for i := 0 to batch
        invariant port.Valid() && port.origin == old(port.origin)
        invariant port.log == old(port.log) + PlanCycles(seg[..i])
        invariant out == PlanReply(old(port.s), seg[..i])
      {
        hide After, PlanCycles, PlanReply;
        var j := base + i;
        assert seg[..i + 1] == seg[..i] + [seg[i]];
        PlanSnoc(old(port.s), seg[..i], seg[i]);
        AfterConcat(port.origin, old(port.log), PlanCycles(seg[..i]));
        Assoc(old(port.log), PlanCycles(seg[..i]), TileCycles(seg[i]));
        var a0, a1, packed := body[3 * j], body[3 * j + 1], body[3 * j + 2];
        var psum := RunTileMacro(packed / 16 % 2 == 1, packed / 32 % 2 == 1, packed % 4, packed / 4 % 4, a0, a1);
        out := out + psum;
      }
      assert seg[..batch] == seg;
    }
  }

  // ----- the two modes agree -----

  function Encoded(ops: seq<Tile>): (b: seq<byte>)
    ensures |b| == 3 * |ops|
  {
    if ops == [] then [] else Encoded(ops[..|ops| - 1]) + Descriptor(ops[|ops| - 1])
  }

  lemma {:induction false} EncodedAt(ops: seq<Tile>, i: nat)
    requires i < |ops|
    ensures Encoded(ops)[3 * i..3 * i + 3] == Descriptor(ops[i])
  {
    hide Descriptor;
    var n := |ops| - 1;
    var init, last := Encoded(ops[..n]), Descriptor(ops[n]);
    if i < n {
      EncodedAt(ops[..n], i);
      assert (init + last)[3 * i..3 * i + 3] == init[3 * i..3 * i + 3];
    }
  }

  function WirePlan(ops: seq<Tile>): (ws: seq<Tile>)
    ensures |ws| == |ops|
    ensures forall i :: 0 <= i < |ops| ==> ws[i] == Wire(ops[i])
  {
    seq(|ops|, i requires 0 <= i < |ops| => Wire(ops[i]))
  }

  /** Encoding a plan and reading the descriptors back gives the plan's wire form. */
  lemma WireRoundTrip(ops: seq<Tile>)
    requires forall t <- ops :: t.Valid()
    ensures Tiles(Encoded(ops), |ops|) == WirePlan(ops)
    ensures forall t <- WirePlan(ops) :: t.Valid()
    ensures (forall t <- ops :: t.OnWire()) ==> WirePlan(ops) == ops
  {
    hide Encoded, Tiles, Wire;
    var ts, ws := Tiles(Encoded(ops), |ops|), WirePlan(ops);
    forall i | 0 <= i < |ops|
      ensures ts[i] == Wire(ops[i]) && Wire(ops[i]).Valid()
    {
      TileAt(ops, i);
    }
    assert ts == ws;
  }

  lemma TileAt(ops: seq<Tile>, i: nat)
    requires i < |ops| && forall t <- ops :: t.Valid()
    ensures Tiles(Encoded(ops), |ops|)[i] == Wire(ops[i]) && Wire(ops[i]).Valid()
  {
    hide FromDescriptor, Descriptor, Encoded, Wire;
    EncodedAt(ops, i);
    var b, d := Encoded(ops), Descriptor(ops[i]);
    assert ops[i] in ops;
    DescriptorRoundTrip(ops[i]);
    assert b[3 * i..3 * i + 3] == d;
    assert b[3 * i] == d[0] && b[3 * i + 1] == d[1] && b[3 * i + 2] == d[2];
  }

  /** The byte pairs of a whole plan, as BuildTilePairs lays out each tile. */
  ghost predicate IsPairStream(b: seq<byte>, ops: seq<Tile>)
  {
    2 * |PlanCycles(ops)| <= |b| && Pairs(b, |PlanCycles(ops)|) == PlanCycles(ops)
  }

  /** The pairs of a plan: each tile's, in order. */
  method BuildPlanPairs(ops: seq<Tile>) returns (pairs: seq<byte>)
    requires forall t <- ops :: t.Valid()
    ensures |pairs| == 2 * |PlanCycles(ops)| && IsPairStream(pairs, ops)
  {
    hide Pairs, PlanCycles, TileCycles;
    pairs := [];
    NoPairs();
    for i := 0 to |ops|
      invariant |pairs| == 2 * |PlanCycles(ops[..i])| && IsPairStream(pairs, ops[..i])
    {
      var t := ops[i];
      assert t in ops;
      var dst := new byte[2 * TileCyclesFor(t.starts, t.ends)];
      var n, rdp := BuildTilePairs(dst, t);
      PairsJoin(pairs, |PlanCycles(ops[..i])|, dst[..], n);
      PlanCyclesStep(ops, i);
      pairs := pairs + dst[..];
    }
    assert ops[..|ops|] == ops;
  }

  lemma NoPairs()
    ensures PlanCycles([]) == [] && Pairs([], 0) == []
  {
  }

  lemma PlanCyclesStep(ops: seq<Tile>, i: nat)
    requires i < |ops|
    ensures PlanCycles(ops[..i + 1]) == PlanCycles(ops[..i]) + TileCycles(ops[i])
  {
    hide TileCycles;
    assert ops[..i + 1][..i] == ops[..i];
  }

  lemma PairsJoin(a: seq<byte>, m: nat, b: seq<byte>, n: nat)
    requires |a| == 2 * m && |b| == 2 * n
    ensures Pairs(a + b, m + n) == Pairs(a, m) + Pairs(b, n)
  {
    var x, y := Pairs(a + b, m + n), Pairs(a, m) + Pairs(b, n);
    forall i | 0 <= i < m + n ensures x[i] == y[i] {
      if i >= m {
        assert (a + b)[2 * i] == b[2 * (i - m)] && (a + b)[2 * i + 1] == b[2 * (i - m) + 1];
      }
    }
  }

  /**
   The two modes side by side, from chips in the same state: the plan's pairs sent through
   'X' and its descriptors through 'M' put the same cycles on the chip and leave it in the
   same state, and the 'M' reply is the 'X' samples cut to the RDP cycles.
   */
  method ModesAgree(x: Streamer, m: Streamer, ops: seq<Tile>) returns (rxX: seq<byte>, rxM: seq<byte>)
    requires x.port != m.port && x.port.Valid() && m.port.Valid() && x.port.s == m.port.s
    requires forall t <- ops :: t.OnWire()
    modifies x.port, m.port
    ensures x.port.Valid() && m.port.Valid() && x.port.s == m.port.s
    ensures x.port.log == old(x.port.log) + PlanCycles(ops) && m.port.log == old(m.port.log) + PlanCycles(ops)
    ensures |rxX| == |PlanCycles(ops)| && rxM == RdpBytes(PlanCycles(ops), rxX)
  {
    hide PlanCycles, PlanReply, After, Outputs, Encoded, Tiles, Pairs, RdpBytes;
    ghost var s, cs := x.port.s, PlanCycles(ops);
    assert forall t <- ops :: t.Valid();
    var pairs := BuildPlanPairs(ops);
    rxX := x.ModeX(pairs, |pairs| / 2);
    AfterConcat(x.port.origin, old(x.port.log), cs);
    WireRoundTrip(ops);
    rxM := m.ModeM(Encoded(ops), |ops|);
    AfterConcat(m.port.origin, old(m.port.log), cs);
    RdpProjection(s, ops);
  }

  /** The sampled bytes that answer RDP commands. */
  function RdpBytes(cs: seq<Cycle>, out: seq<byte>): seq<byte>
    requires |cs| == |out|
  {
    if cs == [] then []
    else
      var n := |cs| - 1;
      RdpBytes(cs[..n], out[..n]) + if cs[n].ui % 8 == CMD_RDP then [out[n]] else []
  }

  lemma {:induction false} RdpConcat(x: seq<Cycle>, y: seq<Cycle>, a: seq<byte>, b: seq<byte>)
    requires |x| == |a| && |y| == |b|
    ensures RdpBytes(x + y, a + b) == RdpBytes(x, a) + RdpBytes(y, b)
  {
    if y == [] {
      assert x + y == x && a + b == a;
    } else {
      var n := |y| - 1;
      var last := if y[n].ui % 8 == CMD_RDP then [b[n]] else [];
      RdpConcat(x, y[..n], a, b[..n]);
      assert (x + y)[..|x + y| - 1] == x + y[..n] && (a + b)[..|x + y| - 1] == a + b[..n];
      Assoc(RdpBytes(x, a), RdpBytes(y[..n], b[..n]), last);
    }
  }

  predicate AllRdp(cs: seq<Cycle>, yes: bool)
  {
    forall i :: 0 <= i < |cs| ==> (cs[i].ui % 8 == CMD_RDP <==> yes)
  }

  lemma {:induction false} RdpUniform(cs: seq<Cycle>, out: seq<byte>, yes: bool)
    requires |cs| == |out| && AllRdp(cs, yes)
    ensures RdpBytes(cs, out) == if yes then out else []
  {
    if cs != [] {
      var n := |cs| - 1;
      RdpUniform(cs[..n], out[..n], yes);
      assert out == out[..n] + [out[n]];
    }
  }

  lemma AllRdpConcat(x: seq<Cycle>, y: seq<Cycle>, yes: bool)
    requires AllRdp(x, yes) && AllRdp(y, yes)
    ensures AllRdp(x + y, yes)
  {
  }

  lemma PackUiCommand(cmd: nat, arg: nat)
    requires cmd < 8
    ensures PackUi(cmd, arg) % 8 == cmd
  {
    DivByEight(arg % 32, cmd);
  }

  lemma SegmentKinds(t: Tile)
    ensures AllRdp(HeadSeg(), false) && AllRdp(LdwSeg(t), false) && AllRdp(LdaSeg(t), false)
    ensures AllRdp(SeedSeg(t), false) && AllRdp(FireSeg(), false) && AllRdp(RdpSeg(), true) && AllRdp([], false)
  {
    hide PackUi, RowByteArg, ByteOf;
    forall cmd: nat, arg: nat | cmd < 8
      ensures PackUi(cmd, arg) % 8 == cmd
    {
      PackUiCommand(cmd, arg);
    }
  }

  lemma BodyKind(t: Tile)
    ensures AllRdp(BodySeg(t), false) && AllRdp(RdpSeg(), true)
  {
    SegmentKinds(t);
    hide AllRdp, HeadSeg, LdwSeg, LdaSeg, SeedSeg, FireSeg, RdpSeg;
    var head, seeds := if t.starts then HeadSeg() else [], if t.starts then SeedSeg(t) else [];
    AllRdpConcat(head, LdwSeg(t), false);
    AllRdpConcat(head + LdwSeg(t), LdaSeg(t), false);
    AllRdpConcat(head + LdwSeg(t) + LdaSeg(t), seeds, false);
    AllRdpConcat(head + LdwSeg(t) + LdaSeg(t) + seeds, FireSeg(), false);
  }

  lemma TileProjection(s: State, t: Tile)
    ensures TileReply(s, t) == RdpBytes(TileCycles(t), Outputs(s, TileCycles(t)))
  {
    hide Step, After, Outputs, BodySeg, RdpSeg, RdpBytes, AllRdp;
    BodyKind(t);
    var b := After(s, BodySeg(t));
    RdpUniform(BodySeg(t), Outputs(s, BodySeg(t)), false);
    if t.ends {
      AfterConcat(s, BodySeg(t), RdpSeg());
      RdpUniform(RdpSeg(), Outputs(b, RdpSeg()), true);
      RdpConcat(BodySeg(t), RdpSeg(), Outputs(s, BodySeg(t)), Outputs(b, RdpSeg()));
    } else {
      assert TileCycles(t) == BodySeg(t);
    }
  }

  lemma {:induction false} RdpProjection(s: State, ops: seq<Tile>)
    ensures PlanReply(s, ops) == RdpBytes(PlanCycles(ops), Outputs(s, PlanCycles(ops)))
  {
    hide Step, TileCycles, TileReply, After;
    if ops != [] {
      hide Outputs, PlanReply, PlanCycles, RdpBytes;
      var init, t := ops[..|ops| - 1], ops[|ops| - 1];
      assert ops == init + [t];
      RdpProjection(s, init);
      PlanSnoc(s, init, t);
      var m := After(s, PlanCycles(init));
      TileProjection(m, t);
      AfterConcat(s, PlanCycles(init), TileCycles(t));
      RdpConcat(PlanCycles(init), TileCycles(t), Outputs(s, PlanCycles(init)), Outputs(m, TileCycles(t)));
    }
  }
}

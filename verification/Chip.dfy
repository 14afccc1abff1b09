/**
 The 2x2 W1A8 systolic tile, one clock edge at a time: the command decoder, the
 LOAD/RUN sequencer, the weight, activation and accumulator scratchpads and the
 four processing elements, all at the widths the top module instantiates.

 The main result is FireLaw: one START and seven NOPs move the tile from a quiet
 idle state back to a quiet idle state whose accumulators have each gained the
 signed dot product of the loaded weights and activations (modulo 2^16), and the
 tile is busy after every one of the cycles before the last. Seven is therefore
 the exact number of NOPs a driver has to send.
 */
module Chip {
  import opened Common

  const CMD_STATUS: nat := 0
  const CMD_CLEAR: nat := 1
  const CMD_LDW: nat := 2
  const CMD_LDA: nat := 3
  const CMD_SEED: nat := 4
  const CMD_START: nat := 5
  const CMD_RDP: nat := 6
  const CMD_NOP: nat := 7

  const ROWS: nat := 2
  const COLS: nat := 2

  /** One clock cycle as the host drives it: the two input buses. */
  datatype Cycle = Cycle(ui: byte, uio: byte)

  datatype Phase = Idle | Load | Run

  /** A processing element: its stored weight bit and its output registers. */
  datatype Pe = Pe(weight: bool, act: int, psum: int, valid: bool)

  /** Every register of the tile. `wRC` is the weight scratchpad, `pRC` the array. */
  datatype State = State(
    phase: Phase, step: nat, done: bool, weightDone: bool, error: bool,
    w00: bool, w01: bool, w10: bool, w11: bool,
    a0: int, a1: int,
    p00: Pe, p01: Pe, p10: Pe, p11: Pe,
    acc0: int, acc1: int, got0: bool, got1: bool)

  // ----- two's-complement views -----

  /** The signed 16-bit value congruent to x. */
  function Wrap16(x: int): (r: int)
    ensures -32768 <= r < 32768
  {
    (x + 32768) % 65536 - 32768
  }

  lemma WrapAdd(x: int, y: int)
    ensures Wrap16(Wrap16(x) + y) == Wrap16(x + y)
  {
    var d := (x + 32768) / 65536;
    assert Wrap16(x) == x - 65536 * d;
    WrapShift(x + y, d);
  }

  lemma WrapShift(x: int, d: int)
    ensures Wrap16(x - 65536 * d) == Wrap16(x)
  {
    var m := x + 32768;
    assert m - 65536 * d == 65536 * (m / 65536 - d) + m % 65536;
  }

  lemma WrapId(x: int)
    requires -32768 <= x < 32768
    ensures Wrap16(x) == x
  {
  }

  function Signed8(b: byte): (r: int)
    ensures -128 <= r < 128
  {
    if b < 128 then b else b - 256
  }

  /** The byte of a 16-bit register that SEED writes and RDP reads: 0 low, 1 high. */
  function ByteOf(acc: int, i: nat): (b: byte)
  {
    if i == 0 then acc % 256 else acc / 256 % 256
  }

  function WithByte(acc: int, i: nat, b: byte): int
  {
    if i == 0 then Wrap16(acc - acc % 256 + b) else Wrap16(b * 256 + acc % 256)
  }

  // ----- one clock edge -----

  function Bit(b: byte, i: nat): bool
  {
    if i == 0 then b % 2 == 1 else b / 2 % 2 == 1
  }

  /** A processing element's next registers (w1a8_pe). */
  function PeNext(p: Pe, load: bool, weightIn: bool, actIn: int, psumIn: int, validIn: bool): Pe
  {
    if load then Pe(weightIn, 0, 0, false)
    else Pe(p.weight, actIn,
            if validIn then Wrap16(psumIn + if p.weight then actIn else -actIn) else 0,
            validIn)
  }

  function Clog2(n: nat): nat
  {
    if n <= 1 then 0 else 1 + Clog2((n + 1) / 2)
  }

  function Pow2(w: nat): (p: nat)
    ensures p >= 1
  {
    if w == 0 then 1 else 2 * Pow2(w - 1)
  }

  /** Bits a memory of n rows or columns takes from the argument to select one. */
  function SelWidth(n: nat): nat
  {
    if n <= 1 then 1 else Clog2(n)
  }

  /** The row or column the low argument bits select. */
  function Selected(arg: nat, n: nat): nat
  {
    arg % Pow2(SelWidth(n))
  }

  /** A write selects a row or column the memory does not have. */
  function ErrorPulse(s: State, c: Cycle): bool
  {
    var cmd, arg := c.ui % 8, c.ui / 8;
    s.phase.Idle? &&
    (|| (cmd == CMD_LDW && Selected(arg, ROWS) >= ROWS)
     || (cmd == CMD_LDA && Selected(arg, COLS) >= COLS)
     || (cmd == CMD_SEED && Selected(arg, ROWS) >= ROWS))
  }

  function PeClear(p: Pe): Pe
  {
    Pe(p.weight, 0, 0, false)
  }

  function Cleared(s: State): State
  {
    State(Idle, 0, false, false, false,
          s.w00, s.w01, s.w10, s.w11, 0, 0,
          PeClear(s.p00), PeClear(s.p01), PeClear(s.p10), PeClear(s.p11),
          0, 0, false, false)
  }

  /** The whole tile after one clock edge with (ui, uio) on the input pins. */
  function Step(s: State, c: Cycle): State
  {
    var cmd := c.ui % 8;
    var sel := c.ui / 8 % 2;
    var sub := c.ui / 16 % 2;
    if cmd == CMD_CLEAR then Cleared(s)
    else
      var idle, load, run := s.phase.Idle?, s.phase.Load?, s.phase.Run?;
      var start := idle && cmd == CMD_START;
      var ldw, lda, seed := idle && cmd == CMD_LDW, idle && cmd == CMD_LDA, idle && cmd == CMD_SEED;
      var firstCol := s.step % 2 == 1;   // the column shifted in this cycle is 1 - step
      var drive0, drive1 := run && s.step == 0, run && s.step == 1;
      var act0, act1 := if drive0 then s.a0 else 0, if drive1 then s.a1 else 0;
      State(
        if start then Load
        else if load && s.step == 1 then Run
        else if run && s.step >= 3 && s.got0 && s.got1 then Idle
        else s.phase,
        if start || (load && s.step == 1) then 0
        else if load then (s.step + 1) % 4
        else if run && s.step < 3 then s.step + 1
        else s.step,
        if start then false else if run && s.step >= 3 && s.got0 && s.got1 then true else s.done,
        if start then false else if load && s.step == 1 then true else s.weightDone,
        s.error || ErrorPulse(s, c),
        if ldw && sel == 0 then Bit(c.uio, 0) else s.w00,
        if ldw && sel == 0 then Bit(c.uio, 1) else s.w01,
        if ldw && sel == 1 then Bit(c.uio, 0) else s.w10,
        if ldw && sel == 1 then Bit(c.uio, 1) else s.w11,
        if lda && sel == 0 then Signed8(c.uio) else s.a0,
        if lda && sel == 1 then Signed8(c.uio) else s.a1,
        PeNext(s.p00, load, if firstCol then s.w00 else s.w01, act0, s.acc0, drive0),
        PeNext(s.p01, load, s.p00.weight, act1, s.p00.psum, s.p00.valid),
        PeNext(s.p10, load, if firstCol then s.w10 else s.w11, s.p00.act, s.acc1, drive1),
        PeNext(s.p11, load, s.p10.weight, s.p01.act, s.p10.psum, s.p10.valid),
        if seed && sel == 0 then WithByte(if s.p01.valid then s.p01.psum else s.acc0, sub, c.uio)
        else if s.p01.valid then s.p01.psum else s.acc0,
        if seed && sel == 1 then WithByte(if s.p11.valid then s.p11.psum else s.acc1, sub, c.uio)
        else if s.p11.valid then s.p11.psum else s.acc1,
        !start && (s.got0 || s.p01.valid),
        !start && (s.got1 || s.p11.valid))
  }

  lemma {:induction false} Clog2Bounds(n: nat)
    ensures n <= Pow2(Clog2(n))
  {
    if n > 1 {
      Clog2Bounds((n + 1) / 2);
    }
  }

  /** A five-bit argument can select past the end exactly when the size is not the full power of two. */
  lemma OutOfRangeSelectors(n: nat)
    requires 1 <= n <= 32
    ensures (exists arg: nat :: arg < 32 && Selected(arg, n) >= n) <==> n != Pow2(SelWidth(n))
  {
    hide Pow2, SelWidth;
    SelBounds(n);
    var p := Pow2(SelWidth(n));
    if n < p {
      SmallMod(n, p);
      assert Selected(n, n) >= n;
    }
  }

  lemma SelBounds(n: nat)
    requires 1 <= n <= 32
    ensures n <= Pow2(SelWidth(n)) && (n == 32 ==> Pow2(SelWidth(n)) == 32)
  {
    if n == 1 {
      assert Pow2(1) == 2 * Pow2(0);
    } else {
      Clog2Bounds(n);
      Pow2Clog32();
    }
  }

  lemma Pow2Clog32()
    ensures Pow2(Clog2(32)) == 32
  {
  }

  /** On this tile the selector is one bit and both memories have two entries. */
  lemma NoErrorPulse(s: State, c: Cycle)
    ensures !ErrorPulse(s, c) && Selected(c.ui / 8, ROWS) == c.ui / 8 % 2 == Selected(c.ui / 8, COLS)
  {
    assert Clog2(1) == 0 && Clog2(2) == 1 && Pow2(0) == 1 && Pow2(1) == 2;
  }

  function Weight(b: bool): nat
  {
    if b then 1 else 0
  }

  function Status(s: State): byte
  {
    Weight(!s.phase.Idle?) + 2 * Weight(s.done) + 4 * Weight(s.weightDone)
    + 8 * Weight(s.got0 && s.got1) + 48 * Weight(s.phase.Idle?) + 64 * Weight(s.error)
  }

  /** The output bus as sampled after the edge, the command still on the pins. */
  function Output(s: State, c: Cycle): byte
  {
    if c.ui % 8 == CMD_RDP
    then ByteOf(if c.ui / 8 % 2 == 0 then s.acc0 else s.acc1, c.ui / 16 % 2)
    else Status(s)
  }

  // ----- runs of cycles -----

  function After(s: State, cs: seq<Cycle>): State
  {
    if cs == [] then s else Step(After(s, cs[..|cs| - 1]), cs[|cs| - 1])
  }

  /** The bytes sampled over a run, one per cycle. */
  function Outputs(s: State, cs: seq<Cycle>): (o: seq<byte>)
    ensures |o| == |cs|
  {
    if cs == [] then []
    else Outputs(s, cs[..|cs| - 1]) + [Output(After(s, cs), cs[|cs| - 1])]
  }

  lemma Assoc<T>(a: seq<T>, b: seq<T>, c: seq<T>)
    ensures (a + b) + c == a + (b + c)
  {
  }

  lemma Snoc(s: State, cs: seq<Cycle>, c: Cycle)
    ensures After(s, cs + [c]) == Step(After(s, cs), c)
    ensures Outputs(s, cs + [c]) == Outputs(s, cs) + [Output(After(s, cs + [c]), c)]
  {
    hide Step, Output;
    assert (cs + [c])[..|cs + [c]| - 1] == cs;
  }

  lemma {:induction false} AfterConcat(s: State, x: seq<Cycle>, y: seq<Cycle>)
    ensures After(s, x + y) == After(After(s, x), y)
    ensures Outputs(s, x + y) == Outputs(s, x) + Outputs(After(s, x), y)
  {
    hide Step, Output;
    if y == [] {
      assert x + y == x;
    } else {
      hide After, Outputs;
      var y', c := y[..|y| - 1], y[|y| - 1];
      assert y == y' + [c];
      AfterConcat(s, x, y');
      Snoc(s, x + y', c);
      Snoc(After(s, x), y', c);
      Assoc(x, y', [c]);
      Assoc(Outputs(s, x), Outputs(After(s, x), y'), [Output(After(s, x + y), c)]);
    }
  }

  // ----- what one fire computes -----

  /** NOPs from START to the end of the weight shift, and from there to idle. */
  const LOAD_CYCLES: nat := 2
  const RUN_CYCLES: nat := 5

  const NOP := Cycle(CMD_NOP, 0)
  const START := Cycle(CMD_START, 0)

  /** Idle with no partial sum in flight: nothing can change until a command does it. */
  predicate Quiet(s: State)
  {
    s.phase.Idle? && !s.p00.valid && !s.p01.valid && !s.p10.valid && !s.p11.valid
  }

  function Contribution(w: bool, a: int): int
  {
    if w then a else -a
  }

  function Dot0(s: State): int
  {
    Contribution(s.w00, s.a0) + Contribution(s.w01, s.a1)
  }

  function Dot1(s: State): int
  {
    Contribution(s.w10, s.a0) + Contribution(s.w11, s.a1)
  }

  /** `b` holds the same host-visible registers as `a`. */
  predicate SameInputs(a: State, b: State)
  {
    a.w00 == b.w00 && a.w01 == b.w01 && a.w10 == b.w10 && a.w11 == b.w11
    && a.a0 == b.a0 && a.a1 == b.a1 && a.error == b.error
  }

  function Nops(n: nat): (cs: seq<Cycle>)
    ensures |cs| == n && forall i :: 0 <= i < n ==> cs[i] == NOP
  {
    seq(n, i => NOP)
  }

  function Wait(s: State, n: nat): State
  {
    if n == 0 then s else Step(Wait(s, n - 1), NOP)
  }

  lemma {:induction false} AfterNops(s: State, n: nat)
    ensures After(s, Nops(n)) == Wait(s, n)
  {
    hide Step;
    if n > 0 {
      assert Nops(n)[..n - 1] == Nops(n - 1);
      AfterNops(s, n - 1);
    }
  }

  /** START and two cycles shift both weight columns into the array. */
  lemma LoadPhase(s: State)
    requires Quiet(s)
    ensures var t := Wait(Step(s, START), LOAD_CYCLES);
            Wave(t, t, 0) && SameInputs(s, t) && t.acc0 == s.acc0 && t.acc1 == s.acc1
    ensures forall i :: 0 <= i <= LOAD_CYCLES ==> !Wait(Step(s, START), i).phase.Idle?
  {
    var u := Step(s, START);
    var v := Step(u, NOP);
    LoadSteps(s, u, v, Step(v, NOP));
    hide Step;
    assert Wait(u, 0) == u && Wait(u, 1) == v && Wait(u, 2) == Step(v, NOP);
  }

  lemma LoadSteps(s: State, u: State, v: State, t: State)
    requires Quiet(s) && u == Step(s, START) && v == Step(u, NOP) && t == Step(v, NOP)
    ensures Wave(t, t, 0) && SameInputs(s, t) && t.acc0 == s.acc0 && t.acc1 == s.acc1
    ensures !u.phase.Idle? && !v.phase.Idle? && !t.phase.Idle?
  {
    assert u.phase.Load? && u.step == 0 && SameInputs(s, u) && u.acc0 == s.acc0 && u.acc1 == s.acc1
           && !u.got0 && !u.got1 && !u.p01.valid && !u.p11.valid;
    assert v.phase.Load? && v.step == 1 && SameInputs(s, v) && v.acc0 == s.acc0 && v.acc1 == s.acc1
           && !v.got0 && !v.got1 && v.p00 == Pe(s.w01, 0, 0, false) && v.p10 == Pe(s.w11, 0, 0, false)
           && !v.p01.valid && !v.p11.valid;
  }

  /** What the array holds after `n` cycles of the run that began in `t`. */
  predicate Wave(t: State, s: State, n: nat)
  {
    s.phase.Run? && SameInputs(t, s) && s.step == (if n < 3 then n else 3)
    && s.p00.weight == t.w00 && s.p01.weight == t.w01
    && s.p10.weight == t.w10 && s.p11.weight == t.w11
    && (s.p00.valid <==> n == 1) && (s.p01.valid <==> n == 2)
    && (s.p10.valid <==> n == 2) && (s.p11.valid <==> n == 3)
    && (n == 1 ==> s.p00.psum == Wrap16(t.acc0 + Contribution(t.w00, t.a0)) && s.p00.act == t.a0)
    && (n == 2 ==> s.p01.psum == Wrap16(t.acc0 + Dot0(t)) && s.p01.act == t.a1
                   && s.p10.psum == Wrap16(t.acc1 + Contribution(t.w10, t.a0)))
    && (n == 3 ==> s.p11.psum == Wrap16(t.acc1 + Dot1(t)))
    && (s.got0 <==> n >= 3) && (s.got1 <==> n >= 4)
    && s.acc0 == (if n >= 3 then Wrap16(t.acc0 + Dot0(t)) else t.acc0)
    && s.acc1 == (if n >= 4 then Wrap16(t.acc1 + Dot1(t)) else t.acc1)
  }

  lemma WaveStep(t: State, s: State, n: nat)
    requires n < 4 && Wave(t, s, n)
    ensures Wave(t, Step(s, NOP), n + 1)
  {
    if n == 1 {
      WrapAdd(t.acc0 + Contribution(t.w00, t.a0), Contribution(t.w01, t.a1));
    } else if n == 2 {
      WrapAdd(t.acc1 + Contribution(t.w10, t.a0), Contribution(t.w11, t.a1));
    }
  }

  lemma WaveEnds(t: State, s: State)
    requires Wave(t, s, 4)
    ensures var r := Step(s, NOP);
            Quiet(r) && SameInputs(t, r)
            && r.acc0 == Wrap16(t.acc0 + Dot0(t)) && r.acc1 == Wrap16(t.acc1 + Dot1(t))
  {
  }

  lemma {:induction false} WaveRuns(t: State, n: nat)
    requires n <= 4 && Wave(t, t, 0)
    ensures Wave(t, Wait(t, n), n)
  {
    hide Step, Wave;
    if n > 0 {
      WaveRuns(t, n - 1);
      WaveStep(t, Wait(t, n - 1), n - 1);
    }
  }

  /** The skewed wavefront: row 0 leaves the array one cycle before row 1. */
  lemma RunPhase(t: State)
    requires Wave(t, t, 0)
    ensures Fired(t, Wait(t, RUN_CYCLES))
    ensures forall i :: 0 <= i < RUN_CYCLES ==> !Wait(t, i).phase.Idle?
  {
    hide Step;
    forall i | 0 <= i < RUN_CYCLES
      ensures !Wait(t, i).phase.Idle?
    {
      WaveRuns(t, i);
    }
    WaveRuns(t, RUN_CYCLES - 1);
    WaveEnds(t, Wait(t, RUN_CYCLES - 1));
  }

  /** `r` is quiet again and each accumulator has gained its row's dot product. */
  predicate Fired(s: State, r: State)
  {
    Quiet(r) && SameInputs(s, r)
    && r.acc0 == Wrap16(s.acc0 + Dot0(s)) && r.acc1 == Wrap16(s.acc1 + Dot1(s))
  }

  lemma {:induction false} WaitConcat(s: State, m: nat, n: nat)
    ensures Wait(s, m + n) == Wait(Wait(s, m), n)
  {
    hide Step;
    if n > 0 {
      WaitConcat(s, m, n - 1);
    }
  }

  /** One fire, end to end, with its exact latency. */
  lemma FireLaw(s: State)
    requires Quiet(s)
    ensures Fired(s, Wait(Step(s, START), LOAD_CYCLES + RUN_CYCLES))
    ensures forall i :: 0 <= i < LOAD_CYCLES + RUN_CYCLES ==> !Wait(Step(s, START), i).phase.Idle?
  {
    hide Step;
    var u := Step(s, START);
    LoadPhase(s);
    var t := Wait(u, LOAD_CYCLES);
    RunPhase(t);
    WaitConcat(u, LOAD_CYCLES, RUN_CYCLES);
    FireFrom(s, t, Wait(t, RUN_CYCLES));
    forall i | 0 <= i < LOAD_CYCLES + RUN_CYCLES
      ensures !Wait(u, i).phase.Idle?
    {
      if i >= LOAD_CYCLES {
        StillBusy(u, t, i);
      }
    }
  }

  lemma FireFrom(s: State, t: State, r: State)
    requires SameInputs(s, t) && t.acc0 == s.acc0 && t.acc1 == s.acc1
    requires Fired(t, r)
    ensures Fired(s, r)
  {
  }

  lemma StillBusy(u: State, t: State, i: nat)
    requires LOAD_CYCLES <= i < LOAD_CYCLES + RUN_CYCLES
    requires t == Wait(u, LOAD_CYCLES)
    requires forall j :: 0 <= j < RUN_CYCLES ==> !Wait(t, j).phase.Idle?
    ensures !Wait(u, i).phase.Idle?
  {
    hide Step;
    WaitConcat(u, LOAD_CYCLES, i - LOAD_CYCLES);
  }

  /** A host write is ignored while the tile is busy: only CLEAR gets through. */
  lemma BusyIgnoresWrites(s: State, c: Cycle)
    requires !s.phase.Idle? && c.ui % 8 != CMD_CLEAR
    ensures Step(s, c) == Step(s, NOP)
  {
  }

  predicate NoClear(cs: seq<Cycle>)
  {
    forall i :: 0 <= i < |cs| ==> cs[i].ui % 8 != CMD_CLEAR
  }

  /** Whatever is sent while a chip stays busy, but for CLEAR, it does as on NOPs. */
  lemma {:induction false} BusyAsNops(u: State, cs: seq<Cycle>)
    requires NoClear(cs) && forall i :: 0 <= i < |cs| ==> !Wait(u, i).phase.Idle?
    ensures After(u, cs) == Wait(u, |cs|)
  {
    hide Step;
    if cs != [] {
      var n := |cs| - 1;
      BusyAsNops(u, cs[..n]);
      BusyIgnoresWrites(Wait(u, n), cs[n]);
    }
  }

  /** A fire comes out the same whatever the host sends in its seven cycles, CLEAR apart. */
  lemma FireUndisturbed(s: State, cs: seq<Cycle>)
    requires Quiet(s) && |cs| == LOAD_CYCLES + RUN_CYCLES && NoClear(cs)
    ensures Fired(s, After(Step(s, START), cs))
  {
    hide Step, Wait, After, Fired;
    FireLaw(s);
    BusyAsNops(Step(s, START), cs);
  }
}

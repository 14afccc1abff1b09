/**
 RUN_GRAPH's single-in-flight pipelining scheduler.

 A pipelined matmul is issued and left streaming: its DMA may fetch each weight byte and
 land each result byte at any moment until it is completed, between any two micro-steps
 of the ops that run meanwhile. An oracle chooses those moments. RunGraph leaves the memory
 of Run. Under the arena rule that is the memory of running the ops one after the other,
 for every oracle (RuleIsSound). The rule is read off the ops' footprints alone; module
 Exactness shows that nothing less will do.
 */
module Scheduler {
  import opened Common

  /** One byte of one tensor. */
  datatype Cell = Cell(handle: int, off: int)

  type Memory = map<Cell, byte>

  function Restrict(m: Memory, s: set<Cell>): Memory
  {
    map c | c in s && c in m :: m[c]
  }

  // ----- ops -----

  /** One atomic piece of a kernel: what it writes is a function of what it reads. */
  datatype Step = Step(reads_: set<Cell>, writes: set<Cell>, f: (Memory, Cell) -> byte)

  /** A matmul: activations copied at issue, weights fetched and result landed by DMA. */
  datatype Mat = Mat(
    acts: set<Cell>, weights: set<Cell>, dst: int, lo: int, hi: int,
    deps: Cell -> set<Cell>, val: (Memory, Memory, Cell) -> byte)
  {
    function Dst(): set<Cell>
    {
      set o | lo <= o < hi :: Cell(dst, o)
    }

    /** The weight bytes some result byte is computed from. */
    function Used(): set<Cell>
    {
      set c, w | c in Dst() && w in deps(c) :: w
    }

    /** The same matmul as one atomic piece. */
    function AsStep(): Step
    {
      Step(acts + weights, Dst(), (m: Memory, c: Cell) => val(Restrict(m, acts), Restrict(m, deps(c)), c))
    }

    ghost predicate Ok(cells: set<Cell>)
    {
      && acts + weights + Dst() <= cells
      && Dst() !! weights
      && forall c :: c in Dst() ==> deps(c) <= weights
    }
  }

  datatype Body = Steps(steps: seq<Step>) | Dma(mat: Mat)

  /** A tensor an op names: its handle, and its offset if given. */
  datatype Ref = Ref(handle: int, offset: Option<int>)

  /** refs has one entry per tensor role. */
  datatype Op = Op(refs: seq<Option<Ref>>, pl: bool, hasAsync: bool, body: Body)
  {
    function Pieces(): seq<Step>
    {
      match body
      case Steps(s) => s
      case Dma(m) => [m.AsStep()]
    }

    /** Writes stay inside memory; the kernel that has a DMA is a PL kernel. */
    ghost predicate Ok(cells: set<Cell>)
    {
      && (forall i :: 0 <= i < |Pieces()| ==> Pieces()[i].writes <= cells)
      && (body.Dma? ==> pl && body.mat.Ok(cells))
    }

    /**
     Run while the matmul streams, the op leaves what running after it would leave: no
     piece writes a result byte or a weight byte some result byte needs, and nothing read
     from the result reaches memory.
     */
    ghost predicate Harmless(mat: Mat)
    {
      && (forall s <- Pieces() :: s.writes !! mat.Dst() + mat.Used())
      && Taint(Pieces(), mat.Dst()) == {}
    }
  }

  /** What pieces may leave different if the hot cells held something else. */
  function Taint(s: seq<Step>, hot: set<Cell>): set<Cell>
  {
    if s == [] then {} else TaintStep(Taint(s[..|s| - 1], hot), s[|s| - 1], hot)
  }

  function TaintStep(bad: set<Cell>, s: Step, hot: set<Cell>): set<Cell>
  {
    if s.reads_ !! hot + bad then bad - s.writes else bad + s.writes
  }

  function Offset(r: Ref): int
  {
    if r.offset.Some? then r.offset.value else 0
  }

  /** The op names the handle at an offset inside [lo, hi). */
  predicate Touches(op: Op, handle: int, lo: int, hi: int)
  {
    exists i :: 0 <= i < |op.refs| && op.refs[i].Some? &&
      op.refs[i].value.handle == handle && lo <= Offset(op.refs[i].value) < hi
  }

  /** The byte a reference names lies in [lo, hi) of the handle; without an offset it is byte 0. */
  predicate Within(r: Ref, handle: int, lo: int, hi: int)
  {
    r.handle == handle &&
    match r.offset
    case Some(v) => lo <= v < hi
    case None => lo <= 0 < hi
  }

  method OpTouches(op: Op, handle: int, lo: int, hi: int) returns (r: bool)
    ensures r == Touches(op, handle, lo, hi)
    ensures r <==> exists i :: 0 <= i < |op.refs| && op.refs[i].Some? && Within(op.refs[i].value, handle, lo, hi)
  {
    for i := 0 to |op.refs|
      invariant forall j :: 0 <= j < i && op.refs[j].Some? && op.refs[j].value.handle == handle ==>
        !(lo <= Offset(op.refs[j].value) < hi)
    {
      if op.refs[i].Some? && op.refs[i].value.handle == handle {
        var offset := if op.refs[i].value.offset.Some? then op.refs[i].value.offset.value else 0;
        if lo <= offset < hi {
          return true;
        }
      }
    }
    return false;
  }

  /** An op that names the result's tensor without an offset is held back just when the result holds byte zero. */
  lemma UnoffsetHeld(op: Op, handle: int, lo: int, hi: int)
    requires exists i :: 0 <= i < |op.refs| && op.refs[i] == Some(Ref(handle, None))
    requires forall i :: 0 <= i < |op.refs| && op.refs[i].Some? && op.refs[i].value.handle == handle ==>
      op.refs[i].value.offset.None?
    ensures Touches(op, handle, lo, hi) <==> lo <= 0 < hi
  {
    var k :| 0 <= k < |op.refs| && op.refs[k] == Some(Ref(handle, None));
    assert Offset(op.refs[k].value) == 0;
  }

  // ----- sequential meaning -----

  function ApplyStep(m: Memory, s: Step): Memory
  {
    m + map c | c in s.writes :: s.f(Restrict(m, s.reads_), c)
  }

  function ApplySteps(m: Memory, s: seq<Step>): Memory
  {
    if s == [] then m else ApplyStep(ApplySteps(m, s[..|s| - 1]), s[|s| - 1])
  }

  /** Running the ops in order. */
  function Sequential(ops: seq<Op>, m: Memory): Memory
  {
    if ops == [] then m else ApplySteps(Sequential(ops[..|ops| - 1], m), ops[|ops| - 1].Pieces())
  }

  // ----- which op is in flight when -----

  predicate Barrier(op: Op, pending: Mat)
  {
    op.pl || Touches(op, pending.dst, pending.lo, pending.hi)
  }

  /** The op in flight when the loop reaches op j. */
  function InFlight(ops: seq<Op>, j: nat): (r: Option<nat>)
    requires j <= |ops|
    ensures r.Some? ==> r.value < j && ops[r.value].body.Dma?
    decreases j, 0
  {
    if j == 0 then None else AfterOp(ops, j - 1, AfterBarrier(ops, j - 1))
  }

  function AfterBarrier(ops: seq<Op>, j: nat): (r: Option<nat>)
    requires j < |ops|
    ensures r.Some? ==> r.value < j && ops[r.value].body.Dma?
    decreases j, 1
  {
    var fl := InFlight(ops, j);
    if fl.Some? && Barrier(ops[j], ops[fl.value].body.mat) then None else fl
  }

  function AfterOp(ops: seq<Op>, j: nat, fl: Option<nat>): Option<nat>
    requires j < |ops|
  {
    if ops[j].hasAsync && fl.None? && ops[j].body.Dma? then Some(j) else fl
  }

  /** Op j would run beside a matmul in flight that it can disturb or read too early. */
  ghost predicate Clashes(ops: seq<Op>, j: nat)
    requires j < |ops|
  {
    && InFlight(ops, j).Some?
    && var mat := ops[InFlight(ops, j).value].body.mat;
       !Barrier(ops[j], mat) && !ops[j].Harmless(mat)
  }

  /** Whatever runs beside a matmul in flight is harmless to it. */
  ghost predicate ArenaRule(ops: seq<Op>)
  {
    forall j :: 0 <= j < |ops| ==> !Clashes(ops, j)
  }

  // ----- what the scheduler does, as a log -----

  datatype Event = Issued(op: nat) | Completed(op: nat) | Ran(op: nat)

  function LogUpTo(ops: seq<Op>, j: nat): seq<Event>
    requires j <= |ops|
  {
    if j == 0 then [] else Extend(ops, j - 1, LogUpTo(ops, j - 1))
  }

  /** What op j adds to the log. */
  function Extend(ops: seq<Op>, j: nat, log: seq<Event>): seq<Event>
    requires j < |ops|
  {
    log + Closing(ops, j) + [Opening(ops, j)]
  }

  /** The completion op j forces, if any. */
  function Closing(ops: seq<Op>, j: nat): seq<Event>
    requires j < |ops|
  {
    if InFlight(ops, j).Some? && AfterBarrier(ops, j).None? then [Completed(InFlight(ops, j).value)] else []
  }

  function Opening(ops: seq<Op>, j: nat): Event
    requires j < |ops|
  {
    if AfterOp(ops, j, AfterBarrier(ops, j)) != AfterBarrier(ops, j) then Issued(j) else Ran(j)
  }

  function FullLog(ops: seq<Op>): seq<Event>
  {
    var fl := InFlight(ops, |ops|);
    LogUpTo(ops, |ops|) + if fl.Some? then [Completed(fl.value)] else []
  }

  datatype Verdict = Bad | Idle | Busy(op: nat)

  function CheckOne(ops: seq<Op>, v: Verdict, e: Event): Verdict
  {
    match e
    case Issued(_) => if v == Idle then Busy(e.op) else Bad
    case Completed(_) => if v == Busy(e.op) then Idle else Bad
    case Ran(_) => if v.Busy? && e.op < |ops| && ops[e.op].pl then Bad else v
  }

  /** One op pending at most, completed once, and before any other PL op starts. */
  function Check(ops: seq<Op>, log: seq<Event>): Verdict
  {
    if log == [] then Idle
    else
      CheckOne(ops, Check(ops, log[..|log| - 1]), log[|log| - 1])
  }

  lemma CheckSnoc(ops: seq<Op>, log: seq<Event>, e: Event)
    ensures Check(ops, log + [e]) == CheckOne(ops, Check(ops, log), e)
  {
    assert (log + [e])[..|log|] == log;
  }

  lemma LogStep(ops: seq<Op>, j: nat)
    requires 0 < j <= |ops|
    ensures InFlight(ops, j) == AfterOp(ops, j - 1, AfterBarrier(ops, j - 1))
    ensures LogUpTo(ops, j) == Extend(ops, j - 1, LogUpTo(ops, j - 1))
  {
  }

  function Pending(fl: Option<nat>): Verdict
  {
    if fl.Some? then Busy(fl.value) else Idle
  }

  lemma CheckClosing(ops: seq<Op>, j: nat, log: seq<Event>)
    requires j < |ops| && Check(ops, log) == Pending(InFlight(ops, j))
    ensures Check(ops, log + Closing(ops, j)) == Pending(AfterBarrier(ops, j))
  {
    hide Check, InFlight, Touches;
    if InFlight(ops, j).Some? && AfterBarrier(ops, j).None? {
      CheckSnoc(ops, log, Completed(InFlight(ops, j).value));
    } else {
      assert log + Closing(ops, j) == log;
    }
  }

  lemma CheckOpening(ops: seq<Op>, j: nat)
    requires j < |ops|
    ensures CheckOne(ops, Pending(AfterBarrier(ops, j)), Opening(ops, j)) ==
            Pending(AfterOp(ops, j, AfterBarrier(ops, j)))
  {
    hide InFlight, Touches;
  }

  lemma CheckExtend(ops: seq<Op>, j: nat, log: seq<Event>)
    requires j < |ops| && Check(ops, log) == Pending(InFlight(ops, j))
    ensures Check(ops, Extend(ops, j, log)) == Pending(AfterOp(ops, j, AfterBarrier(ops, j)))
  {
    hide Check, CheckOne, Pending, InFlight, AfterBarrier, AfterOp, Closing, Opening;
    CheckClosing(ops, j, log);
    CheckSnoc(ops, log + Closing(ops, j), Opening(ops, j));
    CheckOpening(ops, j);
  }

  lemma LogStart(ops: seq<Op>)
    ensures Check(ops, LogUpTo(ops, 0)) == Pending(InFlight(ops, 0))
    ensures Starts(LogUpTo(ops, 0)) == UpTo(0)
  {
  }

  lemma {:induction false} LogChecks(ops: seq<Op>, j: nat)
    requires j <= |ops|
    ensures Check(ops, LogUpTo(ops, j)) == Pending(InFlight(ops, j))
  {
    hide *;
    if j == 0 {
      LogStart(ops);
    } else {
      LogChecks(ops, j - 1);
      LogStep(ops, j);
      CheckExtend(ops, j - 1, LogUpTo(ops, j - 1));
    }
  }

  /** Every run's log is well paired and ends with nothing pending. */
  lemma LogIsPaired(ops: seq<Op>)
    ensures Check(ops, FullLog(ops)) == Idle
  {
    LogChecks(ops, |ops|);
    var fl := InFlight(ops, |ops|);
    hide Check, LogUpTo, InFlight;
    if fl.Some? {
      CheckSnoc(ops, LogUpTo(ops, |ops|), Completed(fl.value));
    } else {
      assert FullLog(ops) == LogUpTo(ops, |ops|);
    }
  }

  /** The ops a log starts, in order. */
  function Starts(log: seq<Event>): seq<nat>
  {
    if log == [] then []
    else
      var e := log[|log| - 1];
      Starts(log[..|log| - 1]) + if e.Completed? then [] else [e.op]
  }

  lemma StartsSnoc(log: seq<Event>, e: Event)
    ensures Starts(log + [e]) == Starts(log) + if e.Completed? then [] else [e.op]
  {
    assert (log + [e])[..|log|] == log;
  }

  lemma StartsExtend(ops: seq<Op>, j: nat, log: seq<Event>)
    requires j < |ops|
    ensures Starts(Extend(ops, j, log)) == Starts(log) + [j]
  {
    hide Starts, InFlight, AfterBarrier, AfterOp;
    StartsSnoc(log + Closing(ops, j), Opening(ops, j));
    if Closing(ops, j) == [] {
      assert log + Closing(ops, j) == log;
    } else {
      StartsSnoc(log, Closing(ops, j)[0]);
    }
  }

  function UpTo(n: nat): seq<nat>
  {
    seq(n, i => i)
  }

  lemma UpToStep(n: nat)
    requires n > 0
    ensures UpTo(n) == UpTo(n - 1) + [n - 1]
  {
  }

  lemma {:induction false} StartsUpTo(ops: seq<Op>, j: nat)
    requires j <= |ops|
    ensures Starts(LogUpTo(ops, j)) == UpTo(j)
  {
    hide *;
    if j == 0 {
      LogStart(ops);
    } else {
      UpToStep(j);
      StartsUpTo(ops, j - 1);
      LogStep(ops, j);
      StartsExtend(ops, j - 1, LogUpTo(ops, j - 1));
    }
  }

  /** Every op starts exactly once, in order. */
  lemma StartsAll(ops: seq<Op>)
    ensures Starts(FullLog(ops)) == UpTo(|ops|)
  {
    StartsUpTo(ops, |ops|);
    var fl := InFlight(ops, |ops|);
    hide Starts, LogUpTo, InFlight;
    if fl.Some? {
      StartsSnoc(LogUpTo(ops, |ops|), Completed(fl.value));
    } else {
      assert FullLog(ops) == LogUpTo(ops, |ops|);
    }
  }

  function CountPl(ops: seq<Op>): nat
  {
    if ops == [] then 0 else CountPl(ops[..|ops| - 1]) + if ops[|ops| - 1].pl then 1 else 0
  }

  // ----- the DMA engine -----

  datatype DmaEvent = Fetch(cell: Cell) | Land(cell: Cell)

  datatype Flight = Flight(mat: Mat, acts: Memory, fetched: Memory, landed: set<Cell>)

  /** One DMA byte: a weight byte is fetched, or a result byte whose weights are here lands. */
  function DmaStep(m: Memory, fl: Flight, e: DmaEvent): (Memory, Flight)
  {
    match e
    case Fetch(c) =>
      if c in fl.mat.weights && c in m then (m, fl.(fetched := fl.fetched[c := m[c]])) else (m, fl)
    case Land(c) =>
      if c in fl.mat.Dst() && fl.mat.deps(c) <= fl.fetched.Keys
      then (m[c := fl.mat.val(fl.acts, Restrict(fl.fetched, fl.mat.deps(c)), c)], fl.(landed := fl.landed + {c}))
      else (m, fl)
  }

  /** What waiting for the DMA leaves: the missing weights fetched, the missing bytes landed. */
  function Finish(m: Memory, fl: Flight): Memory
  {
    var fetched := Restrict(m, fl.mat.weights - fl.fetched.Keys) + fl.fetched;
    m + map c | c in fl.mat.Dst() - fl.landed :: fl.mat.val(fl.acts, Restrict(fetched, fl.mat.deps(c)), c)
  }

  // ----- a run -----

  /** Which DMA bytes move in each time slot; anything at all may be chosen. */
  type Oracle = nat -> seq<DmaEvent>

  datatype BoardState = BoardState(mem: Memory, flight: Option<Flight>, time: nat)

  function Move(m: Memory, fl: Flight, events: seq<DmaEvent>): (Memory, Flight)
  {
    if events == [] then (m, fl)
    else
      var p := Move(m, fl, events[..|events| - 1]);
      DmaStep(p.0, p.1, events[|events| - 1])
  }

  /** A time slot passes: the DMA moves whatever bytes the oracle says. */
  function Ticked(b: BoardState, o: Oracle): BoardState
  {
    if b.flight.None? then b.(time := b.time + 1)
    else
      var p := Move(b.mem, b.flight.value, o(b.time));
      BoardState(p.0, Some(p.1), b.time + 1)
  }

  /** The pieces of an op run here and now, a time slot passing before each. */
  function Performed(b: BoardState, s: seq<Step>, o: Oracle): BoardState
  {
    if s == [] then b
    else
      var p := Ticked(Performed(b, s[..|s| - 1], o), o);
      p.(mem := ApplyStep(p.mem, s[|s| - 1]))
  }

  /** A matmul's DMA is started: the activations are copied, the rest is left to the engine. */
  function Started(b: BoardState, mat: Mat, o: Oracle): BoardState
  {
    Ticked(b.(flight := Some(Flight(mat, Restrict(b.mem, mat.acts), map[], {}))), o)
  }

  function Awaited(b: BoardState, o: Oracle): BoardState
    requires b.flight.Some?
  {
    var p := Ticked(b, o);
    BoardState(Finish(p.mem, p.flight.value), None, p.time)
  }

  /** What the board does before an op that must not run beside the one in flight. */
  function Cleared(b: BoardState, op: Op, o: Oracle): BoardState
  {
    if b.flight.Some? && Barrier(op, b.flight.value.mat) then Awaited(b, o) else b
  }

  function Launched(b: BoardState, op: Op, o: Oracle): BoardState
  {
    if op.hasAsync && b.flight.None? && op.body.Dma? then Started(b, op.body.mat, o)
    else Ticked(Performed(b, op.Pieces(), o), o)
  }

  function RunTo(ops: seq<Op>, b: BoardState, o: Oracle): BoardState
  {
    if ops == [] then b
    else
      var op := ops[|ops| - 1];
      Launched(Cleared(RunTo(ops[..|ops| - 1], b, o), op, o), op, o)
  }

  function Drained(b: BoardState, o: Oracle): BoardState
  {
    if b.flight.Some? then Awaited(b, o) else b
  }

  /** The memory the dispatch loop leaves. */
  function Run(ops: seq<Op>, b: BoardState, o: Oracle): Memory
  {
    Drained(RunTo(ops, b, o), o).mem
  }

  lemma RunToSnoc(ops: seq<Op>, j: nat, b: BoardState, o: Oracle)
    requires j < |ops|
    ensures RunTo(ops[..j + 1], b, o) == Launched(Cleared(RunTo(ops[..j], b, o), ops[j], o), ops[j], o)
  {
    hide Launched, Cleared;
    assert ops[..j + 1][..j] == ops[..j];
  }

  /** The board's flight is the op the specification says is in flight. */
  ghost predicate FlightIs(flight: Option<Flight>, ops: seq<Op>, fl: Option<nat>)
  {
    && flight.Some? == fl.Some?
    && (fl.Some? ==> fl.value < |ops| && ops[fl.value].body.Dma? && flight.value.mat == ops[fl.value].body.mat)
  }

  lemma {:induction false} MoveSameMat(m: Memory, fl: Flight, events: seq<DmaEvent>)
    ensures Move(m, fl, events).1.mat == fl.mat
  {
    hide Restrict;
    if events != [] {
      MoveSameMat(m, fl, events[..|events| - 1]);
    }
  }

  lemma TickSameMat(b: BoardState, o: Oracle)
    ensures Ticked(b, o).flight.Some? == b.flight.Some?
    ensures b.flight.Some? ==> Ticked(b, o).flight.value.mat == b.flight.value.mat
  {
    hide Move;
    if b.flight.Some? {
      MoveSameMat(b.mem, b.flight.value, o(b.time));
    }
  }

  lemma {:induction false} PerformSameMat(b: BoardState, s: seq<Step>, o: Oracle)
    ensures Performed(b, s, o).flight.Some? == b.flight.Some?
    ensures b.flight.Some? ==> Performed(b, s, o).flight.value.mat == b.flight.value.mat
  {
    hide Ticked, ApplyStep;
    if s != [] {
      PerformSameMat(b, s[..|s| - 1], o);
      TickSameMat(Performed(b, s[..|s| - 1], o), o);
    }
  }

  /** Dispatching op j moves the flight as InFlight says. */
  lemma DispatchFlight(ops: seq<Op>, j: nat, b: BoardState, o: Oracle)
    requires j < |ops| && FlightIs(b.flight, ops, InFlight(ops, j))
    ensures FlightIs(Cleared(b, ops[j], o).flight, ops, AfterBarrier(ops, j))
    ensures FlightIs(Launched(Cleared(b, ops[j], o), ops[j], o).flight, ops, InFlight(ops, j + 1))
  {
    hide Ticked, Performed, InFlight, Touches, Op.Pieces;
    InFlightStep(ops, j + 1);
    var c := Cleared(b, ops[j], o);
    PerformSameMat(c, ops[j].Pieces(), o);
    TickSameMat(Performed(c, ops[j].Pieces(), o), o);
    if ops[j].body.Dma? {
      var mat := ops[j].body.mat;
      TickSameMat(c.(flight := Some(Flight(mat, Restrict(c.mem, mat.acts), map[], {}))), o);
    }
  }

  lemma InFlightStep(ops: seq<Op>, j: nat)
    requires 0 < j <= |ops|
    ensures InFlight(ops, j) == AfterOp(ops, j - 1, AfterBarrier(ops, j - 1))
  {
  }

  lemma InFlightStart(ops: seq<Op>)
    ensures InFlight(ops, 0) == None
  {
  }

  lemma {:induction false} RunToFlight(ops: seq<Op>, j: nat, b: BoardState, o: Oracle)
    requires j <= |ops| && b.flight.None?
    ensures FlightIs(RunTo(ops[..j], b, o).flight, ops, InFlight(ops, j))
  {
    hide InFlight, AfterBarrier, Launched, Cleared, FlightIs;
    if j == 0 {
      InFlightStart(ops);
      NothingInFlight(ops, b);
    } else {
      RunToFlight(ops, j - 1, b, o);
      DispatchFlight(ops, j - 1, RunTo(ops[..j - 1], b, o), o);
      RunToSnoc(ops, j - 1, b, o);
    }
  }

  lemma NothingInFlight(ops: seq<Op>, b: BoardState)
    requires b.flight.None?
    ensures FlightIs(b.flight, ops, None)
  {
  }

  // ----- the simulation relation -----

  /**
   Memory against the sequential memory while a matmul streams: they agree off the bad
   cells and the bytes still to land, and those are computed from weights that still hold.
   */
  ghost predicate Rel(m: Memory, fl: Flight, ideal: Memory, bad: set<Cell>)
  {
    && m.Keys == ideal.Keys
    && fl.mat.Ok(ideal.Keys)
    && bad !! fl.mat.Dst() + fl.mat.Used()
    && (forall c :: c in ideal && c !in bad && (c !in fl.mat.Dst() || c in fl.landed) ==> m[c] == ideal[c])
    && (forall c :: c in fl.mat.Dst() ==>
          ideal[c] == fl.mat.val(fl.acts, Restrict(ideal, fl.mat.deps(c)), c))
    && (forall c :: c in fl.fetched ==>
          c in fl.mat.weights && (c in fl.mat.Used() ==> fl.fetched[c] == ideal[c]))
  }

  /** The board against the sequential memory between two ops. */
  ghost predicate Follows(b: BoardState, ideal: Memory)
  {
    if b.flight.None? then b.mem == ideal else Rel(b.mem, b.flight.value, ideal, {})
  }

  lemma RestrictSame(m: Memory, n: Memory, s: set<Cell>)
    requires s <= m.Keys && s <= n.Keys && forall c :: c in s ==> m[c] == n[c]
    ensures Restrict(m, s) == Restrict(n, s)
  {
  }

  /** Whatever byte the DMA moves, the relation stays. */
  lemma DmaKeeps(m: Memory, fl: Flight, e: DmaEvent, ideal: Memory, bad: set<Cell>)
    requires Rel(m, fl, ideal, bad)
    ensures Rel(DmaStep(m, fl, e).0, DmaStep(m, fl, e).1, ideal, bad)
  {
    hide Restrict;
    match e
    case Fetch(c) =>
    case Land(c) =>
      if c in fl.mat.Dst() && fl.mat.deps(c) <= fl.fetched.Keys {
        RestrictSame(fl.fetched, ideal, fl.mat.deps(c));
      }
  }

  lemma {:induction false} MoveKeeps(m: Memory, fl: Flight, events: seq<DmaEvent>, ideal: Memory, bad: set<Cell>)
    requires Rel(m, fl, ideal, bad)
    ensures Rel(Move(m, fl, events).0, Move(m, fl, events).1, ideal, bad)
  {
    hide Rel, DmaStep;
    if events != [] {
      MoveKeeps(m, fl, events[..|events| - 1], ideal, bad);
      var p := Move(m, fl, events[..|events| - 1]);
      DmaKeeps(p.0, p.1, events[|events| - 1], ideal, bad);
    }
  }

  /**
   A piece that writes neither the result nor a weight it needs keeps the relation; what
   it writes is bad from then on exactly when it reads the result or something bad.
   */
  lemma StepKeeps(m: Memory, fl: Flight, ideal: Memory, s: Step, bad: set<Cell>)
    requires Rel(m, fl, ideal, bad) && s.writes <= ideal.Keys && s.writes !! fl.mat.Dst() + fl.mat.Used()
    ensures Rel(ApplyStep(m, s), fl, ApplyStep(ideal, s), TaintStep(bad, s, fl.mat.Dst()))
  {
    var after := ApplyStep(ideal, s);
    assert after.Keys == ideal.Keys;
    if s.reads_ !! fl.mat.Dst() + bad {
      assert Restrict(m, s.reads_) == Restrict(ideal, s.reads_);
    }
    forall c | c in fl.mat.Dst() ensures Restrict(after, fl.mat.deps(c)) == Restrict(ideal, fl.mat.deps(c)) {
      assert fl.mat.deps(c) <= fl.mat.Used();
      assert fl.mat.deps(c) <= fl.mat.weights;
      RestrictSame(after, ideal, fl.mat.deps(c));
    }
  }

  /** The pieces of an op beside a matmul: bad cells spread as Taint says. */
  lemma {:induction false} PiecesKeep(b: BoardState, s: seq<Step>, o: Oracle, ideal: Memory)
    requires b.flight.Some? && Rel(b.mem, b.flight.value, ideal, {})
    requires forall p <- s :: p.writes <= ideal.Keys
    requires forall p <- s :: p.writes !! b.flight.value.mat.Dst() + b.flight.value.mat.Used()
    ensures var c := Performed(b, s, o);
      && c.flight.Some? && c.flight.value.mat == b.flight.value.mat
      && Rel(c.mem, c.flight.value, ApplySteps(ideal, s), Taint(s, b.flight.value.mat.Dst()))
  {
    hide Rel, ApplyStep, Ticked, TaintStep;
    PerformSameMat(b, s, o);
    if s != [] {
      var front, last := s[..|s| - 1], s[|s| - 1];
      PiecesKeep(b, front, o, ideal);
      assert last in s;
      var c := Performed(b, front, o);
      var hot := b.flight.value.mat.Dst();
      TickKeeps(c, o, ApplySteps(ideal, front), Taint(front, hot));
      TickSameMat(c, o);
      StepsKeys(ideal, front);
      var d := Ticked(c, o);
      StepKeeps(d.mem, d.flight.value, ApplySteps(ideal, front), last, Taint(front, hot));
    }
  }

  lemma TickKeeps(b: BoardState, o: Oracle, ideal: Memory, bad: set<Cell>)
    requires b.flight.Some? && Rel(b.mem, b.flight.value, ideal, bad)
    ensures Ticked(b, o).flight.Some? && Rel(Ticked(b, o).mem, Ticked(b, o).flight.value, ideal, bad)
  {
    hide Rel, Move;
    MoveKeeps(b.mem, b.flight.value, o(b.time), ideal, bad);
  }

  /** With nothing in flight an op does what it does. */
  lemma {:induction false} PiecesAlone(b: BoardState, s: seq<Step>, o: Oracle)
    requires b.flight.None?
    ensures Performed(b, s, o).mem == ApplySteps(b.mem, s) && Performed(b, s, o).flight.None?
  {
    hide ApplyStep;
    if s != [] {
      PiecesAlone(b, s[..|s| - 1], o);
    }
  }

  /** Completing the matmul gives the sequential memory. */
  lemma FinishIsIdeal(m: Memory, fl: Flight, ideal: Memory)
    requires Rel(m, fl, ideal, {})
    ensures Finish(m, fl) == ideal
  {
    var fetched := Restrict(m, fl.mat.weights - fl.fetched.Keys) + fl.fetched;
    forall c | c in fl.mat.Used() ensures c in fetched && fetched[c] == ideal[c] {
      assert c in fl.mat.weights;
    }
    forall c | c in fl.mat.Dst() ensures Restrict(fetched, fl.mat.deps(c)) == Restrict(ideal, fl.mat.deps(c)) {
      assert fl.mat.deps(c) <= fl.mat.Used();
      RestrictSame(fetched, ideal, fl.mat.deps(c));
    }
  }

  /** Issuing a matmul is, up to the bytes still to land, running it. */
  lemma IssueKeeps(m: Memory, mat: Mat)
    requires mat.Ok(m.Keys)
    ensures Rel(m, Flight(mat, Restrict(m, mat.acts), map[], {}), ApplyStep(m, mat.AsStep()), {})
  {
    var ideal := ApplyStep(m, mat.AsStep());
    assert ideal.Keys == m.Keys;
    var r := Restrict(m, mat.acts + mat.weights);
    assert Restrict(r, mat.acts) == Restrict(m, mat.acts);
    forall c | c in mat.Dst()
      ensures ideal[c] == mat.val(Restrict(m, mat.acts), Restrict(ideal, mat.deps(c)), c)
    {
      assert mat.deps(c) <= mat.weights;
      assert Restrict(r, mat.deps(c)) == Restrict(m, mat.deps(c));
      RestrictSame(ideal, m, mat.deps(c));
    }
  }

  lemma {:induction false} SequentialKeys(ops: seq<Op>, m: Memory)
    requires forall i :: 0 <= i < |ops| ==> ops[i].Ok(m.Keys)
    ensures Sequential(ops, m).Keys == m.Keys
  {
    if ops != [] {
      var front, op := ops[..|ops| - 1], ops[|ops| - 1];
      SequentialKeys(front, m);
      StepsKeys(Sequential(front, m), op.Pieces());
    }
  }

  lemma {:induction false} StepsKeys(m: Memory, s: seq<Step>)
    requires forall p <- s :: p.writes <= m.Keys
    ensures ApplySteps(m, s).Keys == m.Keys
  {
    if s != [] {
      assert s[|s| - 1] in s;
      StepsKeys(m, s[..|s| - 1]);
    }
  }

  lemma AwaitFollows(b: BoardState, o: Oracle, ideal: Memory)
    requires b.flight.Some? && Follows(b, ideal)
    ensures Follows(Awaited(b, o), ideal)
  {
    hide Rel, Ticked, Finish;
    TickKeeps(b, o, ideal, {});
    FinishIsIdeal(Ticked(b, o).mem, Ticked(b, o).flight.value, ideal);
  }

  lemma StartFollows(b: BoardState, mat: Mat, o: Oracle, ideal: Memory)
    requires b.flight.None? && Follows(b, ideal) && mat.Ok(ideal.Keys)
    ensures Follows(Started(b, mat, o), ApplyStep(ideal, mat.AsStep()))
  {
    hide Rel, Ticked, ApplyStep;
    IssueKeeps(b.mem, mat);
    TickKeeps(b.(flight := Some(Flight(mat, Restrict(b.mem, mat.acts), map[], {}))), o,
              ApplyStep(ideal, mat.AsStep()), {});
  }

  lemma PerformFollows(b: BoardState, op: Op, o: Oracle, ideal: Memory)
    requires Follows(b, ideal) && op.Ok(ideal.Keys)
    requires b.flight.Some? ==> op.Harmless(b.flight.value.mat)
    ensures Follows(Ticked(Performed(b, op.Pieces(), o), o), ApplySteps(ideal, op.Pieces()))
  {
    hide Rel, Performed, ApplySteps, Taint;
    var s := op.Pieces();
    if b.flight.None? {
      PiecesAlone(b, s, o);
    } else {
      PiecesKeep(b, s, o, ideal);
      hide Ticked;
      TickKeeps(Performed(b, s, o), o, ApplySteps(ideal, s), {});
    }
  }

  lemma DmaPieces(op: Op, m: Memory)
    requires op.body.Dma?
    ensures ApplySteps(m, op.Pieces()) == ApplyStep(m, op.body.mat.AsStep())
  {
    OnePiece(m, op.body.mat.AsStep());
  }

  lemma OnePiece(m: Memory, s: Step)
    ensures ApplySteps(m, [s]) == ApplyStep(m, s)
  {
    assert [s][..0] == [];
  }

  lemma LaunchFollows(b: BoardState, op: Op, o: Oracle, ideal: Memory)
    requires Follows(b, ideal) && op.Ok(ideal.Keys)
    requires b.flight.Some? ==> op.Harmless(b.flight.value.mat)
    ensures Follows(Launched(b, op, o), ApplySteps(ideal, op.Pieces()))
  {
    hide Follows, Started, Performed, Ticked, ApplySteps, Op.Pieces, Op.Harmless;
    if op.hasAsync && b.flight.None? && op.body.Dma? {
      DmaPieces(op, ideal);
      StartFollows(b, op.body.mat, o, ideal);
    } else {
      PerformFollows(b, op, o, ideal);
    }
  }

  lemma SequentialSnoc(ops: seq<Op>, j: nat, m: Memory)
    requires j < |ops|
    ensures Sequential(ops[..j + 1], m) == ApplySteps(Sequential(ops[..j], m), ops[j].Pieces())
  {
    hide ApplySteps;
    assert ops[..j + 1][..j] == ops[..j];
  }

  lemma ClearFollows(b: BoardState, op: Op, o: Oracle, ideal: Memory)
    requires Follows(b, ideal)
    ensures Follows(Cleared(b, op, o), ideal)
  {
    hide Follows, Awaited, Barrier;
    if b.flight.Some? && Barrier(op, b.flight.value.mat) {
      AwaitFollows(b, o, ideal);
    }
  }

  /** What the rule says of the op in flight past the barrier. */
  lemma RuleAt(ops: seq<Op>, j: nat, flight: Option<Flight>)
    requires j < |ops| && !Clashes(ops, j) && FlightIs(flight, ops, AfterBarrier(ops, j)) && flight.Some?
    ensures ops[j].Harmless(flight.value.mat)
  {
    hide InFlight, Op.Harmless, Touches;
  }

  /** Under the rule the board follows the sequential run, op by op. */
  lemma {:induction false} RuleFollows(ops: seq<Op>, j: nat, b: BoardState, o: Oracle)
    requires j <= |ops| && ArenaRule(ops) && b.flight.None?
    requires forall op <- ops :: op.Ok(b.mem.Keys)
    ensures Follows(RunTo(ops[..j], b, o), Sequential(ops[..j], b.mem))
  {
    hide Launched, Cleared, Rel, Op.Ok, InFlight, AfterBarrier, Clashes, ApplySteps, Op.Harmless, FlightIs;
    if j > 0 {
      var k := j - 1;
      RuleFollows(ops, k, b, o);
      RunToFlight(ops, k, b, o);
      var now, ideal := RunTo(ops[..k], b, o), Sequential(ops[..k], b.mem);
      hide Follows, RunTo, Sequential;
      DispatchFlight(ops, k, now, o);
      ClearFollows(now, ops[k], o, ideal);
      var c := Cleared(now, ops[k], o);
      if c.flight.Some? {
        RuleAt(ops, k, c.flight);
      }
      SequentialKeys(ops[..k], b.mem);
      LaunchFollows(c, ops[k], o, ideal);
      RunToSnoc(ops, k, b, o);
      SequentialSnoc(ops, k, b.mem);
    }
  }

  /** Under the rule every run ends in the memory of running the ops one after the other. */
  lemma RuleIsSound(ops: seq<Op>, b: BoardState, o: Oracle)
    requires ArenaRule(ops) && b.flight.None?
    requires forall op <- ops :: op.Ok(b.mem.Keys)
    ensures Run(ops, b, o) == Sequential(ops, b.mem)
  {
    RuleFollows(ops, |ops|, b, o);
    assert ops[..|ops|] == ops;
    var end, ideal := RunTo(ops, b, o), Sequential(ops, b.mem);
    hide Rel, RunTo, Sequential, Awaited, Op.Ok, ArenaRule;
    if end.flight.Some? {
      AwaitFollows(end, o, ideal);
    }
  }

  // ----- the scheduler -----

  class Board {
    var mem: Memory
    var flight: Option<Flight>
    var time: nat
    var log: seq<Event>
    const oracle: Oracle

    constructor (mem: Memory, oracle: Oracle)
      ensures this.mem == mem && flight == None && log == [] && this.oracle == oracle
    {
      this.mem, flight, time, log, this.oracle := mem, None, 0, [], oracle;
    }

    ghost function State(): BoardState
      reads this
    {
      BoardState(mem, flight, time)
    }

    /** A time slot passes. */
    method Tick()
      modifies this`mem, this`flight, this`time
      ensures State() == Ticked(old(State()), oracle)
    {
      hide DmaStep;
      var events := oracle(time);
      time := time + 1;
      if flight.None? {
        return;
      }
      for k := 0 to |events|
        invariant time == old(time) + 1
        invariant flight.Some? && (mem, flight.value) == Move(old(mem), old(flight).value, events[..k])
      {
        assert events[..k + 1][..k] == events[..k];
        var next := DmaStep(mem, flight.value, events[k]);
        mem, flight := next.0, Some(next.1);
      }
      assert events[..|events|] == events;
      ghost var moved := Move(old(mem), old(flight).value, events);
      assert moved == (mem, flight.value) && moved.0 == mem && moved.1 == flight.value;
    }

    /** Run an op here and now, piece by piece, the DMA moving bytes in between. */
    method RunPieces(op: Op)
      modifies this`mem, this`flight, this`time
      ensures State() == Ticked(Performed(old(State()), op.Pieces(), oracle), oracle)
    {
      hide Ticked, ApplyStep;
      var pieces := op.Pieces();
      for k := 0 to |pieces|
        invariant State() == Performed(old(State()), pieces[..k], oracle)
      {
        assert pieces[..k + 1][..k] == pieces[..k];
        Tick();
        mem := ApplyStep(mem, pieces[k]);
      }
      assert pieces[..|pieces|] == pieces;
      Tick();
    }

    /** Start a matmul's DMA. */
    method Issue(mat: Mat)
      modifies this`mem, this`flight, this`time
      ensures State() == Started(old(State()), mat, oracle)
    {
      hide Ticked, Restrict;
      flight := Some(Flight(mat, Restrict(mem, mat.acts), map[], {}));
      Tick();
    }

    /** Wait for the pending matmul. */
    method Complete()
      requires flight.Some?
      modifies this`mem, this`flight, this`time
      ensures State() == Awaited(old(State()), oracle)
    {
      hide Ticked, Finish;
      TickSameMat(State(), oracle);
      Tick();
      mem, flight := Finish(mem, flight.value), None;
    }

    /**
     The dispatch loop. For every oracle it leaves the memory of Run; under the arena
     rule that is the memory of the sequential run.
     */
    method RunGraph(ops: seq<Op>) returns (psOps: nat, plOps: nat)
      requires flight.None? && log == []
      modifies this
      ensures flight.None? && mem == Run(ops, old(State()), oracle)
      ensures ArenaRule(ops) && (forall op <- ops :: op.Ok(old(mem).Keys)) ==> mem == Sequential(ops, old(mem))
      ensures log == FullLog(ops)
      ensures plOps == CountPl(ops) && psOps + plOps == |ops|
    {
      hide Touches, ArenaRule, Op.Ok, Op.Pieces, Sequential, CountPl, InFlight, LogUpTo;
      hide RunTo, Started, Performed, Ticked, Awaited;
      ghost var start := State();
      var inFlight: Option<nat> := None;
      psOps, plOps := 0, 0;
      GraphStart(ops, start, oracle);
      for j := 0 to |ops|
        invariant State() == RunTo(ops[..j], start, oracle)
        invariant inFlight == InFlight(ops, j) && FlightIs(flight, ops, inFlight)
        invariant log == LogUpTo(ops, j)
        invariant plOps == CountPl(ops[..j]) && psOps + plOps == j
      {
        var op := ops[j];
        RunToSnoc(ops, j, start, oracle);
        DispatchFlight(ops, j, State(), oracle);
        LogStep(ops, j + 1);
        CountStep(ops, j);
        if inFlight.Some? {
          var mat := ops[inFlight.value].body.mat;
          var touches := OpTouches(op, mat.dst, mat.lo, mat.hi);
          if op.pl || touches {
            Complete();
            log := log + [Completed(inFlight.value)];
            inFlight := None;
          }
        }
        assert inFlight == AfterBarrier(ops, j);
        if op.hasAsync && inFlight.None? && op.body.Dma? {
          Issue(op.body.mat);
          log := log + [Issued(j)];
          inFlight := Some(j);
        } else {
          RunPieces(op);
          log := log + [Ran(j)];
        }
        if op.pl {
          plOps := plOps + 1;
        } else {
          psOps := psOps + 1;
        }
      }
      assert ops[..|ops|] == ops;
      if inFlight.Some? {
        Complete();
        log := log + [Completed(inFlight.value)];
      }
      RunEnds(ops, start, oracle, State());
    }

    /** What the loop's final state says of its memory. */
    lemma RunEnds(ops: seq<Op>, start: BoardState, o: Oracle, end: BoardState)
      requires start.flight.None? && end == Drained(RunTo(ops, start, o), o)
      ensures end.flight.None? && end.mem == Run(ops, start, o)
      ensures ArenaRule(ops) && (forall op <- ops :: op.Ok(start.mem.Keys)) ==>
        end.mem == Sequential(ops, start.mem)
    {
      hide ArenaRule, Op.Ok, Finish, Ticked, RunTo, Sequential;
      if ArenaRule(ops) && forall op <- ops :: op.Ok(start.mem.Keys) {
        RuleIsSound(ops, start, o);
      }
    }

    lemma CountStep(ops: seq<Op>, j: nat)
      requires j < |ops|
      ensures CountPl(ops[..j + 1]) == CountPl(ops[..j]) + if ops[j].pl then 1 else 0
    {
      assert ops[..j + 1][..j] == ops[..j];
    }

    lemma GraphStart(ops: seq<Op>, b: BoardState, o: Oracle)
      ensures RunTo(ops[..0], b, o) == b && InFlight(ops, 0) == None && LogUpTo(ops, 0) == []
      ensures CountPl(ops[..0]) == 0
    {
    }
  }
}

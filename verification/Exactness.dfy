/**
 The arena rule is exact.

 If some op beside a matmul in flight breaks the rule, then some graph that begins the same
 way, with other kernels, ends some run in a memory that running its ops in order would
 not leave (RuleIsExact, OneBesideAnother). The kernels write zeros, but for the matmul and
 the first op to clash with it, and the DMA moves nothing until it must; three choices of
 those two kernels show a write to the result, a write to a weight it needs, and a read of
 the result that reaches memory.
 */
module Exactness {
  import opened Common
  import opened Scheduler

  // ----- the rule is needed -----

  /** The same op but for what its kernel computes. */
  ghost predicate Alike(x: Op, y: Op)
  {
    && x.refs == y.refs && x.pl == y.pl && x.hasAsync == y.hasAsync
    && x.body.Dma? == y.body.Dma?
    && (x.body.Dma? ==> x.body.mat == y.body.mat.(val := x.body.mat.val))
    && SameFootprints(x.Pieces(), y.Pieces())
  }

  ghost predicate SameFootprints(s: seq<Step>, t: seq<Step>)
  {
    |s| == |t| && forall i :: 0 <= i < |s| ==> s[i].reads_ == t[i].reads_ && s[i].writes == t[i].writes
  }

  /** A graph that begins as ops does, for any kernels. */
  ghost predicate StartsLike(xs: seq<Op>, ops: seq<Op>)
  {
    |xs| <= |ops| && forall i :: 0 <= i < |xs| ==> Alike(xs[i], ops[i])
  }

  lemma {:induction false} TaintAlike(s: seq<Step>, t: seq<Step>, hot: set<Cell>)
    requires SameFootprints(s, t)
    ensures Taint(s, hot) == Taint(t, hot)
  {
    if s != [] {
      TaintAlike(s[..|s| - 1], t[..|t| - 1], hot);
    }
  }

  lemma AlikeFacts(x: Op, y: Op, m: Mat, n: Mat)
    requires Alike(x, y) && m == n.(val := m.val)
    ensures m.Dst() == n.Dst() && m.Used() == n.Used()
    ensures Barrier(x, m) == Barrier(y, n) && x.Harmless(m) == y.Harmless(n)
  {
    TaintAlike(x.Pieces(), y.Pieces(), m.Dst());
    hide Op.Pieces, Taint;
  }

  lemma AlikeOk(x: Op, y: Op, cells: set<Cell>)
    requires Alike(x, y) && y.Ok(cells)
    ensures x.Ok(cells)
  {
  }

  lemma {:induction false} InFlightAlike(xs: seq<Op>, ops: seq<Op>, j: nat)
    requires StartsLike(xs, ops) && j <= |xs|
    ensures InFlight(xs, j) == InFlight(ops, j)
    ensures j < |xs| ==> AfterBarrier(xs, j) == AfterBarrier(ops, j)
  {
    hide InFlight, AfterBarrier, Barrier, Alike;
    if j == 0 {
      InFlightStart(xs);
      InFlightStart(ops);
    } else {
      InFlightAlike(xs, ops, j - 1);
      InFlightStep(xs, j);
      InFlightStep(ops, j);
      AfterOpAlike(xs, ops, j - 1, AfterBarrier(ops, j - 1));
    }
    if j < |xs| {
      BarrierAlike(xs, ops, j);
    }
  }

  lemma AfterOpAlike(xs: seq<Op>, ops: seq<Op>, j: nat, fl: Option<nat>)
    requires StartsLike(xs, ops) && j < |xs|
    ensures AfterOp(xs, j, fl) == AfterOp(ops, j, fl)
  {
    hide SameFootprints;
    assert Alike(xs[j], ops[j]);
  }

  lemma BarrierAlike(xs: seq<Op>, ops: seq<Op>, j: nat)
    requires StartsLike(xs, ops) && j < |xs| && InFlight(xs, j) == InFlight(ops, j)
    ensures AfterBarrier(xs, j) == AfterBarrier(ops, j)
    ensures Clashes(xs, j) == Clashes(ops, j)
  {
    hide InFlight, Barrier, Op.Harmless, Op.Pieces, SameFootprints;
    var fl := InFlight(ops, j);
    if fl.Some? {
      assert Alike(xs[fl.value], ops[fl.value]) && Alike(xs[j], ops[j]);
      AlikeFacts(xs[j], ops[j], xs[fl.value].body.mat, ops[fl.value].body.mat);
    }
  }

  lemma RuleAlike(xs: seq<Op>, ops: seq<Op>)
    requires StartsLike(xs, ops) && ArenaRule(ops)
    ensures ArenaRule(xs)
  {
    hide Clashes, StartsLike;
    forall j | 0 <= j < |xs| ensures |xs| <= |ops| && !Clashes(xs, j) {
      ClashAlike(xs, ops, j);
    }
  }

  lemma ClashAlike(xs: seq<Op>, ops: seq<Op>, j: nat)
    requires StartsLike(xs, ops) && j < |xs|
    ensures |xs| <= |ops| && Clashes(xs, j) == Clashes(ops, j)
  {
    hide Clashes, InFlight, AfterBarrier, Alike;
    InFlightAlike(xs, ops, j);
    BarrierAlike(xs, ops, j);
  }

  /** Once in flight and still in flight, never cleared in between. */
  lemma {:induction false} StaysInFlight(ops: seq<Op>, i: nat, x: nat, j: nat)
    requires i < x <= j <= |ops| && InFlight(ops, j) == Some(i)
    ensures InFlight(ops, x) == Some(i)
    ensures x < j ==> AfterBarrier(ops, x) == Some(i)
    decreases j - x
  {
    hide Barrier;
    if x < j {
      StaysInFlight(ops, i, x + 1, j);
      InFlightStep(ops, x + 1);
      hide InFlight;
    }
  }

  // ----- memories of zeros and ones -----

  function Marked(cells: set<Cell>, ones: set<Cell>): (m: Memory)
    ensures m.Keys == cells
  {
    map c | c in cells :: if c in ones then 1 else 0
  }

  function ReadAt(m: Memory, c: Cell): byte
  {
    if c in m then m[c] else 0
  }

  function Always(v: byte): (Memory, Cell) -> byte
  {
    (m, c) => v
  }

  function AnyOne(m: Memory): byte
  {
    if exists x :: x in m && m[x] == 1 then 1 else 0
  }

  function Spreads(): (Memory, Cell) -> byte
  {
    (m, c) => AnyOne(m)
  }

  function Yields(v: byte): (Memory, Memory, Cell) -> byte
  {
    (a, w, c) => v
  }

  function Copies(from: Cell): (Memory, Memory, Cell) -> byte
  {
    (a, w, c) => ReadAt(w, from)
  }

  lemma StepAlways(cells: set<Cell>, ones: set<Cell>, s: Step, v: byte)
    requires s.writes <= cells && s.f == Always(v) && v <= 1
    ensures ApplyStep(Marked(cells, ones), s) == Marked(cells, if v == 1 then ones + s.writes else ones - s.writes)
  {
    hide Restrict;
  }

  lemma StepSpreads(cells: set<Cell>, hot: set<Cell>, bad: set<Cell>, s: Step)
    requires s.writes <= cells && s.writes !! hot && hot + bad <= cells && s.f == Spreads()
    ensures ApplyStep(Marked(cells, hot + bad), s) == Marked(cells, hot + TaintStep(bad, s, hot))
  {
    var m := Marked(cells, hot + bad);
    var r := Restrict(m, s.reads_);
    if !(s.reads_ !! hot + bad) {
      var x :| x in s.reads_ && x in hot + bad;
      assert x in r && r[x] == 1;
    }
  }

  function Written(s: seq<Step>): set<Cell>
  {
    if s == [] then {} else Written(s[..|s| - 1]) + s[|s| - 1].writes
  }

  ghost predicate Told(s: seq<Step>, f: (Memory, Cell) -> byte, cells: set<Cell>)
  {
    forall p <- s :: p.writes <= cells && p.f == f
  }

  lemma {:induction false} StepsZero(cells: set<Cell>, ones: set<Cell>, s: seq<Step>)
    requires Told(s, Always(0), cells) && forall p <- s :: p.writes !! ones
    ensures ApplySteps(Marked(cells, ones), s) == Marked(cells, ones)
  {
    hide Always, Marked, ApplyStep;
    if s != [] {
      var p := s[|s| - 1];
      assert p in s;
      StepsZero(cells, ones, s[..|s| - 1]);
      StepAlways(cells, ones, p, 0);
      assert ones - p.writes == ones;
    }
  }

  lemma {:induction false} StepsOne(cells: set<Cell>, s: seq<Step>)
    requires Told(s, Always(1), cells)
    ensures ApplySteps(Marked(cells, {}), s) == Marked(cells, Written(s))
  {
    hide Always, Marked, ApplyStep;
    if s != [] {
      var p := s[|s| - 1];
      assert p in s;
      StepsOne(cells, s[..|s| - 1]);
      StepAlways(cells, Written(s[..|s| - 1]), p, 1);
    }
  }

  lemma {:induction false} StepsSpread(cells: set<Cell>, hot: set<Cell>, s: seq<Step>)
    requires Told(s, Spreads(), cells) && hot <= cells && forall p <- s :: p.writes !! hot
    ensures Taint(s, hot) <= cells && Taint(s, hot) !! hot
    ensures ApplySteps(Marked(cells, hot), s) == Marked(cells, hot + Taint(s, hot))
    ensures hot == {} ==> Taint(s, hot) == {}
  {
    hide Spreads, Marked, ApplyStep;
    if s == [] {
      assert hot + {} == hot;
    } else {
      var p := s[|s| - 1];
      assert p in s;
      StepsSpread(cells, hot, s[..|s| - 1]);
      StepSpreads(cells, hot, Taint(s[..|s| - 1], hot), p);
    }
  }

  lemma {:induction false} WrittenSome(s: seq<Step>, p: Step, c: Cell)
    requires p in s && c in p.writes
    ensures c in Written(s)
  {
    if p != s[|s| - 1] {
      WrittenSome(s[..|s| - 1], p, c);
    }
  }

  // ----- a DMA that moves nothing until it must -----

  function Lazy(): Oracle
  {
    (t: nat) => []
  }

  predicate Unmoved(flight: Option<Flight>)
  {
    flight.Some? ==> flight.value.fetched == map[] && flight.value.landed == {}
  }

  lemma LazyTick(b: BoardState)
    ensures Ticked(b, Lazy()) == b.(time := b.time + 1)
  {
  }

  lemma {:induction false} LazyPerform(b: BoardState, s: seq<Step>)
    ensures Performed(b, s, Lazy()).mem == ApplySteps(b.mem, s)
    ensures Performed(b, s, Lazy()).flight == b.flight
  {
    hide Ticked, ApplyStep;
    if s != [] {
      LazyPerform(b, s[..|s| - 1]);
      LazyTick(Performed(b, s[..|s| - 1], Lazy()));
    }
  }

  // ----- kernels that show the clash -----

  /** The op with other kernels. */
  function Retold(op: Op, val: (Memory, Memory, Cell) -> byte, f: (Memory, Cell) -> byte): Op
  {
    match op.body
    case Steps(s) => op.(body := Steps(seq(|s|, i requires 0 <= i < |s| => s[i].(f := f))))
    case Dma(mat) => op.(body := Dma(mat.(val := val)))
  }

  lemma RetoldAlike(op: Op, val: (Memory, Memory, Cell) -> byte, f: (Memory, Cell) -> byte)
    ensures Alike(Retold(op, val, f), op)
  {
  }

  /** The first j + 1 ops, all writing zeros but the matmul i and op j. */
  function Probe(ops: seq<Op>, i: nat, j: nat, val: (Memory, Memory, Cell) -> byte, f: (Memory, Cell) -> byte)
      : (xs: seq<Op>)
    requires i < j < |ops|
    ensures |xs| == j + 1
  {
    seq(j + 1, x requires 0 <= x < j + 1 =>
      Retold(ops[x], if x == i then val else Yields(0), if x == j then f else Always(0)))
  }

  lemma ProbeAlike(ops: seq<Op>, i: nat, j: nat, val: (Memory, Memory, Cell) -> byte, f: (Memory, Cell) -> byte)
    requires i < j < |ops|
    ensures StartsLike(Probe(ops, i, j, val, f), ops)
  {
    hide Retold, Alike;
    forall x | 0 <= x < j + 1 ensures Alike(Probe(ops, i, j, val, f)[x], ops[x]) {
      RetoldAlike(ops[x], if x == i then val else Yields(0), if x == j then f else Always(0));
    }
  }

  lemma MatYields(cells: set<Cell>, mat: Mat, v: byte)
    requires mat.Ok(cells) && mat.val == Yields(v) && v <= 1
    ensures ApplyStep(Marked(cells, {}), mat.AsStep()) == Marked(cells, if v == 1 then mat.Dst() else {})
  {
    hide Restrict;
  }

  lemma MatCopies(cells: set<Cell>, mat: Mat, w: Cell)
    requires mat.Ok(cells) && mat.val == Copies(w)
    ensures ApplyStep(Marked(cells, {}), mat.AsStep()) == Marked(cells, {})
  {
    var s, m := mat.AsStep(), Marked(cells, {});
    forall c | c in mat.Dst() ensures s.f(Restrict(m, s.reads_), c) == 0 {
      var r := Restrict(Restrict(m, s.reads_), mat.deps(c));
      assert ReadAt(r, w) == 0;
    }
  }

  /** Op j is the first to clash, with matmul i, whose values and result are as given. */
  ghost predicate Setup(
    ops: seq<Op>, i: nat, j: nat, val: (Memory, Memory, Cell) -> byte, cells: set<Cell>, hot: set<Cell>)
  {
    && i < j < |ops| && (forall op <- ops :: op.Ok(cells))
    && InFlight(ops, j) == Some(i) && Clashes(ops, j) && (forall y :: i < y < j ==> !Clashes(ops, y))
    && hot <= ops[i].body.mat.Dst()
    && ApplyStep(Marked(cells, {}), ops[i].body.mat.(val := val).AsStep()) == Marked(cells, hot)
  }

  lemma QuietBefore(
    ops: seq<Op>, i: nat, j: nat, val: (Memory, Memory, Cell) -> byte, cells: set<Cell>, hot: set<Cell>, y: nat)
    requires Setup(ops, i, j, val, cells, hot) && i < y < j
    ensures forall p <- ops[y].Pieces() :: p.writes !! hot
  {
    hide InFlight, ApplyStep, Op.Ok, Taint, Op.Pieces;
    StaysInFlight(ops, i, y, j);
    assert !Clashes(ops, y);
  }

  /** An op whose kernels write zeros, over zeros and some ones it does not write. */
  lemma RetoldZero(op: Op, cells: set<Cell>, ones: set<Cell>)
    requires op.Ok(cells) && forall p <- op.Pieces() :: p.writes !! ones
    ensures ApplySteps(Marked(cells, ones), Retold(op, Yields(0), Always(0)).Pieces()) == Marked(cells, ones)
  {
    hide ApplySteps, Yields, Always, Marked;
    var x := Retold(op, Yields(0), Always(0));
    match op.body
    case Steps(s) =>
      assert Told(x.Pieces(), Always(0), cells);
      StepsZero(cells, ones, x.Pieces());
    case Dma(mat) =>
      assert x.Pieces() == [x.body.mat.AsStep()];
      OnePiece(Marked(cells, ones), x.body.mat.AsStep());
      assert op.Pieces()[0] in op.Pieces();
      MatZero(cells, x.body.mat, ones);
  }

  lemma MatZero(cells: set<Cell>, mat: Mat, ones: set<Cell>)
    requires mat.Ok(cells) && mat.val == Yields(0) && mat.Dst() !! ones
    ensures ApplyStep(Marked(cells, ones), mat.AsStep()) == Marked(cells, ones)
  {
    hide Restrict;
  }

  /** In order, the ones are just the matmul's. */
  lemma {:induction false} ProbeInOrder(
    ops: seq<Op>, i: nat, j: nat, val: (Memory, Memory, Cell) -> byte, f: (Memory, Cell) -> byte,
    cells: set<Cell>, hot: set<Cell>, x: nat)
    requires Setup(ops, i, j, val, cells, hot) && x <= j
    ensures Sequential(Probe(ops, i, j, val, f)[..x], Marked(cells, {})) == Marked(cells, if x <= i then {} else hot)
  {
    var xs := Probe(ops, i, j, val, f);
    if x > 0 {
      var y := x - 1;
      ProbeInOrder(ops, i, j, val, f, cells, hot, y);
      SequentialSnoc(xs, y, Marked(cells, {}));
      hide InFlight, Clashes, ApplySteps, Sequential, Marked, Op.Ok, Yields, Always, Op.Pieces, Retold;
      assert ops[y].Ok(cells);
      var ones := if y <= i then {} else hot;
      if y == i {
        RetoldMat(ops[i], val, Always(0), Marked(cells, {}));
      } else {
        if y > i {
          QuietBefore(ops, i, j, val, cells, hot, y);
        }
        RetoldZero(ops[y], cells, ones);
      }
    }
  }

  lemma RetoldMat(op: Op, val: (Memory, Memory, Cell) -> byte, f: (Memory, Cell) -> byte, m: Memory)
    requires op.body.Dma?
    ensures ApplySteps(m, Retold(op, val, f).Pieces()) == ApplyStep(m, op.body.mat.(val := val).AsStep())
  {
    hide ApplySteps, ApplyStep;
    DmaPieces(Retold(op, val, f), m);
  }

  /** What an idle board or an idle DMA leaves of zeros. */
  predicate Still(b: BoardState, cells: set<Cell>)
  {
    b.mem == Marked(cells, {}) && Unmoved(b.flight)
  }

  lemma AwaitStill(b: BoardState, cells: set<Cell>)
    requires Still(b, cells) && b.flight.Some? && b.flight.value.mat.Ok(cells) && b.flight.value.mat.val == Yields(0)
    ensures Still(Awaited(b, Lazy()), cells)
  {
    LazyTick(b);
    hide Restrict, Ticked;
  }

  lemma LaunchStill(b: BoardState, op: Op, cells: set<Cell>)
    requires Still(b, cells) && op.Ok(cells) && ApplySteps(Marked(cells, {}), op.Pieces()) == Marked(cells, {})
    ensures Still(Launched(b, op, Lazy()), cells)
  {
    hide Ticked, Performed, ApplySteps, Marked;
    LazyPerform(b, op.Pieces());
    LazyTick(Performed(b, op.Pieces(), Lazy()));
    if op.body.Dma? {
      LazyTick(b.(flight := Some(Flight(op.body.mat, Restrict(b.mem, op.body.mat.acts), map[], {}))));
    }
  }

  /** Issuing a matmul moves nothing yet. */
  lemma IssueStill(b: BoardState, op: Op, cells: set<Cell>)
    requires Still(b, cells) && op.hasAsync && b.flight.None? && op.body.Dma?
    ensures Still(Launched(b, op, Lazy()), cells)
  {
    hide Ticked, Marked;
    LazyTick(b.(flight := Some(Flight(op.body.mat, Restrict(b.mem, op.body.mat.acts), map[], {}))));
  }

  /** Up to op j the lazy board still shows zeros. */
  lemma {:induction false} ProbeLazy(
    ops: seq<Op>, i: nat, j: nat, val: (Memory, Memory, Cell) -> byte, f: (Memory, Cell) -> byte,
    cells: set<Cell>, hot: set<Cell>, b: BoardState, x: nat)
    requires Setup(ops, i, j, val, cells, hot) && x <= j && b.flight.None? && b.mem == Marked(cells, {})
    ensures Still(RunTo(Probe(ops, i, j, val, f)[..x], b, Lazy()), cells)
  {
    hide Clashes, ApplyStep, Op.Ok, InFlight, Launched, Cleared, Marked, Probe, RunTo;
    var xs := Probe(ops, i, j, val, f);
    if x == 0 {
      NothingRun(xs, b);
    } else {
      ProbeLazy(ops, i, j, val, f, cells, hot, b, x - 1);
      RunToSnoc(xs, x - 1, b, Lazy());
      RunToFlight(xs, x - 1, b, Lazy());
      ProbeLazyStep(ops, i, j, val, f, cells, hot, RunTo(xs[..x - 1], b, Lazy()), x - 1);
    }
  }

  lemma NothingRun(xs: seq<Op>, b: BoardState)
    ensures RunTo(xs[..0], b, Lazy()) == b
  {
  }

  lemma ProbeLazyStep(
    ops: seq<Op>, i: nat, j: nat, val: (Memory, Memory, Cell) -> byte, f: (Memory, Cell) -> byte,
    cells: set<Cell>, hot: set<Cell>, b: BoardState, y: nat)
    requires Setup(ops, i, j, val, cells, hot) && y < j && Still(b, cells)
    requires FlightIs(b.flight, Probe(ops, i, j, val, f), InFlight(Probe(ops, i, j, val, f), y))
    ensures Still(Launched(Cleared(b, Probe(ops, i, j, val, f)[y], Lazy()), Probe(ops, i, j, val, f)[y], Lazy()), cells)
  {
    hide InFlight, Barrier, Launched, Marked, Still, Awaited, Alike, Retold, ApplyStep, Yields, Always;
    var xs := Probe(ops, i, j, val, f);
    ProbeAlike(ops, i, j, val, f);
    InFlightAlike(xs, ops, y);
    if y > i {
      StaysInFlight(ops, i, y, j);
    }
    if b.flight.Some? && AfterBarrier(xs, y).None? {
      var k := InFlight(ops, y).value;
      RetoldVal(ops[k], Always(0), cells);
      AwaitStill(b, cells);
    }
    DispatchFlight(xs, y, b, Lazy());
    ProbeLaunch(ops, i, j, val, f, cells, hot, Cleared(b, xs[y], Lazy()), y);
  }

  lemma RetoldVal(op: Op, f: (Memory, Cell) -> byte, cells: set<Cell>)
    requires op.body.Dma? && op.Ok(cells)
    ensures Retold(op, Yields(0), f).body.Dma? && Retold(op, Yields(0), f).body.mat.val == Yields(0)
    ensures Retold(op, Yields(0), f).body.mat.Ok(cells)
  {
  }

  lemma ProbeLaunch(
    ops: seq<Op>, i: nat, j: nat, val: (Memory, Memory, Cell) -> byte, f: (Memory, Cell) -> byte,
    cells: set<Cell>, hot: set<Cell>, c: BoardState, y: nat)
    requires Setup(ops, i, j, val, cells, hot) && y < j && Still(c, cells)
    requires FlightIs(c.flight, Probe(ops, i, j, val, f), AfterBarrier(ops, y))
    ensures Still(Launched(c, Probe(ops, i, j, val, f)[y], Lazy()), cells)
  {
    hide InFlight, AfterBarrier, Launched, Still, Alike, Retold, ApplyStep, Yields, Always, Marked, ApplySteps, Op.Ok;
    var xs := Probe(ops, i, j, val, f);
    if y == i {
      StaysInFlight(ops, i, i + 1, j);
      InFlightStep(ops, i + 1);
      RetoldAlike(ops[i], val, Always(0));
      RetoldMeta(ops[i], val, Always(0));
      IssueStill(c, xs[i], cells);
    } else {
      assert ops[y].Ok(cells);
      RetoldZero(ops[y], cells, {});
      RetoldOk(ops[y], cells);
      LaunchStill(c, xs[y], cells);
    }
  }

  lemma RetoldMeta(op: Op, val: (Memory, Memory, Cell) -> byte, f: (Memory, Cell) -> byte)
    ensures Retold(op, val, f).hasAsync == op.hasAsync && Retold(op, val, f).body.Dma? == op.body.Dma?
  {
  }

  lemma RetoldOk(op: Op, cells: set<Cell>)
    requires op.Ok(cells)
    ensures Retold(op, Yields(0), Always(0)).Ok(cells)
  {
    RetoldAlike(op, Yields(0), Always(0));
    AlikeOk(Retold(op, Yields(0), Always(0)), op, cells);
  }

  /** The pieces of the clashing op, with the kernel f. */
  function Clashing(op: Op, f: (Memory, Cell) -> byte): seq<Step>
  {
    Retold(op, Yields(0), f).Pieces()
  }

  /** The two ends of the probe: both are the clashing op over the ones or zeros, then the DMA. */
  lemma ProbeEnds(
    ops: seq<Op>, i: nat, j: nat, val: (Memory, Memory, Cell) -> byte, f: (Memory, Cell) -> byte,
    cells: set<Cell>, hot: set<Cell>, b: BoardState) returns (fl: Flight)
    requires Setup(ops, i, j, val, cells, hot) && b.flight.None? && b.mem == Marked(cells, {})
    ensures fl.mat == ops[i].body.mat.(val := val) && Unmoved(Some(fl))
    ensures var xs, p := Probe(ops, i, j, val, f), Clashing(ops[j], f);
      && Sequential(xs, b.mem) == ApplySteps(Marked(cells, hot), p)
      && Run(xs, b, Lazy()) == Finish(ApplySteps(Marked(cells, {}), p), fl)
  {
    hide InFlight, AfterBarrier, RunTo, Launched, Alike, Marked, ApplySteps, ApplyStep, Op.Ok, Op.Harmless;
    hide Yields, Always, Sequential, Finish, Still, Ticked;
    var xs := Probe(ops, i, j, val, f);
    ProbeInOrder(ops, i, j, val, f, cells, hot, j);
    SequentialSnoc(xs, j, b.mem);
    ProbeLazy(ops, i, j, val, f, cells, hot, b, j);
    RunToSnoc(xs, j, b, Lazy());
    RunToFlight(xs, j, b, Lazy());
    ProbeAlike(ops, i, j, val, f);
    InFlightAlike(xs, ops, j);
    assert xs[..j + 1] == xs;
    var now := RunTo(xs[..j], b, Lazy());
    fl := now.flight.value;
    NotBarred(ops[i], ops[j], xs[i], xs[j]);
    assert Cleared(now, xs[j], Lazy()) == now;
    LastOp(now, xs[j], cells);
  }

  /** Other kernels do not bar. */
  lemma NotBarred(mo: Op, op: Op, mo': Op, op': Op)
    requires Alike(mo', mo) && Alike(op', op) && mo.body.Dma? && !Barrier(op, mo.body.mat)
    ensures !Barrier(op', mo'.body.mat)
  {
    AlikeFacts(op', op, mo'.body.mat, mo.body.mat);
  }

  /** An op run beside a lazy DMA, and the wait after it. */
  lemma LastOp(b: BoardState, op: Op, cells: set<Cell>)
    requires Still(b, cells) && b.flight.Some?
    ensures Unmoved(b.flight)
    ensures Drained(Launched(b, op, Lazy()), Lazy()).mem ==
      Finish(ApplySteps(Marked(cells, {}), op.Pieces()), b.flight.value)
  {
    hide Ticked, Performed, ApplySteps, Marked, Finish;
    LazyPerform(b, op.Pieces());
    var p := Performed(b, op.Pieces(), Lazy());
    LazyTick(p);
    LazyTick(Ticked(p, Lazy()));
  }

  /** Some graph that begins like this one ends, on some run, in another memory. */
  ghost predicate Differs(ops: seq<Op>, cells: set<Cell>, xs: seq<Op>, b: BoardState, o: Oracle)
  {
    && StartsLike(xs, ops) && b.flight.None? && b.mem.Keys == cells
    && Run(xs, b, o) != Sequential(xs, b.mem)
  }

  lemma ClashingTold(op: Op, f: (Memory, Cell) -> byte, cells: set<Cell>, mat: Mat)
    requires op.Ok(cells) && !Barrier(op, mat)
    ensures Told(Clashing(op, f), f, cells) && SameFootprints(Clashing(op, f), op.Pieces())
  {
    var s := Clashing(op, f);
    forall p | p in s ensures p.writes <= cells && p.f == f {
      var k :| 0 <= k < |s| && s[k] == p;
      assert op.Pieces()[k].writes <= cells;
    }
  }

  lemma SameWritten(s: seq<Step>, t: seq<Step>, p: Step) returns (q: Step)
    requires SameFootprints(s, t) && p in t
    ensures q in s && q.writes == p.writes
  {
    var k :| 0 <= k < |t| && t[k] == p;
    q := s[k];
  }

  /** Writing a result byte: the DMA writes over it later. */
  lemma WritesResult(ops: seq<Op>, i: nat, j: nat, cells: set<Cell>, b: BoardState, p: Step, c: Cell)
    requires Setup(ops, i, j, Yields(0), cells, {}) && b.flight.None? && b.mem == Marked(cells, {})
    requires p in ops[j].Pieces() && c in p.writes && c in ops[i].body.mat.Dst()
    ensures Differs(ops, cells, Probe(ops, i, j, Yields(0), Always(1)), b, Lazy())
  {
    hide Alike, Op.Pieces, Barrier, InFlight, ApplyStep, ApplySteps, Run, Sequential, Probe,
      Op.Harmless, Retold, SameFootprints;
    var fl := ProbeEnds(ops, i, j, Yields(0), Always(1), cells, {}, b);
    ProbeAlike(ops, i, j, Yields(0), Always(1));
    ClashingTold(ops[j], Always(1), cells, ops[i].body.mat);
    var q := SameWritten(Clashing(ops[j], Always(1)), ops[j].Pieces(), p);
    StepsOne(cells, Clashing(ops[j], Always(1)));
    WrittenSome(Clashing(ops[j], Always(1)), q, c);
    var w := Written(Clashing(ops[j], Always(1)));
    MatCells(ops[i], cells, c);
    FinishYields(Marked(cells, w), fl, 0, c);
    assert Marked(cells, w)[c] == 1;
  }

  lemma MatCells(op: Op, cells: set<Cell>, c: Cell)
    requires op.Ok(cells) && op.body.Dma? && c in op.body.mat.Dst()
    ensures c in cells
  {
  }

  lemma FinishYields(m: Memory, fl: Flight, v: byte, c: Cell)
    requires fl.mat.val == Yields(v) && Unmoved(Some(fl))
    ensures c in fl.mat.Dst() ==> c in Finish(m, fl) && Finish(m, fl)[c] == v
    ensures c !in fl.mat.Dst() && c in m ==> c in Finish(m, fl) && Finish(m, fl)[c] == m[c]
  {
    hide Restrict;
  }

  lemma FinishCopies(m: Memory, fl: Flight, w: Cell, c: Cell)
    requires fl.mat.val == Copies(w) && Unmoved(Some(fl)) && w in m && w in fl.mat.weights
    requires c in fl.mat.Dst() && w in fl.mat.deps(c)
    ensures c in Finish(m, fl) && Finish(m, fl)[c] == m[w]
  {
  }

  /** Writing a weight some result byte needs: the DMA fetches it later. */
  lemma WritesWeight(ops: seq<Op>, i: nat, j: nat, cells: set<Cell>, b: BoardState, p: Step, w: Cell, c: Cell)
    requires Setup(ops, i, j, Copies(w), cells, {}) && b.flight.None? && b.mem == Marked(cells, {})
    requires p in ops[j].Pieces() && w in p.writes && c in ops[i].body.mat.Dst() && w in ops[i].body.mat.deps(c)
    requires c !in Written(Clashing(ops[j], Always(1)))
    ensures Differs(ops, cells, Probe(ops, i, j, Copies(w), Always(1)), b, Lazy())
  {
    hide Alike, Op.Pieces, Barrier, InFlight, ApplyStep, ApplySteps, Run, Sequential, Probe,
      Op.Harmless, Retold, SameFootprints;
    var f := Always(1);
    var fl := ProbeEnds(ops, i, j, Copies(w), f, cells, {}, b);
    ProbeAlike(ops, i, j, Copies(w), f);
    ClashingTold(ops[j], f, cells, ops[i].body.mat);
    var q := SameWritten(Clashing(ops[j], f), ops[j].Pieces(), p);
    StepsOne(cells, Clashing(ops[j], f));
    WrittenSome(Clashing(ops[j], f), q, w);
    var m := Marked(cells, Written(Clashing(ops[j], f)));
    MatCells(ops[i], cells, c);
    FinishCopies(m, fl, w, c);
    assert m[w] == 1 && m[c] == 0;
  }

  /** Reading the result before it lands, where the value read reaches memory. */
  lemma ReadsResult(ops: seq<Op>, i: nat, j: nat, cells: set<Cell>, hot: set<Cell>, b: BoardState, x: Cell)
    requires Setup(ops, i, j, Yields(1), cells, hot) && b.flight.None? && b.mem == Marked(cells, {})
    requires hot == ops[i].body.mat.Dst()
    requires (forall p <- ops[j].Pieces() :: p.writes !! hot) && x in Taint(ops[j].Pieces(), hot)
    ensures Differs(ops, cells, Probe(ops, i, j, Yields(1), Spreads()), b, Lazy())
  {
    hide Alike, Op.Pieces, Barrier, InFlight, ApplyStep, ApplySteps, Run, Sequential, Probe,
      Op.Harmless, Retold, Spreads;
    var f := Spreads();
    var fl := ProbeEnds(ops, i, j, Yields(1), f, cells, hot, b);
    ProbeAlike(ops, i, j, Yields(1), f);
    ClashingTold(ops[j], f, cells, ops[i].body.mat);
    var s := Clashing(ops[j], f);
    TaintAlike(s, ops[j].Pieces(), hot);
    MissesHot(s, ops[j].Pieces(), hot);
    forall c | c in hot ensures c in cells {
      MatCells(ops[i], cells, c);
    }
    hide SameFootprints, Taint;
    StepsSpread(cells, hot, s);
    StepsSpread(cells, {}, s);
    assert {} + Taint(s, {}) == {};
    FinishYields(Marked(cells, {}), fl, 1, x);
    assert Marked(cells, hot + Taint(s, hot))[x] == 1;
  }

  lemma MissesHot(s: seq<Step>, t: seq<Step>, hot: set<Cell>)
    requires SameFootprints(s, t) && forall p <- t :: p.writes !! hot
    ensures forall p <- s :: p.writes !! hot
  {
    forall p | p in s ensures p.writes !! hot {
      var k :| 0 <= k < |s| && s[k] == p;
      assert t[k] in t;
    }
  }

  lemma {:induction false} WrittenNone(s: seq<Step>, c: Cell)
    requires forall p <- s :: c !in p.writes
    ensures c !in Written(s)
  {
    if s != [] {
      assert s[|s| - 1] in s;
      WrittenNone(s[..|s| - 1], c);
    }
  }

  /** Matmul i is in flight at op j, which is the first to clash. */
  ghost predicate FirstClash(ops: seq<Op>, i: nat, j: nat)
  {
    i < j < |ops| && InFlight(ops, j) == Some(i) && Clashes(ops, j) && forall y :: i < y < j ==> !Clashes(ops, y)
  }

  lemma SetupYields(ops: seq<Op>, i: nat, j: nat, cells: set<Cell>, v: byte)
    requires (forall op <- ops :: op.Ok(cells)) && FirstClash(ops, i, j) && v <= 1
    ensures Setup(ops, i, j, Yields(v), cells, if v == 1 then ops[i].body.mat.Dst() else {})
  {
    hide ApplyStep, Clashes, Op.Pieces, Yields, Marked;
    assert ops[i].Ok(cells);
    var mat := ops[i].body.mat.(val := Yields(v));
    MatYields(cells, mat, v);
  }

  lemma SetupCopies(ops: seq<Op>, i: nat, j: nat, cells: set<Cell>, w: Cell)
    requires (forall op <- ops :: op.Ok(cells)) && FirstClash(ops, i, j)
    ensures Setup(ops, i, j, Copies(w), cells, {})
  {
    hide ApplyStep, Clashes, Op.Pieces, Copies, Marked;
    assert ops[i].Ok(cells);
    MatCopies(cells, ops[i].body.mat.(val := Copies(w)), w);
  }

  /** A clash shows in some run of some graph that begins like this one. */
  lemma ClashShows(ops: seq<Op>, i: nat, j: nat, cells: set<Cell>) returns (xs: seq<Op>, b: BoardState)
    requires (forall op <- ops :: op.Ok(cells)) && FirstClash(ops, i, j)
    ensures Differs(ops, cells, xs, b, Lazy())
  {
    hide InFlight, Setup, Op.Ok, Op.Pieces, Barrier, Differs, Probe, Yields, Spreads, Copies, Always, Clashing, Taint;
    b := BoardState(Marked(cells, {}), None, 0);
    var mat, pieces := ops[i].body.mat, ops[j].Pieces();
    if p, c :| p in pieces && c in p.writes && c in mat.Dst() {
      SetupYields(ops, i, j, cells, 0);
      xs := Probe(ops, i, j, Yields(0), Always(1));
      WritesResult(ops, i, j, cells, b, p, c);
    } else if p, w :| p in pieces && w in p.writes && w in mat.Used() {
      var c :| c in mat.Dst() && w in mat.deps(c);
      SetupCopies(ops, i, j, cells, w);
      xs := Probe(ops, i, j, Copies(w), Always(1));
      ClashingMisses(ops[j], Always(1), c, cells, mat);
      WritesWeight(ops, i, j, cells, b, p, w, c);
    } else {
      var x :| x in Taint(pieces, mat.Dst());
      SetupYields(ops, i, j, cells, 1);
      xs := Probe(ops, i, j, Yields(1), Spreads());
      ReadsResult(ops, i, j, cells, mat.Dst(), b, x);
    }
  }

  lemma ClashingMisses(op: Op, f: (Memory, Cell) -> byte, c: Cell, cells: set<Cell>, mat: Mat)
    requires op.Ok(cells) && !Barrier(op, mat) && forall p <- op.Pieces() :: c !in p.writes
    ensures c !in Written(Clashing(op, f))
  {
    ClashingTold(op, f, cells, mat);
    hide Retold, Op.Pieces;
    var s, t := Clashing(op, f), op.Pieces();
    forall p | p in s ensures c !in p.writes {
      var k :| 0 <= k < |s| && s[k] == p;
      assert t[k] in t;
    }
    WrittenNone(s, c);
  }

  lemma {:induction false} FindFirst(ops: seq<Op>, k: nat) returns (j: nat)
    requires k < |ops| && Clashes(ops, k)
    ensures j <= k && Clashes(ops, j) && forall y :: 0 <= y < j ==> !Clashes(ops, y)
  {
    hide Clashes;
    if y: nat :| y < k && Clashes(ops, y) {
      j := FindFirst(ops, y);
    } else {
      j := k;
    }
  }

  /**
   The rule is exact: it holds just when every graph that begins like this one, whatever
   its kernels compute, ends every run in the memory of running its ops in order.
   */
  lemma RuleIsExact(ops: seq<Op>, cells: set<Cell>)
    requires forall op <- ops :: op.Ok(cells)
    ensures ArenaRule(ops) <==>
      forall xs: seq<Op>, b: BoardState, o: Oracle ::
        StartsLike(xs, ops) && b.flight.None? && b.mem.Keys == cells ==> Run(xs, b, o) == Sequential(xs, b.mem)
  {
    hide Clashes, Alike, Op.Ok, Run, Sequential, InFlight;
    if ArenaRule(ops) {
      forall xs: seq<Op>, b: BoardState, o: Oracle | StartsLike(xs, ops) && b.flight.None? && b.mem.Keys == cells
        ensures Run(xs, b, o) == Sequential(xs, b.mem)
      {
        RuleAlike(xs, ops);
        AllAlikeOk(xs, ops, cells);
        RuleIsSound(xs, b, o);
      }
    } else {
      var k :| 0 <= k < |ops| && Clashes(ops, k);
      var j := FindFirst(ops, k);
      ClashFlight(ops, j);
      var xs, b := ClashShows(ops, InFlight(ops, j).value, j, cells);
    }
  }

  lemma ClashFlight(ops: seq<Op>, j: nat)
    requires j < |ops| && Clashes(ops, j)
    ensures InFlight(ops, j).Some? && InFlight(ops, j).value < j
  {
  }

  lemma AllAlikeOk(xs: seq<Op>, ops: seq<Op>, cells: set<Cell>)
    requires StartsLike(xs, ops) && forall op <- ops :: op.Ok(cells)
    ensures forall x <- xs :: x.Ok(cells)
  {
    hide Alike, Op.Ok;
    forall x | x in xs ensures x.Ok(cells) {
      var k :| 0 <= k < |xs| && xs[k] == x;
      AlikeOk(xs[k], ops[k], cells);
    }
  }

  /** The rule for one matmul and one op after it, read off their footprints. */
  lemma OneBesideAnother(first: Op, op: Op, s: Step, cells: set<Cell>)
    requires first.Ok(cells) && op.Ok(cells) && first.hasAsync && first.body.Dma? && op.body == Steps([s])
    ensures
      var mat := first.body.mat;
      (|| Barrier(op, mat)
       || (s.writes !! mat.Dst() + mat.Used() && (s.reads_ !! mat.Dst() || s.writes == {})))
      <==>
      (forall xs: seq<Op>, b: BoardState, o: Oracle ::
         StartsLike(xs, [first, op]) && b.flight.None? && b.mem.Keys == cells ==>
         Run(xs, b, o) == Sequential(xs, b.mem))
  {
    var ops, mat := [first, op], first.body.mat;
    RuleIsExact(ops, cells);
    hide Run, Sequential, StartsLike, Op.Ok;
    FirstInFlight(first, op);
    OneTaint(s, mat.Dst());
    hide InFlight, Taint, Touches;
    assert ops[1].Harmless(mat) <==> s.writes !! mat.Dst() + mat.Used() && (s.reads_ !! mat.Dst() || s.writes == {});
    assert !Clashes(ops, 0) && (Clashes(ops, 1) <==> !Barrier(op, mat) && !op.Harmless(mat));
  }

  lemma OneTaint(s: Step, hot: set<Cell>)
    ensures Taint([s], hot) == if s.reads_ !! hot then {} else s.writes
  {
    assert [s][..0] == [];
    assert Taint([s], hot) == TaintStep(Taint([s][..0], hot), s, hot);
  }

  lemma FirstInFlight(first: Op, op: Op)
    requires first.hasAsync && first.body.Dma?
    ensures InFlight([first, op], 0) == None && InFlight([first, op], 1) == Some(0)
  {
    assert InFlight([first, op], 0) == None;
    assert AfterBarrier([first, op], 0) == None;
  }

  // ----- whatever the matmul computes -----

  /** The op with another kernel for its one piece. */
  function WithKernel(op: Op, s: Step, g: (Memory, Cell) -> byte): Op
  {
    op.(body := Steps([s.(f := g)]))
  }

  lemma KernelKeepsBarrier(op: Op, s: Step, g: (Memory, Cell) -> byte, mat: Mat)
    ensures Barrier(WithKernel(op, s, g), mat) == Barrier(op, mat)
  {
  }

  /** A lazy run of a matmul and an op beside it: the op sees memory as it was, the result lands last. */
  lemma PairRun(first: Op, op: Op, s: Step, b: BoardState)
    requires first.hasAsync && first.body.Dma? && op.body == Steps([s]) && !Barrier(op, first.body.mat)
    requires b.flight.None?
    ensures var mat := first.body.mat;
      && Run([first, op], b, Lazy()) ==
         Finish(ApplyStep(b.mem, s), Flight(mat, Restrict(b.mem, mat.acts), map[], {}))
      && Sequential([first, op], b.mem) == ApplyStep(ApplyStep(b.mem, mat.AsStep()), s)
  {
    hide Ticked, Performed, ApplyStep, ApplySteps, Finish, Restrict, Touches, Sequential, RunTo, Barrier;
    var ops, mat := [first, op], first.body.mat;
    NothingRun(ops, b);
    RunToSnoc(ops, 0, b, Lazy());
    RunToSnoc(ops, 1, b, Lazy());
    assert ops[..2] == ops;
    var issued := b.(flight := Some(Flight(mat, Restrict(b.mem, mat.acts), map[], {})));
    LazyTick(issued);
    var started := Ticked(issued, Lazy());
    assert RunTo(ops[..1], b, Lazy()) == started;
    LazyPerform(started, [s]);
    OnePiece(b.mem, s);
    var done := Performed(started, [s], Lazy());
    LazyTick(done);
    LazyTick(Ticked(done, Lazy()));
    InOrder(first, op, b.mem);
    DmaPieces(first, b.mem);
    OnePiece(ApplyStep(b.mem, mat.AsStep()), s);
  }

  lemma InOrder(first: Op, op: Op, m: Memory)
    ensures Sequential([first, op], m) == ApplySteps(ApplySteps(m, first.Pieces()), op.Pieces())
  {
    hide ApplySteps;
    var ops := [first, op];
    SequentialSnoc(ops, 0, m);
    SequentialSnoc(ops, 1, m);
    assert ops[..2] == ops && ops[..0] == [];
  }

  /** The value a matmul gives one result byte over a memory. */
  function ValueOf(mat: Mat, m: Memory, c: Cell): byte
  {
    mat.val(Restrict(m, mat.acts), Restrict(m, mat.deps(c)), c)
  }

  lemma MatValue(mat: Mat, m: Memory, c: Cell)
    requires mat.Ok(m.Keys) && c in mat.Dst()
    ensures c in ApplyStep(m, mat.AsStep()) && ApplyStep(m, mat.AsStep())[c] == ValueOf(mat, m, c)
  {
    var r := Restrict(m, mat.acts + mat.weights);
    assert Restrict(r, mat.acts) == Restrict(m, mat.acts);
    assert Restrict(r, mat.deps(c)) == Restrict(m, mat.deps(c));
  }

  function Other(v: byte): (w: byte)
    ensures w != v
  {
    if v == 0 then 1 else 0
  }

  /** Gives one cell a value, every other cell zero. */
  function Only(at: Cell, v: byte): (Memory, Cell) -> byte
  {
    (m, c) => if c == at then v else 0
  }

  function CopyOf(from: Cell): (Memory, Cell) -> byte
  {
    (m, c) => ReadAt(m, from)
  }

  /** A memory in which the matmul changes the byte. */
  lemma Changes(mat: Mat, cells: set<Cell>, c: Cell) returns (m: Memory)
    requires mat.Ok(cells) && c in mat.Dst() && c !in mat.acts
    ensures m.Keys == cells && c in m && m[c] != ValueOf(mat, m, c)
  {
    var z := Marked(cells, {});
    m := z[c := Other(ValueOf(mat, z, c))];
    assert c in cells && m.Keys == cells;
    assert Restrict(m, mat.acts) == Restrict(z, mat.acts);
    assert Restrict(m, mat.deps(c)) == Restrict(z, mat.deps(c));
  }

  /**
   Whatever the matmul computes from its activations and weights, an op that is not held back,
   reads one of its result bytes and writes anything has a kernel with which the run differs.
   */
  lemma AnyMatmulIsReadTooEarly(first: Op, op: Op, s: Step, c: Cell, cells: set<Cell>)
    returns (g: (Memory, Cell) -> byte, b: BoardState)
    requires first.Ok(cells) && first.hasAsync && first.body.Dma?
    requires op.body == Steps([s]) && !Barrier(op, first.body.mat) && s.writes != {} && s.writes <= cells
    requires c in s.reads_ && c in first.body.mat.Dst() && c !in first.body.mat.acts
    ensures b.flight.None? && b.mem.Keys == cells
    ensures Run([first, WithKernel(op, s, g)], b, Lazy()) != Sequential([first, WithKernel(op, s, g)], b.mem)
  {
    hide Run, Sequential, Restrict, Barrier;
    var mat := first.body.mat;
    var m := Changes(mat, cells, c);
    b := BoardState(m, None, 0);
    if w :| w in s.writes && w !in mat.Dst() {
      g := CopyOf(c);
      KernelKeepsBarrier(op, s, g, mat);
      PairRun(first, WithKernel(op, s, g), s.(f := g), b);
      StaleCopy(mat, m, s.(f := g), c, w);
    } else {
      var w :| w in s.writes;
      g := Only(w, Other(Landed(mat, m, s, w)));
      KernelKeepsBarrier(op, s, g, mat);
      PairRun(first, WithKernel(op, s, g), s.(f := g), b);
      Overwritten(mat, m, s, w);
    }
  }

  lemma StaleCopy(mat: Mat, m: Memory, s: Step, c: Cell, w: Cell)
    requires mat.Ok(m.Keys) && c in mat.Dst() && c in s.reads_ && s.f == CopyOf(c)
    requires w in s.writes && w !in mat.Dst() && m[c] != ValueOf(mat, m, c)
    ensures Finish(ApplyStep(m, s), Flight(mat, Restrict(m, mat.acts), map[], {})) !=
            ApplyStep(ApplyStep(m, mat.AsStep()), s)
  {
    MatValue(mat, m, c);
    var n := ApplyStep(m, mat.AsStep());
    assert c in Restrict(m, s.reads_) && c in Restrict(n, s.reads_);
    assert ApplyStep(m, s)[w] == m[c] && ApplyStep(n, s)[w] == n[c];
    hide ValueOf;
    assert Finish(ApplyStep(m, s), Flight(mat, Restrict(m, mat.acts), map[], {}))[w] == m[c];
  }

  /** What lands at w when the op gives everything it writes but w a zero. */
  function Landed(mat: Mat, m: Memory, s: Step, w: Cell): byte
  {
    var after := ApplyStep(m, s.(f := Only(w, 0)));
    mat.val(Restrict(m, mat.acts), Restrict(Restrict(after, mat.weights), mat.deps(w)), w)
  }

  lemma Overwritten(mat: Mat, m: Memory, s: Step, w: Cell)
    requires mat.Ok(m.Keys) && w in s.writes && w in mat.Dst() && s.writes <= m.Keys
    ensures var t := s.(f := Only(w, Other(Landed(mat, m, s, w))));
      Finish(ApplyStep(m, t), Flight(mat, Restrict(m, mat.acts), map[], {})) !=
      ApplyStep(ApplyStep(m, mat.AsStep()), t)
  {
    hide Restrict, Finish;
    var v := Landed(mat, m, s, w);
    var t := s.(f := Only(w, Other(v)));
    SameWeights(m, s, w, Other(v), mat.weights);
    LandsAt(ApplyStep(m, t), mat, Restrict(m, mat.acts), w);
    assert ApplyStep(ApplyStep(m, mat.AsStep()), t)[w] == Other(v);
  }

  lemma SameWeights(m: Memory, s: Step, w: Cell, v: byte, cells: set<Cell>)
    requires w !in cells
    ensures Restrict(ApplyStep(m, s.(f := Only(w, 0))), cells) == Restrict(ApplyStep(m, s.(f := Only(w, v))), cells)
  {
  }

  lemma LandsAt(m: Memory, mat: Mat, acts: Memory, w: Cell)
    requires w in mat.Dst()
    ensures var done := Finish(m, Flight(mat, acts, map[], {}));
      w in done && done[w] == mat.val(acts, Restrict(Restrict(m, mat.weights), mat.deps(w)), w)
  {
    hide Restrict;
    var none: Memory := map[];
    assert mat.weights - none.Keys == mat.weights;
    assert Restrict(m, mat.weights) + none == Restrict(m, mat.weights);
  }
}

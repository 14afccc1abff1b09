/**
 What the scheduler promises, on the fields of the ops' tensor references alone: which
 matmul is outstanding when an op is reached (OutstandingIff), which ops wait for it
 (WaitsIff), and that a graph whose ops name the results they use is run as if in order
 (PromiseKept). Any part of a result may land as soon as its matmul is issued (AnyPartMayLand).
 */
module Promise {
  import opened Common
  import opened Scheduler

  // ----- references -----

  /** A reference with an offset to a byte of the matmul's result. */
  ghost predicate NamesByte(op: Op, mat: Mat)
  {
    exists i :: 0 <= i < |op.refs| && op.refs[i].Some? && op.refs[i].value.handle == mat.dst &&
      op.refs[i].value.offset.Some? && mat.lo <= op.refs[i].value.offset.value < mat.hi
  }

  /** A reference without an offset to the result's tensor, whose byte 0 is a result byte. */
  ghost predicate NamesStart(op: Op, mat: Mat)
  {
    mat.lo <= 0 < mat.hi &&
    exists i :: 0 <= i < |op.refs| && op.refs[i].Some? && op.refs[i].value.handle == mat.dst &&
      op.refs[i].value.offset.None?
  }

  /** The op must wait for the matmul. */
  ghost predicate Waits(op: Op, mat: Mat)
  {
    op.pl || NamesByte(op, mat) || NamesStart(op, mat)
  }

  /** Some piece of the op reads or writes a byte of the result. */
  ghost predicate Uses(op: Op, mat: Mat)
  {
    exists p, o :: p in op.Pieces() && mat.lo <= o < mat.hi &&
      (Cell(mat.dst, o) in p.reads_ || Cell(mat.dst, o) in p.writes)
  }

  ghost predicate OnlyMatmulsOnPl(ops: seq<Op>)
  {
    forall i :: 0 <= i < |ops| && ops[i].body.Dma? ==> ops[i].pl
  }

  /** Matmul i was left streaming and no op before j has waited for it. */
  ghost predicate Outstanding(ops: seq<Op>, i: nat, j: nat)
    requires j <= |ops|
  {
    && i < j && ops[i].hasAsync && ops[i].body.Dma?
    && forall k :: i < k < j ==> !Waits(ops[k], ops[i].body.mat)
  }

  lemma BarrierIs(op: Op, mat: Mat)
    ensures Barrier(op, mat) == Waits(op, mat)
  {
    if NamesByte(op, mat) {
      var i :| 0 <= i < |op.refs| && op.refs[i].Some? && op.refs[i].value.handle == mat.dst &&
        op.refs[i].value.offset.Some? && mat.lo <= op.refs[i].value.offset.value < mat.hi;
      assert Offset(op.refs[i].value) == op.refs[i].value.offset.value;
    }
    if NamesStart(op, mat) {
      var i :| 0 <= i < |op.refs| && op.refs[i].Some? && op.refs[i].value.handle == mat.dst &&
        op.refs[i].value.offset.None?;
      assert Offset(op.refs[i].value) == 0;
    }
  }

  /** The matmul in flight when the loop reaches an op is the outstanding one. */
  lemma {:induction false} OutstandingIff(ops: seq<Op>, i: nat, j: nat)
    requires j <= |ops| && OnlyMatmulsOnPl(ops)
    ensures InFlight(ops, j) == Some(i) <==> Outstanding(ops, i, j)
  {
    if j == 0 {
      InFlightStart(ops);
    } else if i < j && ops[i].body.Dma? {
      var k := j - 1;
      InFlightStep(ops, j);
      BarrierIs(ops[k], ops[i].body.mat);
      hide InFlight, Barrier, NamesByte, NamesStart;
      if i < k {
        OutstandingIff(ops, i, k);
      } else {
        PlClears(ops, k);
      }
    }
  }

  /** A PL op finds nothing in flight past its barrier. */
  lemma PlClears(ops: seq<Op>, k: nat)
    requires k < |ops| && OnlyMatmulsOnPl(ops)
    ensures ops[k].body.Dma? ==> AfterBarrier(ops, k) == None
    ensures AfterBarrier(ops, k) != Some(k)
  {
    hide InFlight, Touches;
  }

  // ----- what is waited for -----

  /** What op j adds to the log when matmul i is outstanding: a completion just if the op waits. */
  lemma WaitsIff(ops: seq<Op>, i: nat, j: nat)
    requires j < |ops| && OnlyMatmulsOnPl(ops) && Outstanding(ops, i, j)
    ensures LogUpTo(ops, j + 1) == LogUpTo(ops, j) +
      if !Waits(ops[j], ops[i].body.mat) then [Ran(j)]
      else [Completed(i), if ops[j].hasAsync && ops[j].body.Dma? then Issued(j) else Ran(j)]
  {
    OutstandingIff(ops, i, j);
    BarrierIs(ops[j], ops[i].body.mat);
    LogStep(ops, j + 1);
    hide InFlight, Barrier, NamesByte, NamesStart, LogUpTo;
    assert ops[j].body.Dma? ==> ops[j].pl;
  }

  /** With nothing outstanding an op is started, and a matmul left streaming. */
  lemma NothingOutstanding(ops: seq<Op>, j: nat)
    requires j < |ops| && OnlyMatmulsOnPl(ops) && forall i: nat :: i < j ==> !Outstanding(ops, i, j)
    ensures LogUpTo(ops, j + 1) == LogUpTo(ops, j) + [if ops[j].hasAsync && ops[j].body.Dma? then Issued(j) else Ran(j)]
  {
    if InFlight(ops, j).Some? {
      OutstandingIff(ops, InFlight(ops, j).value, j);
    }
    LogStep(ops, j + 1);
    hide InFlight, Barrier, Outstanding, LogUpTo;
  }

  // ----- the promise -----

  /** Op j, if matmul i is outstanding, names a result byte if it uses one, and writes no weight. */
  ghost predicate Honest(op: Op, mat: Mat)
  {
    (Uses(op, mat) ==> NamesByte(op, mat)) && forall p <- op.Pieces() :: p.writes !! mat.weights
  }

  lemma {:induction false} NothingTaints(s: seq<Step>, hot: set<Cell>)
    requires forall p <- s :: p.reads_ !! hot
    ensures Taint(s, hot) == {}
  {
    if s != [] {
      assert s[|s| - 1] in s;
      NothingTaints(s[..|s| - 1], hot);
    }
  }

  lemma HonestIsHarmless(op: Op, mat: Mat, cells: set<Cell>)
    requires Honest(op, mat) && !Waits(op, mat) && mat.Ok(cells)
    ensures op.Harmless(mat)
  {
    forall p | p in op.Pieces() ensures p.writes !! mat.Dst() + mat.Used() && p.reads_ !! mat.Dst() {
      assert mat.Used() <= mat.weights;
      forall c | c in mat.Dst() ensures c !in p.reads_ && c !in p.writes {
        assert c == Cell(mat.dst, c.off);
      }
    }
    NothingTaints(op.Pieces(), mat.Dst());
  }

  /**
   A graph in which every op that uses a result byte of an outstanding matmul names one,
   by handle and offset, and writes none of its weights, ends every run in the memory of
   running its ops in order.
   */
  lemma PromiseKept(ops: seq<Op>, b: BoardState, o: Oracle)
    requires b.flight.None? && forall op <- ops :: op.Ok(b.mem.Keys)
    requires forall i: nat, j: nat :: j < |ops| && Outstanding(ops, i, j) ==> Honest(ops[j], ops[i].body.mat)
    ensures Run(ops, b, o) == Sequential(ops, b.mem)
  {
    forall i | 0 <= i < |ops| && ops[i].body.Dma? ensures ops[i].pl {
      assert ops[i] in ops;
    }
    forall j | 0 <= j < |ops| ensures !Clashes(ops, j) {
      if InFlight(ops, j).Some? {
        var i := InFlight(ops, j).value;
        OutstandingIff(ops, i, j);
        hide InFlight, Barrier, Waits, Honest, Op.Harmless;
        BarrierIs(ops[j], ops[i].body.mat);
        assert ops[i] in ops;
        if !Waits(ops[j], ops[i].body.mat) {
          HonestIsHarmless(ops[j], ops[i].body.mat, b.mem.Keys);
        }
      }
    }
    hide Run, Sequential, Clashes, Op.Ok;
    RuleIsSound(ops, b, o);
  }

  /** Which of the first n ops are PL ops. */
  function PlOps(ops: seq<Op>, n: nat): set<nat>
    requires n <= |ops|
  {
    set i: nat | i < n && ops[i].pl
  }

  /** plOps counts the PL ops. */
  lemma PlCount(ops: seq<Op>)
    ensures CountPl(ops) == |PlOps(ops, |ops|)|
  {
    PlCountTo(ops, |ops|);
    assert ops[..|ops|] == ops;
  }

  lemma {:induction false} PlCountTo(ops: seq<Op>, n: nat)
    requires n <= |ops|
    ensures CountPl(ops[..n]) == |PlOps(ops, n)|
  {
    PlOpsSteps(ops, n);
    hide PlOps;
    if n > 0 {
      PlCountTo(ops, n - 1);
      assert ops[..n][..n - 1] == ops[..n - 1];
    }
  }

  lemma PlOpsSteps(ops: seq<Op>, n: nat)
    requires n <= |ops|
    ensures n == 0 ==> PlOps(ops, n) == {}
    ensures n > 0 ==> n - 1 !in PlOps(ops, n - 1)
    ensures n > 0 ==> PlOps(ops, n) == PlOps(ops, n - 1) + if ops[n - 1].pl then {n - 1} else {}
  {
  }

  // ----- what the DMA may do -----

  /** A time slot passes before every piece. */
  lemma {:induction false} TimeSlots(b: BoardState, s: seq<Step>, o: Oracle)
    ensures Performed(b, s, o).time == b.time + |s|
  {
    hide ApplyStep, Move;
    if s != [] {
      TimeSlots(b, s[..|s| - 1], o);
    }
  }

  /** The value of one result byte over the weights fetched so far. */
  function Value(fl: Flight, c: Cell): byte
  {
    fl.mat.val(fl.acts, Restrict(fl.fetched, fl.mat.deps(c)), c)
  }

  lemma MoveSnoc(m: Memory, fl: Flight, es: seq<DmaEvent>, e: DmaEvent)
    ensures Move(m, fl, es + [e]) == DmaStep(Move(m, fl, es).0, Move(m, fl, es).1, e)
  {
    assert (es + [e])[..|es|] == es;
  }

  lemma {:induction false} FetchAll(m: Memory, fl: Flight, s: set<Cell>) returns (es: seq<DmaEvent>)
    requires fl.fetched == map[] && s <= fl.mat.weights && s <= m.Keys
    ensures Move(m, fl, es) == (m, fl.(fetched := map c | c in s :: m[c]))
    decreases s
  {
    if s == {} {
      es := [];
      assert (map c | c in s :: m[c]) == fl.fetched;
    } else {
      var c :| c in s;
      var rest := s - {c};
      var front := FetchAll(m, fl, rest);
      es := front + [Fetch(c)];
      MoveSnoc(m, fl, front, Fetch(c));
      hide Move;
      assert (map d | d in rest :: m[d])[c := m[c]] == (map d | d in s :: m[d]);
    }
  }

  /** The memory with just these result bytes landed. */
  function With(m: Memory, fl: Flight, s: set<Cell>): Memory
  {
    m + map c | c in s :: Value(fl, c)
  }

  lemma WithMore(m: Memory, fl: Flight, s: set<Cell>, c: Cell)
    ensures With(m, fl, s + {c}) == With(m, fl, s)[c := Value(fl, c)]
    ensures With(m, fl, {}) == m
  {
    hide Value;
  }

  lemma {:induction false} LandAll(m: Memory, fl: Flight, s: set<Cell>) returns (es: seq<DmaEvent>, done: set<Cell>)
    requires forall c <- s :: c in fl.mat.Dst() && fl.mat.deps(c) <= fl.fetched.Keys
    ensures Move(m, fl, es) == (With(m, fl, s), fl.(landed := done))
    decreases s
  {
    hide DmaStep, Value, With;
    if s == {} {
      es, done := [], fl.landed;
      WithMore(m, fl, s, Cell(0, 0));
    } else {
      var c :| c in s;
      var rest := s - {c};
      var front, before := LandAll(m, fl, rest);
      es, done := front + [Land(c)], before + {c};
      MoveSnoc(m, fl, front, Land(c));
      Lands(With(m, fl, rest), fl, before, c);
      WithMore(m, fl, rest, c);
      assert rest + {c} == s;
    }
  }

  lemma Lands(m: Memory, fl: Flight, landed: set<Cell>, c: Cell)
    requires c in fl.mat.Dst() && fl.mat.deps(c) <= fl.fetched.Keys
    ensures DmaStep(m, fl.(landed := landed), Land(c)) == (m[c := Value(fl, c)], fl.(landed := landed + {c}))
  {
  }

  lemma {:induction false} MoveJoins(m: Memory, fl: Flight, es: seq<DmaEvent>, more: seq<DmaEvent>)
    ensures Move(m, fl, es + more) == Move(Move(m, fl, es).0, Move(m, fl, es).1, more)
  {
    hide DmaStep;
    if more == [] {
      assert es + more == es;
    } else {
      var n := |more| - 1;
      MoveJoins(m, fl, es, more[..n]);
      assert (es + more)[..|es| + n] == es + more[..n];
    }
  }

  /** Any part of a matmul's result may already be in memory right after it was issued. */
  lemma AnyPartMayLand(b: BoardState, mat: Mat, part: set<Cell>) returns (o: Oracle)
    requires b.flight.None? && mat.Ok(b.mem.Keys) && part <= mat.Dst()
    ensures ApplyStep(b.mem, mat.AsStep()).Keys == b.mem.Keys
    ensures Started(b, mat, o).mem ==
      map c | c in b.mem :: if c in part then ApplyStep(b.mem, mat.AsStep())[c] else b.mem[c]
  {
    hide Move, ApplyStep, Restrict, Value;
    var fl := Flight(mat, Restrict(b.mem, mat.acts), map[], {});
    var fetches := FetchAll(b.mem, fl, mat.weights);
    var here := Move(b.mem, fl, fetches).1;
    var lands, done := LandAll(b.mem, here, part);
    MoveJoins(b.mem, fl, fetches, lands);
    var es := fetches + lands;
    SameKeys(b.mem, mat);
    o := (t: nat) => es;
    forall c | c in part
      ensures c in b.mem && c in ApplyStep(b.mem, mat.AsStep())
      ensures Value(here, c) == ApplyStep(b.mem, mat.AsStep())[c]
    {
      LandedValue(b.mem, here, c);
    }
  }

  lemma SameKeys(m: Memory, mat: Mat)
    requires mat.Ok(m.Keys)
    ensures ApplyStep(m, mat.AsStep()).Keys == m.Keys
  {
  }

  lemma LandedValue(m: Memory, fl: Flight, c: Cell)
    requires fl.mat.Ok(m.Keys) && c in fl.mat.Dst() && fl.fetched == map w | w in fl.mat.weights :: m[w]
    requires fl.acts == Restrict(m, fl.mat.acts)
    ensures c in m && c in ApplyStep(m, fl.mat.AsStep()) && Value(fl, c) == ApplyStep(m, fl.mat.AsStep())[c]
  {
    var mat := fl.mat;
    var r := Restrict(m, mat.acts + mat.weights);
    assert Restrict(r, mat.acts) == Restrict(m, mat.acts);
    assert Restrict(r, mat.deps(c)) == Restrict(fl.fetched, mat.deps(c));
  }
}

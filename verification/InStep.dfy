/**
 When a shared connection answers every plan: exactly when nothing is left over from an
 earlier frame (InStepIff). Plans of at most three tiles already tell, and of at most two
 do not (TwoTilesMayPass).

 A telling plan is one run whose only result stands at its very end, in two versions that
 differ in the last descriptor alone, so whatever a left-over frame made the streamer send
 before cannot answer both. The only way to answer both is to end a batch with the plan's
 last descriptor; a batch can end in two places, and the plans have three lengths.
 */
module InStep {
  import opened Common
  import opened Chip
  import opened Protocol
  import opened Firmware
  import opened Link

  predicate HeadedPlan(ops: seq<Tile>)
  {
    0 < |ops| < 0x1_0000_0000 && ops[0].starts && forall t <- ops :: t.OnWire()
  }

  /** The bytes a caller reads after sending its plan are its plan's reply. */
  predicate Answered(w: Wire, ops: seq<Tile>)
  {
    var r, own := Feed(w, Frame(ops)).replies, PlanReply(w.s, ops);
    |own| <= |r| && r[..|own|] == own
  }

  // ----- plans that tell -----

  /** The first k tiles of a run, all zeros. */
  function Front(k: nat): (ts: seq<Tile>)
    ensures |ts| == k
  {
    seq(k, i => Tile(0, 0, 0, 0, 0, 0, i == 0, false))
  }

  function Tail(v: int, starts: bool): Tile
  {
    Tile(0, 0, v, 0, 0, 0, starts, true)
  }

  function Telling(k: nat, v: int): seq<Tile>
  {
    Front(k) + [Tail(v, k == 0)]
  }

  lemma {:induction false} FrontZero(k: nat, row: nat)
    ensures AccAfter(0, Front(k), k, row) == 0 && PromisedReply(0, 0, Front(k), k) == []
  {
    hide AccAfter, PromisedReply, Front, TileDot, Wrap16, PsumBytes;
    if k == 0 {
      NoFront(row);
    } else {
      var t := Tile(0, 0, 0, 0, 0, 0, k == 1, false);
      FrontSnoc(k);
      FrontZero(k - 1, row);
      ZeroDot(k == 1, row);
      WrapId(0);
      AccSnoc(0, Front(k - 1), t, row);
      PromisedSnoc(0, 0, Front(k - 1), t);
    }
  }

  lemma NoFront(row: nat)
    ensures AccAfter(0, Front(0), 0, row) == 0 && PromisedReply(0, 0, Front(0), 0) == []
  {
  }

  lemma FrontSnoc(k: nat)
    requires k > 0
    ensures Front(k) == Front(k - 1) + [Tile(0, 0, 0, 0, 0, 0, k == 1, false)]
  {
  }

  lemma ZeroDot(starts: bool, row: nat)
    ensures TileDot(Tile(0, 0, 0, 0, 0, 0, starts, false), row) == 0
    ensures Tile(0, 0, 0, 0, 0, 0, starts, false).Seed(row) == 0
  {
  }

  /** The reply of a telling plan opens with its own byte. */
  lemma TellingReply(s: State, k: nat, v: int)
    requires k < 3 && (v == 1 || v == 2)
    ensures HeadedPlan(Telling(k, v)) && |Telling(k, v)| == k + 1
    ensures |PlanReply(s, Telling(k, v))| == 4 && PlanReply(s, Telling(k, v))[0] == 256 - v
  {
    hide PlanReply, AccAfter, PromisedReply, Front, PsumBytes, Wrap16, TileDot, HeadedPlan;
    var front, t := Front(k), Tail(v, k == 0);
    TellingHeaded(k, v);
    HeadedPlanLaw(s, Telling(k, v));
    FrontZero(k, 0);
    FrontZero(k, 1);
    AccSnoc(0, front, t, 0);
    AccSnoc(0, front, t, 1);
    PromisedSnoc(0, 0, front, t);
    WrapId(-v);
    TellingByte(v, k == 0);
  }

  lemma TellingByte(v: int, starts: bool)
    requires v == 1 || v == 2
    ensures |PsumBytes(-v, -v)| == 4 && PsumBytes(-v, -v)[0] == 256 - v
    ensures TileDot(Tail(v, starts), 0) == TileDot(Tail(v, starts), 1) == -v
  {
  }

  lemma TellingHeaded(k: nat, v: int)
    requires k < 3 && (v == 1 || v == 2)
    ensures HeadedPlan(Telling(k, v)) && forall t <- Telling(k, v) :: t.Valid()
  {
    var ops := Telling(k, v);
    forall t | t in ops ensures t.OnWire() {
      var i :| 0 <= i < |ops| && ops[i] == t;
    }
  }

  /** All but the last descriptor of a telling frame. */
  function Opening(k: nat): (x: seq<byte>)
    ensures |x| == 5 + 3 * k && x[0] == MODE_M
  {
    [MODE_M] + LeBytes(k + 1, 4) + Encoded(Front(k))
  }

  function Last(k: nat, v: int): seq<byte>
  {
    Descriptor(Tail(v, k == 0))
  }

  lemma TellingFrame(k: nat, v: int)
    ensures Frame(Telling(k, v)) == Opening(k) + Last(k, v)
  {
    hide LeBytes, Descriptor, Front;
    EncodedSnoc(Front(k), Tail(v, k == 0));
  }

  lemma EncodedSnoc(ops: seq<Tile>, t: Tile)
    ensures Encoded(ops + [t]) == Encoded(ops) + Descriptor(t)
  {
    hide Descriptor;
    assert (ops + [t])[..|ops|] == ops;
  }

  // ----- bytes no frame begins with -----

  predicate DullByte(b: byte)
  {
    b != MODE_M && b != MODE_X && !Elsewhere(b)
  }

  predicate Dull(bs: seq<byte>)
  {
    forall b <- bs :: DullByte(b)
  }

  lemma {:induction false} FrontDull(k: nat)
    ensures Dull(Encoded(Front(k)))
  {
    if k > 0 {
      var t := Tile(0, 0, 0, 0, 0, 0, k == 1, false);
      FrontSnoc(k);
      FrontDull(k - 1);
      EncodedSnoc(Front(k - 1), t);
      hide Encoded;
      assert Dull(Descriptor(t));
    }
  }

  lemma OpeningDull(k: nat, i: nat)
    requires k < 3 && 1 <= i <= |Opening(k)|
    ensures Dull(Opening(k)[i..])
  {
    hide Encoded, DullByte, Front, LeBytes;
    FrontDull(k);
    CountBytes(k + 1);
    var x := LeBytes(k + 1, 4) + Encoded(Front(k));
    assert Opening(k) == [MODE_M] + x;
    assert Opening(k)[i..] == x[i - 1..];
  }

  lemma CountBytes(n: nat)
    requires n < 4
    ensures LeBytes(n, 4) == [n, 0, 0, 0] && Dull(LeBytes(n, 4))
  {
    assert LeBytes(n, 4) == [n] + LeBytes(0, 3);
    assert LeBytes(0, 3) == [0] + LeBytes(0, 2);
    assert LeBytes(0, 2) == [0] + LeBytes(0, 1);
    assert LeBytes(0, 1) == [0] + LeBytes(0, 0);
  }

  lemma LastBytes(k: nat, v: int)
    requires v == 1 || v == 2
    ensures |Last(k, v)| == 3 && Last(k, v)[0] == v && Last(k, v)[1] == 0 && Dull(Last(k, v))
  {
  }

  lemma DullJoin(a: seq<byte>, b: seq<byte>)
    requires Dull(a) && Dull(b)
    ensures Dull(a + b)
  {
    hide DullByte;
  }

  /** Dull bytes at a frame boundary are skipped without a reply. */
  lemma {:induction false} DullPump(w: Wire)
    requires w.at == Header && Dull(w.unread)
    ensures Pump(w).at == Header && Dull(Pump(w).unread) && Pump(w).replies == w.replies
    decreases |w.unread|
  {
    hide Pump;
    PumpTurn(w);
    if |w.unread| >= 5 {
      assert w.unread[0] in w.unread;
      DullPump(Turn(w).value);
    }
  }

  // ----- the last descriptor -----

  /** The two versions of a frame are answered alike up to the first byte, if at all. */
  predicate SameStart(x: seq<byte>, y: seq<byte>)
  {
    if x == [] then y == [] else y != [] && x[0] == y[0]
  }

  /** Where the loop waits, the last descriptor makes no difference to the first reply byte. */
  predicate LastIsMute(z: Wire, k: nat)
  {
    SameStart(Feed(z, Last(k, 1)).replies, Feed(z, Last(k, 2)).replies)
  }

  /** Then one of the two versions is not answered. */
  lemma Mute(w: Wire, k: nat) returns (v: int)
    requires k < 3 && LastIsMute(Feed(w, Opening(k)), k)
    ensures (v == 1 || v == 2) && !Answered(w, Telling(k, v))
  {
    hide Pump, Feed, PlanReply, Opening, Telling, Last, Frame;
    var z := Feed(w, Opening(k));
    var r := Feed(z, Last(k, 1)).replies;
    v := if r != [] && r[0] == 255 then 2 else 1;
    TellingReply(w.s, k, v);
    TellingFrame(k, v);
    FeedConcat(w, Opening(k), Last(k, v));
  }

  lemma RepliedAlready(z: Wire, k: nat)
    requires z.replies != []
    ensures LastIsMute(z, k)
  {
    hide Pump, Last;
  }

  lemma DullAhead(z: Wire, k: nat)
    requires z.at == Header && Dull(z.unread)
    ensures LastIsMute(z, k)
  {
    hide Pump, Dull, Last;
    LastBytes(k, 1);
    LastBytes(k, 2);
    DullJoin(z.unread, Last(k, 1));
    DullJoin(z.unread, Last(k, 2));
    DullPump(z.With(Last(k, 1)));
    DullPump(z.With(Last(k, 2)));
  }

  /** Bytes that leave the loop waiting bring no reply. */
  lemma StillWaits(z: Wire, more: seq<byte>)
    requires Turn(z.With(more)).None?
    ensures Feed(z, more).replies == z.replies
  {
    hide Turn;
    PumpTurn(z.With(more));
  }

  // ----- left inside an 'X' body, in another mode, or inside a header -----

  lemma AwayMute(w: Wire, k: nat)
    requires w.at.Away?
    ensures LastIsMute(Feed(w, Opening(k)), k)
  {
    hide Last, Opening;
    PumpTurn(w.With(Opening(k)));
    PumpTurn(w.With(Opening(k)).With(Last(k, 1)));
    PumpTurn(w.With(Opening(k)).With(Last(k, 2)));
  }

  /** In an 'X' body the first reply byte answers a pair that stands before the last descriptor. */
  lemma RawMute(w: Wire, v: int) returns (c: Option<byte>)
    requires w.at.Raw? && w.at.left > 0 && w.replies == [] && (v == 1 || v == 2)
    ensures var u := w.unread + Opening(0);
      c == if |u| + 3 < 2 * Batch(w.at.left, 64) then None
           else Some(Output(Step(w.s, Cycle(u[0], u[1])), Cycle(u[0], u[1])))
    ensures var r := Feed(w, Opening(0) + Last(0, v)).replies;
      if c.None? then r == [] else r != [] && r[0] == c.value
  {
    hide Pump, Opening, Last, Step, Output, After;
    LastBytes(0, v);
    var x := w.With(Opening(0) + Last(0, v));
    var n := Batch(w.at.left, 64);
    PumpTurn(x);
    if |x.unread| < 2 * n {
      c := None;
    } else {
      var cs := Pairs(x.unread, n);
      FirstOutput(w.s, cs);
      assert x.unread[0] == (w.unread + Opening(0))[0] && x.unread[1] == (w.unread + Opening(0))[1];
      c := Some(Output(Step(w.s, cs[0]), cs[0]));
      var y := Turn(x).value;
      assert y.replies <= Pump(y).replies;
    }
  }

  lemma {:induction false} FirstOutput(s: State, cs: seq<Cycle>)
    requires cs != []
    ensures Outputs(s, cs)[0] == Output(Step(s, cs[0]), cs[0])
  {
    hide Step, Output, After, Outputs;
    var x, y := cs[..1], cs[1..];
    assert cs == x + y && x == [cs[0]];
    AfterConcat(s, x, y);
    AfterOne(s, cs[0]);
  }

  /** A header cut short takes its count from the opening: no body of that size fits, or none follows. */
  lemma HeaderSilent(w: Wire, v: int)
    requires w.at == Header && 0 < |w.unread| < 5 && w.replies == [] && (v == 1 || v == 2)
    ensures Feed(w, Opening(0) + Last(0, v)).replies == []
  {
    hide Pump, FromLe, Opening, Last, Dull;
    LastBytes(0, v);
    var x := w.With(Opening(0) + Last(0, v));
    PumpTurn(x);
    var h := Turn(x).value;
    var i := 5 - |w.unread|;
    assert h.unread == Opening(0)[i..] + Last(0, v);
    CountAbove(x.unread, |w.unread|);
    if h.at == Header {
      OpeningDull(0, i);
      DullJoin(Opening(0)[i..], Last(0, v));
      DullPump(h);
    } else {
      PumpTurn(h);
    }
  }

  /** A count with the mode byte among its digits is at least that byte. */
  lemma CountAbove(b: seq<byte>, i: nat)
    requires |b| >= 5 && 1 <= i < 5 && b[i] == MODE_M
    ensures FromLe(b[1..5]) >= MODE_M
  {
    var c := b[1..5];
    assert c[i - 1] == MODE_M;
  }

  // ----- left inside an 'M' body -----

  /**
   Inside an 'M' body, unless the last descriptor ends the batch, the tiles of the batch that
   end a run all stand before it.
   */
  lemma MacroMute(z: Wire, k: nat)
    requires z.at.Macro? && z.at.left > 0 && |z.unread| < 3 * Batch(z.at.left, 32)
    requires |z.unread| + 3 != 3 * Batch(z.at.left, 32)
    ensures LastIsMute(z, k)
  {
    hide Pump;
    if z.replies != [] {
      RepliedAlready(z, k);
    } else if |z.unread| + 3 < 3 * Batch(z.at.left, 32) {
      LastBytes(k, 1);
      LastBytes(k, 2);
      hide Last;
      StillWaits(z, Last(k, 1));
      StillWaits(z, Last(k, 2));
    } else {
      var n := Batch(z.at.left, 32);
      BatchReply(z, k, 1, n);
      BatchReply(z, k, 2, n);
    }
  }

  /** The batch's reply is that of its tiles before the last descriptor's bytes. */
  lemma BatchReply(z: Wire, k: nat, v: int, n: nat)
    requires z.at.Macro? && n == Batch(z.at.left, 32) > 0 && z.replies == [] && (v == 1 || v == 2)
    requires 3 * n - 3 < |z.unread| < 3 * n
    ensures Feed(z, Last(k, v)).replies == PlanReply(z.s, Tiles(z.unread, n - 1))
  {
    hide Pump, PlanReply, PlanCycles, After, Last, FromDescriptor, Dull;
    LastBytes(k, v);
    var x := z.With(Last(k, v));
    PumpTurn(x);
    var front, t := Tiles(z.unread, n - 1), Tiles(x.unread, n)[n - 1];
    assert Tiles(x.unread, n) == front + [t];
    LastTileRuns(x.unread, n);
    PlanSnoc(z.s, front, t);
    var y := Turn(x).value;
    assert y.replies == PlanReply(z.s, front);
    assert y.unread == Last(k, v)[3 * n - |z.unread|..];
    DullTail(Last(k, v), 3 * n - |z.unread|);
    AfterBatch(y);
  }

  lemma DullTail(bs: seq<byte>, i: nat)
    requires Dull(bs) && i <= |bs|
    ensures Dull(bs[i..])
  {
    hide DullByte;
  }

  /** A packed byte below 32 ends no run. */
  lemma LastTileRuns(b: seq<byte>, n: nat)
    requires n > 0 && 3 * n <= |b| && b[3 * n - 1] < 32
    ensures !Tiles(b, n)[n - 1].ends
  {
    assert 3 * (n - 1) + 2 == 3 * n - 1;
  }

  /** After the batch the few bytes left bring no reply. */
  lemma AfterBatch(y: Wire)
    requires y.at.Macro? && |y.unread| < 3 && Dull(y.unread)
    ensures Pump(y).replies == y.replies
  {
    hide Pump, Dull;
    PumpTurn(y);
    if y.at.left == 0 {
      DullPump(Turn(y).value);
    }
  }

  /** The body's end falls inside the opening: the rest of it is skipped. */
  lemma EndsInside(w: Wire, k: nat)
    requires k < 3 && w.at.Macro? && |w.unread| < 3 * w.at.left <= |w.unread| + 5 + 3 * k
    ensures LastIsMute(Feed(w, Opening(k)), k)
  {
    hide Pump, PlanReply, PlanCycles, After, Tiles, Opening, Dull, LastIsMute;
    var u, left := w.With(Opening(k)), w.at.left;
    MacroServes(u, left);
    var ts := Tiles(u.unread, left);
    var v := Wire(After(u.s, PlanCycles(ts)), u.log + PlanCycles(ts), Header, u.unread[3 * left..],
                  u.replies + PlanReply(u.s, ts));
    assert v.unread == Opening(k)[3 * left - |w.unread|..];
    OpeningDull(k, 3 * left - |w.unread|);
    DullPump(v);
    DullAhead(Feed(w, Opening(k)), k);
  }

  /** A plan whose last byte ends no batch is answered in one version at most. */
  lemma MacroMisled(w: Wire, k: nat)
    requires k < 3 && w.at.Macro? && Turn(w).None?
    requires |w.unread| + 8 + 3 * k != 3 * w.at.left && |w.unread| + 8 + 3 * k != 3 * Batch(w.at.left, 32)
    ensures LastIsMute(Feed(w, Opening(k)), k)
  {
    hide Pump, PlanReply, PlanCycles, After, Opening, LastIsMute;
    var left, n, u := w.at.left, Batch(w.at.left, 32), w.With(Opening(k));
    PumpTurn(u);
    if 3 * left <= |u.unread| {
      EndsInside(w, k);
    } else if 3 * n <= |u.unread| {
      var z := Turn(u).value;
      PumpTurn(z);
      MacroMute(z, k);
    } else {
      MacroMute(u, k);
    }
  }

  // ----- the theorem -----

  /** Some plan of at most three tiles does not get its own answer. */
  lemma Misled(w: Wire) returns (ops: seq<Tile>)
    requires Turn(w).None? && !w.InStep()
    ensures HeadedPlan(ops) && |ops| <= 3 && !Answered(w, ops)
  {
    hide Pump, Feed, PlanReply, Opening, Telling, Last, LastIsMute, Answered, HeadedPlan;
    var k: nat := if w.at.Macro? then FreeLength(w) else 0;
    if w.replies != [] {
      RepliesKept(w, k);
    } else {
      match w.at
      case Macro(_) => MacroMisled(w, k);
      case Away => AwayMute(w, k);
      case Raw(_) =>
        var c := RawMute(w, 1);
        var d := RawMute(w, 2);
        FeedBoth(w);
      case Header =>
        HeaderSilent(w, 1);
        HeaderSilent(w, 2);
        FeedBoth(w);
    }
    var v := Mute(w, k);
    TellingReply(w.s, k, v);
    ops := Telling(k, v);
  }

  /** Of three lengths one ends at neither of two places. */
  function FreeLength(w: Wire): (k: nat)
    requires w.at.Macro?
    ensures k < 3
    ensures |w.unread| + 8 + 3 * k != 3 * w.at.left && |w.unread| + 8 + 3 * k != 3 * Batch(w.at.left, 32)
  {
    var a, b := 3 * w.at.left - |w.unread| - 8, 3 * Batch(w.at.left, 32) - |w.unread| - 8;
    if a != 0 && b != 0 then 0 else if a != 3 && b != 3 then 1 else 2
  }

  lemma RepliesKept(w: Wire, k: nat)
    requires w.replies != []
    ensures LastIsMute(Feed(w, Opening(k)), k)
  {
    hide LastIsMute, Opening;
    assert w.replies <= Feed(w, Opening(k)).replies;
    RepliedAlready(Feed(w, Opening(k)), k);
  }

  lemma FeedBoth(w: Wire)
    requires SameStart(Feed(w, Opening(0) + Last(0, 1)).replies, Feed(w, Opening(0) + Last(0, 2)).replies)
    ensures LastIsMute(Feed(w, Opening(0)), 0)
  {
    hide Feed, Opening, Last;
    FeedConcat(w, Opening(0), Last(0, 1));
    FeedConcat(w, Opening(0), Last(0, 2));
  }

  /** In step every plan gets its own answer. */
  lemma InStepAnswers(w: Wire, ops: seq<Tile>)
    requires w.InStep() && HeadedPlan(ops)
    ensures Answered(w, ops)
  {
    hide Pump, PlanReply, PlanCycles, After, Frame, Encoded, Tiles;
    assert forall t <- ops :: t.Valid();
    FrameServed(w, ops);
    WireRoundTrip(ops);
  }

  /**
   Wherever the loop waits, every plan gets its own answer exactly when nothing is left over,
   and plans of at most three tiles are enough to tell.
   */
  lemma InStepIff(w: Wire)
    requires Turn(w).None?
    ensures w.InStep() ==> forall ops: seq<Tile> :: HeadedPlan(ops) ==> Answered(w, ops)
    ensures w.InStep() <==> forall ops: seq<Tile> :: HeadedPlan(ops) && |ops| <= 3 ==> Answered(w, ops)
  {
    hide Answered, HeadedPlan, Turn;
    if w.InStep() {
      forall ops: seq<Tile> | HeadedPlan(ops) ensures Answered(w, ops) {
        InStepAnswers(w, ops);
      }
    } else {
      var ops := Misled(w);
    }
  }

  // ----- two tiles do not tell -----

  const PENDING: nat := 33
  const TAKEN: nat := 88

  /** Left in an 'M' body of 33 tiles after 88 of its bytes, all zero. */
  function Stuck(s: State): Wire
  {
    Wire(s, [], Macro(PENDING), seq(TAKEN, i => 0), [])
  }

  lemma {:induction false} NoEnds(s: State, ts: seq<Tile>)
    requires forall t <- ts :: !t.ends
    ensures PlanReply(s, ts) == []
  {
    hide TileReply, PlanCycles, After;
    if ts != [] {
      var n := |ts| - 1;
      assert ts[n] in ts;
      NoEnds(s, ts[..n]);
      assert TileReply(After(s, PlanCycles(ts[..n])), ts[n]) == [];
    }
  }

  /** The left-over zeros and the header make 31 tiles that end no run. */
  lemma StuckTiles(s: State, ops: seq<Tile>)
    requires 0 < |ops| <= 2
    ensures var b := Stuck(s).unread + Frame(ops);
      && |b| == 3 * (31 + |ops|) && b[93..] == Encoded(ops)
      && forall t <- Tiles(b, 31) :: !t.ends
  {
    hide Encoded, LeBytes, FromDescriptor;
    var x, b := Stuck(s).unread + [MODE_M], Stuck(s).unread + Frame(ops);
    CountBytes(|ops|);
    assert b == x + ([|ops|, 0, 0, 0] + Encoded(ops));
    SplitHead(x, [|ops|, 0, 0, 0], Encoded(ops));
    forall i | 0 <= i < 31 ensures b[3 * i + 2] < 32 {
      if i < 29 {
        assert b[3 * i + 2] == x[3 * i + 2] == 0;
      }
    }
    QuietTiles(b, 31);
  }

  lemma SplitHead(x: seq<byte>, c: seq<byte>, d: seq<byte>)
    requires |x| == 89 && |c| == 4
    ensures (x + (c + d))[93..] == d
    ensures forall i :: 0 <= i < 4 ==> (x + (c + d))[89 + i] == c[i]
  {
  }

  lemma QuietTiles(b: seq<byte>, n: nat)
    requires 3 * n <= |b| && forall i :: 0 <= i < n ==> b[3 * i + 2] < 32
    ensures forall t <- Tiles(b, n) :: !t.ends
  {
    forall t | t in Tiles(b, n) ensures !t.ends {
      var i :| 0 <= i < n && Tiles(b, n)[i] == t;
      assert b[3 * i + 2] < 32;
    }
  }

  /** What the loop makes of the plan is the plan, behind tiles that reply nothing. */
  lemma StuckReply(s: State, ops: seq<Tile>)
    requires HeadedPlan(ops) && |ops| <= 2
    ensures var b := Stuck(s).unread + Frame(ops);
      3 * (31 + |ops|) == |b| && PlanReply(s, Tiles(b, 31 + |ops|)) == PlanReply(s, ops)
  {
    hide PlanReply, PlanCycles, After, Encoded, Frame, Tiles, Stuck;
    var b := Stuck(s).unread + Frame(ops);
    StuckTiles(s, ops);
    assert forall t <- ops :: t.Valid();
    TilesSplit(b, 31, 31 + |ops|);
    WireRoundTrip(ops);
    var quiet := Tiles(b, 31);
    NoEnds(s, quiet);
    PlanReplyConcat(s, quiet, ops);
    HeadedPlansAgree(After(s, PlanCycles(quiet)), s, ops);
  }

  /** Out of step, and yet every plan of one or two tiles gets its own answer. */
  lemma TwoTilesMayPass(s: State)
    ensures Turn(Stuck(s)).None? && !Stuck(s).InStep()
    ensures forall ops: seq<Tile> :: HeadedPlan(ops) && |ops| <= 2 ==> Answered(Stuck(s), ops)
  {
    forall ops: seq<Tile> | HeadedPlan(ops) && |ops| <= 2 ensures Answered(Stuck(s), ops) {
      StuckAnswers(s, ops);
    }
  }

  lemma StuckAnswers(s: State, ops: seq<Tile>)
    requires HeadedPlan(ops) && |ops| <= 2
    ensures Answered(Stuck(s), ops)
  {
    hide Pump, PlanReply, PlanCycles, After, Tiles, Frame;
    StuckReply(s, ops);
    var w := Stuck(s);
    var x := w.With(Frame(ops));
    if |ops| == 1 {
      PumpTurn(x);
      var y := Turn(x).value;
      PumpTurn(y);
      assert y.replies <= Pump(y).replies;
    } else {
      MacroServes(x, PENDING);
    }
  }
}

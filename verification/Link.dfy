/**
 The USB link: the streamer's frame loop as a machine on the bytes it has been sent, and
 the connection all transports of a process share.

 A frame is five header bytes and a body. The loop has no way to find a frame boundary
 again, so a transfer that fails in the middle leaves bytes that the next frame runs into.
 InStep says nothing is left over; InStepIff shows that this is exactly when every plan
 gets its own answer.
 */
module Link {
  import opened Common
  import opened Chip
  import opened Protocol
  import opened Firmware

  const MODE_M: byte := 77
  const MODE_X: byte := 88

  /** Reset pins ('a', 'd'), boot ('B'), flash write ('F') and loader ('L'). */
  predicate Elsewhere(m: byte)
  {
    m == 97 || m == 100 || m == 66 || m == 70 || m == 76
  }

  function FromLe(b: seq<byte>): nat
    requires |b| == 4
  {
    b[0] + 256 * (b[1] as int) + 65536 * (b[2] as int) + 16777216 * (b[3] as int)
  }

  lemma NatOfLe(n: nat)
    requires n < 0x1_0000_0000
    ensures FromLe(LeBytes(n, 4)) == n
  {
    var a, b, c := n / 256, n / 65536, n / 16777216;
    assert n == 256 * a + n % 256;
    assert a == 256 * b + a % 256 && b == a / 256;
    assert b == 256 * c + b % 256 && c == b / 256;
    assert c < 256;
  }

  // ----- the frame loop -----

  /** Where the loop stands: before a header, inside a body, or in a mode not followed here. */
  datatype Mode = Header | Macro(left: nat) | Raw(left: nat) | Away
  {
    function Rank(): nat
    {
      if Header? then 0 else 1
    }
  }

  /** The chip, what was put on it, the loop's place, bytes not yet taken, replies not yet read. */
  datatype Wire = Wire(s: State, log: seq<Cycle>, at: Mode, unread: seq<byte>, replies: seq<byte>)
  {
    function With(more: seq<byte>): Wire
    {
      this.(unread := unread + more)
    }

    /** Nothing is left over from an earlier frame. */
    predicate InStep()
    {
      at == Header && unread == [] && replies == []
    }
  }

  function ModeOf(m: byte, n: nat): Mode
  {
    if m == MODE_M then Macro(n)
    else if m == MODE_X then Raw(n)
    else if Elsewhere(m) then Away
    else Header
  }

  function Batch(left: nat, most: nat): nat
  {
    if left < most then left else most
  }

  predicate Smaller(v: Wire, w: Wire)
  {
    |v.unread| < |w.unread| || (|v.unread| == |w.unread| && v.at.Rank() < w.at.Rank())
  }

  /** One turn of the loop, if the bytes it waits for are there. */
  function Turn(w: Wire): (r: Option<Wire>)
    ensures r.Some? ==> Smaller(r.value, w)
    ensures r.Some? ==> w.replies <= r.value.replies && w.log <= r.value.log
  {
    hide PlanCycles, PlanReply, Outputs, After;
    match w.at
    case Away => None
    case Header =>
      if |w.unread| < 5 then None
      else Some(w.(at := ModeOf(w.unread[0], FromLe(w.unread[1..5])), unread := w.unread[5..]))
    case Macro(left) =>
      if left == 0 then Some(w.(at := Header))
      else
        var n := Batch(left, 32);
        if |w.unread| < 3 * n then None
        else
          var cs := PlanCycles(Tiles(w.unread, n));
          Some(Wire(After(w.s, cs), w.log + cs, Macro(left - n), w.unread[3 * n..],
                    w.replies + PlanReply(w.s, Tiles(w.unread, n))))
    case Raw(left) =>
      if left == 0 then Some(w.(at := Header))
      else
        var n := Batch(left, 64);
        if |w.unread| < 2 * n then None
        else
          var cs := Pairs(w.unread, n);
          Some(Wire(After(w.s, cs), w.log + cs, Raw(left - n), w.unread[2 * n..], w.replies + Outputs(w.s, cs)))
  }

  /** The loop runs until it waits for bytes. */
  function Pump(w: Wire): (r: Wire)
    ensures w.replies <= r.replies && w.log <= r.log
    decreases |w.unread|, w.at.Rank()
  {
    hide Turn;
    if Turn(w).None? then w else Pump(Turn(w).value)
  }

  function Feed(w: Wire, bytes: seq<byte>): Wire
  {
    Pump(w.With(bytes))
  }

  /** Later bytes do not change the turn taken on the earlier ones. */
  lemma TurnMore(w: Wire, more: seq<byte>)
    requires Turn(w).Some?
    ensures Turn(w.With(more)) == Some(Turn(w).value.With(more))
  {
    hide PlanCycles, PlanReply, Outputs, After;
    var v := w.With(more);
    match w.at
    case Header =>
      assert v.unread[1..5] == w.unread[1..5] && v.unread[5..] == w.unread[5..] + more;
    case Macro(left) =>
      var n := Batch(left, 32);
      if left > 0 {
        assert Tiles(v.unread, n) == Tiles(w.unread, n);
        assert v.unread[3 * n..] == w.unread[3 * n..] + more;
      }
    case Raw(left) =>
      var n := Batch(left, 64);
      if left > 0 {
        assert Pairs(v.unread, n) == Pairs(w.unread, n);
        assert v.unread[2 * n..] == w.unread[2 * n..] + more;
      }
  }

  /** What the loop did on the first bytes, it did before the later ones came. */
  lemma {:induction false} PumpMore(w: Wire, more: seq<byte>)
    ensures Pump(w.With(more)) == Pump(Pump(w).With(more))
    decreases |w.unread|, w.at.Rank()
  {
    hide Turn;
    if Turn(w).Some? {
      TurnMore(w, more);
      PumpMore(Turn(w).value, more);
    }
  }

  /** Bytes sent in two parts are the bytes sent at once. */
  lemma FeedConcat(w: Wire, x: seq<byte>, y: seq<byte>)
    ensures Feed(w, x + y) == Feed(Feed(w, x), y)
  {
    hide Pump;
    PumpMore(w.With(x), y);
    assert (w.unread + x) + y == w.unread + (x + y);
  }

  /** Replies nobody has read yet change nothing but what stands before the next ones. */
  lemma {:induction false} PumpReplies(w: Wire, first: seq<byte>)
    ensures Pump(w.(replies := first + w.replies)) == Pump(w).(replies := first + Pump(w).replies)
    decreases |w.unread|, w.at.Rank()
  {
    hide Turn;
    TurnReplies(w, first);
    if Turn(w).Some? {
      PumpReplies(Turn(w).value, first);
    }
  }

  lemma TurnReplies(w: Wire, first: seq<byte>)
    ensures var v := w.(replies := first + w.replies);
      Turn(v) == if Turn(w).None? then None else Some(Turn(w).value.(replies := first + Turn(w).value.replies))
  {
    hide PlanCycles, PlanReply, Outputs, After;
    match w.at
    case Away =>
    case Header =>
    case Macro(left) =>
      var n := Batch(left, 32);
      if 3 * n <= |w.unread| {
        Assoc(first, w.replies, PlanReply(w.s, Tiles(w.unread, n)));
      }
    case Raw(left) =>
      var n := Batch(left, 64);
      if 2 * n <= |w.unread| {
        Assoc(first, w.replies, Outputs(w.s, Pairs(w.unread, n)));
      }
  }

  // ----- one whole frame -----

  /** An 'M' frame: the mode, the tile count and the descriptors. */
  function Frame(ops: seq<Tile>): (tx: seq<byte>)
    ensures |tx| == 5 + 3 * |ops|
  {
    [MODE_M] + LeBytes(|ops|, 4) + Encoded(ops)
  }

  /** A macro body is served batch by batch as the plan it encodes. */
  lemma {:induction false} MacroServes(w: Wire, left: nat)
    requires w.at == Macro(left) && |w.unread| >= 3 * left
    ensures var ts := Tiles(w.unread, left);
      Pump(w) == Pump(Wire(After(w.s, PlanCycles(ts)), w.log + PlanCycles(ts), Header, w.unread[3 * left..],
                           w.replies + PlanReply(w.s, ts)))
    decreases left
  {
    hide Pump, PlanCycles, PlanReply, After, Outputs;
    var ts := Tiles(w.unread, left);
    PumpTurn(w);
    NothingSent(w.s);
    if left == 0 {
      assert ts == [];
      assert w.unread[0..] == w.unread && w.log + [] == w.log && w.replies + [] == w.replies;
    } else {
      var n := Batch(left, 32);
      var v := Turn(w).value;
      var now, rest := Tiles(w.unread, n), Tiles(v.unread, left - n);
      MacroServes(v, left - n);
      TilesSplit(w.unread, n, left);
      PlanReplyConcat(w.s, now, rest);
      PlanCyclesConcat(now, rest);
      AfterConcat(w.s, PlanCycles(now), PlanCycles(rest));
      Assoc(w.log, PlanCycles(now), PlanCycles(rest));
      Assoc(w.replies, PlanReply(w.s, now), PlanReply(v.s, rest));
      assert v.unread[3 * (left - n)..] == w.unread[3 * left..];
    }
  }

  lemma PumpTurn(w: Wire)
    ensures Turn(w).Some? ==> Pump(w) == Pump(Turn(w).value)
    ensures Turn(w).None? ==> Pump(w) == w
  {
    hide Turn;
  }

  lemma TilesSplit(b: seq<byte>, n: nat, m: nat)
    requires n <= m && 3 * m <= |b|
    ensures Tiles(b, m) == Tiles(b, n) + Tiles(b[3 * n..], m - n)
  {
    hide FromDescriptor;
    var x, y := Tiles(b, m), Tiles(b, n) + Tiles(b[3 * n..], m - n);
    forall i | 0 <= i < m ensures x[i] == y[i] {
      if i >= n {
        var c := b[3 * n..];
        assert c[3 * (i - n)] == b[3 * i] && c[3 * (i - n) + 1] == b[3 * i + 1] && c[3 * (i - n) + 2] == b[3 * i + 2];
      }
    }
  }

  /** In step, a frame is answered with its plan's reply and nothing is left over. */
  lemma FrameServed(w: Wire, ops: seq<Tile>)
    requires w.InStep() && |ops| < 0x1_0000_0000 && forall t <- ops :: t.Valid()
    ensures var ws := WirePlan(ops);
      Feed(w, Frame(ops)) ==
      Wire(After(w.s, PlanCycles(ws)), w.log + PlanCycles(ws), Header, [], PlanReply(w.s, ws))
  {
    hide Pump, PlanCycles, PlanReply, After, Encoded, LeBytes, FromLe, Tiles, WirePlan;
    var tx, n := Frame(ops), |ops|;
    var v := w.With(tx);
    assert v.unread == tx && tx[1..5] == LeBytes(n, 4) && tx[5..] == Encoded(ops);
    NatOfLe(n);
    PumpTurn(v);
    var u := Turn(v).value;
    assert u.at == Macro(n) && u.unread == Encoded(ops);
    MacroServes(u, n);
    WireRoundTrip(ops);
    assert Encoded(ops)[3 * n..] == [];
    var ws := WirePlan(ops);
    var end := Wire(After(w.s, PlanCycles(ws)), w.log + PlanCycles(ws), Header, [], PlanReply(w.s, ws));
    assert [] + PlanReply(w.s, ws) == PlanReply(w.s, ws);
    PumpTurn(end);
  }

  /** At a frame boundary with replies left over, a frame's reply goes behind them. */
  lemma LeftOverFirst(w: Wire, ops: seq<Tile>)
    requires w.at == Header && w.unread == [] && |ops| < 0x1_0000_0000 && forall t <- ops :: t.Valid()
    ensures Feed(w, Frame(ops)).replies == w.replies + PlanReply(w.s, WirePlan(ops))
  {
    hide Pump, PlanReply, PlanCycles, After, Frame, WirePlan;
    var clean := w.(replies := []);
    FrameServed(clean, ops);
    PumpReplies(clean.With(Frame(ops)), w.replies);
    assert w.replies + [] == w.replies;
  }

  /** An 'X' frame of one pair. */
  function PairFrame(c: Cycle): (tx: seq<byte>)
    ensures |tx| == 7
  {
    [MODE_X] + LeBytes(1, 4) + [c.ui, c.uio]
  }

  lemma PairServed(w: Wire, c: Cycle)
    requires w.InStep()
    ensures Feed(w, PairFrame(c)) == Wire(Step(w.s, c), w.log + [c], Header, [], [Output(Step(w.s, c), c)])
  {
    hide Pump, Step, Output, After, Outputs, LeBytes, FromLe;
    var v := w.With(PairFrame(c));
    NatOfLe(1);
    assert v.unread == PairFrame(c) && v.unread[1..5] == LeBytes(1, 4) && v.unread[5..] == [c.ui, c.uio];
    PumpTurn(v);
    var u := Turn(v).value;
    assert u.at == Raw(1) && Pairs(u.unread, 1) == [c];
    PumpTurn(u);
    AfterOne(w.s, c);
    var t := Turn(u).value;
    assert t == Wire(Step(w.s, c), w.log + [c], Raw(0), [], [Output(Step(w.s, c), c)]);
    PumpTurn(t);
    PumpTurn(t.(at := Header));
  }

  /** A macro body cut short leaves the loop inside it. */
  lemma {:induction false} MacroShort(w: Wire)
    requires w.at.Macro? && |w.unread| < 3 * w.at.left
    ensures Pump(w).at.Macro?
    decreases w.at.left
  {
    hide Pump, PlanCycles, PlanReply, After, Tiles;
    PumpTurn(w);
    if Turn(w).Some? {
      MacroShort(Turn(w).value);
    }
  }

  /** What part of a frame leaves: in step only when it was nothing, or all of a frame without a reply. */
  lemma PartOfFrame(w: Wire, ops: seq<Tile>, k: nat)
    requires w.InStep() && |ops| < 0x1_0000_0000 && (forall t <- ops :: t.Valid()) && k <= |Frame(ops)|
    ensures Feed(w, Frame(ops)[..k]).InStep() <==> k == 0 || (k == |Frame(ops)| && PlanReply(w.s, WirePlan(ops)) == [])
  {
    hide Pump, PlanReply, PlanCycles, After, WirePlan, LeBytes, FromLe, Encoded;
    var part := Frame(ops)[..k];
    var v := w.With(part);
    assert v.unread == part;
    if k == |Frame(ops)| {
      assert part == Frame(ops);
      FrameServed(w, ops);
    } else if k < 5 {
      PumpTurn(v);
    } else {
      PumpTurn(v);
      NatOfLe(|ops|);
      assert part[1..5] == LeBytes(|ops|, 4);
      MacroShort(Turn(v).value);
    }
  }

  // ----- the shared connection -----

  /** How a bulk transfer ends: whole, or failed after some bytes had moved. */
  datatype Outcome = Done | Failed(moved: nat)

  function Moved(n: nat, o: Outcome): (m: nat)
    ensures m <= n
  {
    if o.Done? || o.moved > n then n else o.moved
  }

  class AsicConnection {
    const streamer: Streamer
    var at: Mode
    var unread: seq<byte>
    var replies: seq<byte>

    /** The device was reset when it was opened: nothing is left over. */
    constructor (st: Streamer)
      ensures streamer == st && Now() == Wire(st.port.s, st.port.log, Header, [], [])
      ensures st.port.Valid() ==> Valid()
    {
      streamer, at, unread, replies := st, Header, [], [];
    }

    ghost function Now(): Wire
      reads this, streamer.port
    {
      Wire(streamer.port.s, streamer.port.log, at, unread, replies)
    }

    predicate InStep()
      reads this
    {
      at == Header && unread == [] && replies == []
    }

    /** Between calls the streamer waits for bytes. */
    ghost predicate Valid()
      reads this, streamer.port
    {
      streamer.port.Valid() && Turn(Now()).None?
    }

    /** One turn of the streamer's loop. */
    method RunTurn() returns (moved: bool)
      requires streamer.port.Valid()
      modifies this, streamer.port
      ensures streamer.port.Valid() && streamer.port.origin == old(streamer.port.origin)
      ensures moved == Turn(old(Now())).Some?
      ensures Now() == if moved then Turn(old(Now())).value else old(Now())
    {
      hide PlanCycles, PlanReply, Outputs, After;
      moved := true;
      ghost var log := streamer.port.log;
      match at
      case Away => moved := false;
      case Header =>
        if |unread| < 5 {
          moved := false;
        } else {
          at, unread := ModeOf(unread[0], FromLe(unread[1..5])), unread[5..];
        }
      case Macro(left) =>
        var n := Batch(left, 32);
        if left == 0 {
          at := Header;
        } else if |unread| < 3 * n {
          moved := false;
        } else {
          ghost var ts := Tiles(unread, n);
          assert ts[0..0 + n] == ts;
          AfterConcat(streamer.port.origin, log, PlanCycles(ts));
          var out := streamer.BatchM(unread, 0, n, n);
          at, unread, replies := Macro(left - n), unread[3 * n..], replies + out;
        }
      case Raw(left) =>
        var n := Batch(left, 64);
        if left == 0 {
          at := Header;
        } else if |unread| < 2 * n {
          moved := false;
        } else {
          ghost var cs := Pairs(unread, n);
          assert cs[0..0 + n] == cs;
          AfterConcat(streamer.port.origin, log, cs);
          var out := streamer.BatchX(unread, 0, n, n);
          at, unread, replies := Raw(left - n), unread[2 * n..], replies + out;
        }
    }

    /** The streamer takes bytes as they come and goes on until it waits for more. */
    method Deliver(bytes: seq<byte>)
      requires Valid()
      modifies this, streamer.port
      ensures Valid() && streamer.port.origin == old(streamer.port.origin)
      ensures Now() == Feed(old(Now()), bytes)
    {
      hide Turn, Pump;
      unread := unread + bytes;
      ghost var start := Now();
      PumpTurn(Now());
      var moved := RunTurn();
      while moved
        invariant streamer.port.Valid() && streamer.port.origin == old(streamer.port.origin)
        invariant Pump(Now()) == Pump(start)
        invariant !moved ==> Turn(Now()).None?
        decreases |unread|, at.Rank(), moved
      {
        PumpTurn(Now());
        ghost var before := Now();
        moved := RunTurn();
        assert moved ==> Smaller(Now(), before);
      }
      PumpTurn(Now());
    }

    /** bulk_write: all of it, or what had moved when it failed. */
    method BulkWrite(tx: seq<byte>, o: Outcome) returns (ok: bool)
      requires Valid()
      modifies this, streamer.port
      ensures Valid() && streamer.port.origin == old(streamer.port.origin)
      ensures ok == o.Done? && Now() == Feed(old(Now()), tx[..Moved(|tx|, o)])
    {
      Deliver(tx[..Moved(|tx|, o)]);
      ok := o.Done?;
    }

    /** bulk_read: n bytes in order, or a failure that may have taken some of them. */
    method BulkRead(n: nat, o: Outcome) returns (ok: bool, rx: seq<byte>)
      requires Valid()
      modifies this
      ensures Valid()
      ensures ok == (o.Done? && n <= |old(replies)|)
      ensures rx == if ok then old(replies)[..n] else []
      ensures Now() == old(Now()).(replies := old(replies)[Moved(Batch(n, |old(replies)|), o)..])
    {
      hide PlanCycles, PlanReply, Outputs, After;
      var most := Batch(n, |replies|);
      ok := o.Done? && n <= |replies|;
      rx := if ok then replies[..n] else [];
      replies := replies[Moved(most, o)..];
    }
  }
}

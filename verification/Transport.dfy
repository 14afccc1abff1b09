/**
 The host transport: Execute encodes a plan, exchanges one 'M' frame with the
 streamer and decodes the reply, with the error paths that leave it dead.

 ExecuteAnswers ties the decoded outputs to the plan's meaning, and
 InterleavingIsInvisible shows that transports sharing one connection cannot tell
 whether other callers' plans ran between their own. A transfer that fails marks only its
 own transport dead; ReadsTheOthers shows what another one then gets.
 */
module Transport {
  import opened Common
  import opened Chip
  import opened Protocol
  import opened Firmware
  import opened Link

  function SignExtend(raw: nat): int
    requires raw < 65536
  {
    if raw >= 32768 then raw - 65536 else raw
  }

  /** Byte split, reassembly and sign extension lose nothing of a 16-bit psum. */
  lemma DecodedPsum(x: int)
    requires -32768 <= x < 32768
    ensures SignExtend(ByteOf(x, 0) + 256 * ByteOf(x, 1)) == x
  {
    var lo, hi := x % 256, x / 256;
    assert x == 256 * hi + lo;
    if x < 0 {
      assert -128 <= hi < 0 && hi % 256 == hi + 256;
    } else {
      assert 0 <= hi < 128 && hi % 256 == hi;
    }
  }

  /** The psum at a reply position: two little-endian bytes per row. */
  function PsumAt(rx: seq<byte>, pos: nat, row: nat): int
    requires pos + 2 * row + 2 <= |rx|
  {
    SignExtend(rx[pos + 2 * row] + 256 * (rx[pos + 2 * row + 1] as int))
  }

  /** One output slot: zero inside a run, the decoded psum at its tail. */
  function Slot(rx: seq<byte>, ops: seq<Tile>, i: nat, row: nat): int
    requires i < |ops| && row < 2 && 4 * TailCount(ops, i + 1) <= |rx|
  {
    if ops[i].ends then PsumAt(rx, 4 * TailCount(ops, i), row) else 0
  }

  /** Op i's two output slots hold what the reply says. */
  predicate SlotsHold(rx: seq<byte>, ops: seq<Tile>, outputs: seq<int>, i: nat)
    requires i < |ops|
  {
    4 * TailCount(ops, i + 1) <= |rx| && 2 * i + 1 < |outputs|
    && outputs[2 * i] == Slot(rx, ops, i, 0) && outputs[2 * i + 1] == Slot(rx, ops, i, 1)
  }

  lemma {:induction false} TailCountMonotone(ops: seq<Tile>, i: nat, j: nat)
    requires i <= j <= |ops|
    ensures TailCount(ops, i) <= TailCount(ops, j)
  {
    if i < j {
      TailCountMonotone(ops, i, j - 1);
    }
  }

  lemma {:induction false} ReplyLength(s: State, ops: seq<Tile>)
    ensures |PlanReply(s, ops)| == 4 * TailCount(ops, |ops|)
  {
    hide TileReply, PlanCycles, After;
    if ops != [] {
      var init := ops[..|ops| - 1];
      ReplyLength(s, init);
      assert init + [ops[|ops| - 1]] == ops;
      PromisedPrefix(0, 0, init, [ops[|ops| - 1]], |init|);
    }
  }

  lemma WireTails(ops: seq<Tile>, n: nat)
    requires n <= |ops|
    ensures TailCount(WirePlan(ops), n) == TailCount(ops, n)
  {
  }

  /** No command sequence latches the error bit: on this tile no selector is out of range. */
  lemma {:induction false} ErrorNeverRaised(s: State, cs: seq<Cycle>)
    ensures After(s, cs).error ==> s.error
  {
    if cs != [] {
      var last := After(s, cs[..|cs| - 1]);
      ErrorNeverRaised(s, cs[..|cs| - 1]);
      NoErrorPulse(last, cs[|cs| - 1]);
      hide ErrorPulse;
    }
  }

  predicate HasError(st: byte)
  {
    st / 64 % 2 == 1
  }

  /** The error bit is set in the status bytes from 64 to 127 and from 192 up. */
  lemma ErrorBit(st: byte)
    ensures HasError(st) <==> 64 <= st < 128 || 192 <= st
  {
  }

  lemma StatusError(s: State)
    ensures HasError(Status(s)) <==> s.error
  {
    var low := Status(s) - 64 * Weight(s.error);
    assert 0 <= low < 64;
  }

  lemma StatusPoll(s: State, c: Cycle)
    requires c.ui % 8 == CMD_STATUS
    ensures HasError(Output(Step(s, c), c)) <==> s.error
  {
    NoErrorPulse(s, c);
    hide ErrorPulse;
    StatusError(Step(s, c));
  }

  /** Whatever the streamer does, an error bit was there before. */
  lemma LogExtends(origin: State, w: Wire, v: Wire)
    requires w.s == After(origin, w.log) && v.s == After(origin, v.log) && w.log <= v.log
    ensures v.s.error ==> w.s.error
  {
    hide After;
    var cs := v.log[|w.log|..];
    assert v.log == w.log + cs;
    AfterConcat(origin, w.log, cs);
    ErrorNeverRaised(w.s, cs);
  }

  // ----- one exchange -----

  /** How the two bulk transfers of a frame end. */
  datatype Exchange = Exchange(write: Outcome, read: Outcome)
  {
    predicate Good()
    {
      write.Done? && read.Done?
    }
  }

  /** The link after a frame was sent. */
  function AfterWrite(w: Wire, tx: seq<byte>, o: Outcome): Wire
  {
    Feed(w, tx[..Moved(|tx|, o)])
  }

  /** The link after n reply bytes were asked for. */
  function AfterRead(w: Wire, n: nat, o: Outcome): Wire
  {
    w.(replies := w.replies[Moved(Batch(n, |w.replies|), o)..])
  }

  function AfterExchange(w: Wire, tx: seq<byte>, n: nat, e: Exchange): Wire
  {
    var v := AfterWrite(w, tx, e.write);
    if e.write.Done? && n > 0 then AfterRead(v, n, e.read) else v
  }

  /** An exchange keeps a link in step: nothing was sent, or the whole frame was and the whole reply was read. */
  predicate KeepsStep(tx: seq<byte>, n: nat, e: Exchange)
  {
    var sent := Moved(|tx|, e.write);
    sent == 0 || (sent == |tx| && (n == 0 || (e.write.Done? && Moved(n, e.read) == n)))
  }

  function ReplyBytes(ops: seq<Tile>): nat
  {
    4 * TailCount(ops, |ops|)
  }

  /** What an exchange of a whole plan does to a link in step. */
  lemma ExchangeInStep(w: Wire, ops: seq<Tile>, e: Exchange)
    requires w.InStep() && 0 < |ops| < 0x1_0000_0000 && forall t <- ops :: t.Valid()
    ensures var tx, n, ws := Frame(ops), ReplyBytes(ops), WirePlan(ops);
      && (AfterExchange(w, tx, n, e).InStep() <==> KeepsStep(tx, n, e))
      && (e.write.Done? ==>
            var v := AfterWrite(w, tx, e.write);
            v.replies == PlanReply(w.s, ws) && |v.replies| == n && v.log == w.log + PlanCycles(ws)
            && v.at == Header && v.unread == [])
  {
    hide Pump, PlanReply, PlanCycles, After, Frame, TailCount, WirePlan, Feed;
    var tx, n := Frame(ops), ReplyBytes(ops);
    ReplyLength(w.s, WirePlan(ops));
    WireTails(ops, |ops|);
    FrameServed(w, ops);
    PartOfFrame(w, ops, Moved(|tx|, e.write));
    assert tx[..|tx|] == tx;
  }

  /** A live call on any link: it reads the oldest reply bytes. */
  ghost predicate Exchanged(w: Wire, after: Wire, ops: seq<Tile>, e: Exchange, ok: bool, outputs: seq<int>)
  {
    var v := AfterWrite(w, Frame(ops), e.write);
    && after == AfterExchange(w, Frame(ops), ReplyBytes(ops), e)
    && (ok <==> e.write.Done? && (ReplyBytes(ops) > 0 ==> e.read.Done? && ReplyBytes(ops) <= |v.replies|))
    && (ok ==> forall i :: 0 <= i < |ops| ==> SlotsHold(v.replies, ops, outputs, i))
  }

  /** A live call on a link in step: it reads its plan's own reply. */
  ghost predicate ExchangedInStep(w: Wire, after: Wire, ops: seq<Tile>, e: Exchange, ok: bool, outputs: seq<int>)
  {
    && (ok <==> e.write.Done? && (ReplyBytes(ops) > 0 ==> e.read.Done?))
    && (after.InStep() <==> KeepsStep(Frame(ops), ReplyBytes(ops), e))
    && (ok ==> after.InStep() && OwnSlots(w.s, ops, outputs) && after.log == w.log + PlanCycles(WirePlan(ops)))
  }

  class UsbTransport {
    const conn: AsicConnection
    var dead: bool

    constructor (c: AsicConnection, isDead: bool)
      ensures conn == c && dead == isDead
    {
      conn, dead := c, isDead;
    }

    ghost predicate Valid()
      reads this, conn, conn.streamer.port
    {
      conn.Valid()
    }

    /**
     Run a plan; e says how the two bulk transfers end. A call that succeeds decodes the
     oldest reply bytes on the link. In step those are the plan's own, ExecuteAnswers
     gives their meaning, and the link stays in step exactly as KeepsStep says.
     */
    method Execute(ops: seq<Tile>, e: Exchange) returns (ok: bool, outputs: seq<int>)
      requires Valid() && |ops| < 0x1_0000_0000 && forall t <- ops :: t.Valid()
      modifies this, conn, conn.streamer.port
      ensures Valid() && (conn.streamer.port.s.error ==> old(conn.streamer.port.s.error))
      ensures |outputs| == 2 * |ops|
      ensures dead <==> old(dead) || !ok
      ensures !ok ==> forall x <- outputs :: x == 0
      ensures ops == [] ==> ok
      ensures ops == [] || old(dead) ==> conn.Now() == old(conn.Now())
      ensures ops != [] && old(dead) ==> !ok
      ensures ops != [] && !old(dead) ==>
        Exchanged(old(conn.Now()), conn.Now(), ops, e, ok, outputs)
      ensures ops != [] && !old(dead) && old(conn.InStep()) ==>
        ExchangedInStep(old(conn.Now()), conn.Now(), ops, e, ok, outputs)
    {
      hide PlanReply, PlanCycles, After, Tiles, Pump, Feed, Frame, SlotsHold, AfterExchange, AfterWrite, KeepsStep,
        WirePlan;
      outputs := seq(2 * |ops|, _ => 0);
      if ops == [] {
        return true, [];
      }
      if dead {
        return false, outputs;
      }
      ghost var w := conn.Now();
      if conn.InStep() {
        ExchangeInStep(w, ops, e);
      }
      var tx, expected := BuildFrame(ops);
      ok, outputs := Transact(tx, expected, ops, e);
      if !ok {
        dead := true;
      }
      ExchangeGrows(w, tx, expected, e);
      LogExtends(conn.streamer.port.origin, w, conn.Now());
      if ok && w.InStep() {
        KeptWhenDone(tx, expected, e);
      }
    }

    /** The frame of a plan and the reply bytes it asks for. */
    method BuildFrame(ops: seq<Tile>) returns (tx: seq<byte>, expected: nat)
      ensures tx == Frame(ops) && expected == ReplyBytes(ops)
    {
      tx := [MODE_M] + LeBytes(|ops|, 4);
      expected := 0;
      var body: seq<byte> := [];
      for i := 0 to |ops|
        invariant body == Encoded(ops[..i]) && expected == 4 * TailCount(ops, i)
      {
        assert ops[..i + 1][..i] == ops[..i];
        body := body + Descriptor(ops[i]);
        if ops[i].ends {
          expected := expected + 4;
        }
      }
      assert ops[..|ops|] == ops;
      tx := tx + body;
    }

    /** Send the frame, read the reply, decode it; zeros when a transfer fails. */
    method Transact(tx: seq<byte>, expected: nat, ops: seq<Tile>, e: Exchange) returns (ok: bool, outputs: seq<int>)
      requires Valid() && expected == ReplyBytes(ops)
      modifies conn, conn.streamer.port
      ensures Valid() && conn.streamer.port.origin == old(conn.streamer.port.origin)
      ensures |outputs| == 2 * |ops| && (!ok ==> forall x <- outputs :: x == 0)
      ensures conn.Now() == AfterExchange(old(conn.Now()), tx, expected, e)
      ensures var v := AfterWrite(old(conn.Now()), tx, e.write);
        && (ok <==> e.write.Done? && (expected > 0 ==> e.read.Done? && expected <= |v.replies|))
        && (ok ==> forall i :: 0 <= i < |ops| ==> SlotsHold(v.replies, ops, outputs, i))
    {
      hide Pump, Feed, PlanReply, After, SlotsHold;
      outputs := seq(2 * |ops|, _ => 0);
      ok := conn.BulkWrite(tx, e.write);
      if !ok {
        return;
      }
      ghost var v := conn.Now();
      var rx: seq<byte> := [];
      if expected > 0 {
        ok, rx := conn.BulkRead(expected, e.read);
        if !ok {
          return;
        }
      }
      outputs := Decode(rx, ops);
      SlotsOfMore(rx, v.replies, ops, outputs);
    }

    method Decode(rx: seq<byte>, ops: seq<Tile>) returns (outputs: seq<int>)
      requires |rx| == ReplyBytes(ops)
      ensures |outputs| == 2 * |ops|
      ensures forall i :: 0 <= i < |ops| ==> SlotsHold(rx, ops, outputs, i)
    {
      outputs := [];
      var pos := 0;
      for i := 0 to |ops|
        invariant pos == 4 * TailCount(ops, i) && |outputs| == 2 * i
        invariant forall j :: 0 <= j < i ==> SlotsHold(rx, ops, outputs, j)
      {
        TailCountMonotone(ops, i + 1, |ops|);
        ghost var before := outputs;
        if !ops[i].ends {
          outputs := outputs + [0, 0];
        } else {
          outputs := outputs + [PsumAt(rx, pos, 0), PsumAt(rx, pos, 1)];
          pos := pos + 4;
        }
        assert forall j :: 0 <= j < i && SlotsHold(rx, ops, before, j) ==> SlotsHold(rx, ops, outputs, j);
        assert SlotsHold(rx, ops, outputs, i);
      }
    }

    /**
     One STATUS cycle through an 'X' frame; a dead transport reports the error bit without
     asking. In step the byte is this cycle's own.
     */
    method Status(e: Exchange) returns (st: byte)
      requires Valid()
      modifies this, conn, conn.streamer.port
      ensures Valid()
      ensures old(dead) ==> HasError(st)
      ensures old(dead) ==> st == 64 && dead && conn.Now() == old(conn.Now())
      ensures !old(dead) ==>
        var v := AfterWrite(old(conn.Now()), PairFrame(Poll()), e.write);
        && conn.Now() == AfterExchange(old(conn.Now()), PairFrame(Poll()), 1, e)
        && (dead <==> !(e.Good() && v.replies != []))
        && st == if dead then 64 else v.replies[0]
      ensures !old(dead) && old(conn.InStep()) ==>
        && (dead <==> !e.Good())
        && (e.Good() ==> conn.InStep() && conn.streamer.port.log == old(conn.streamer.port.log) + [Poll()]
                         && st == Output(conn.streamer.port.s, Poll()))
        && (HasError(st) <==> !e.Good() || old(conn.streamer.port.s.error))
    {
      hide Step, Output, After, Pump, Feed, PairFrame;
      if dead {
        return 64;
      }
      ghost var w := conn.Now();
      var tx := PairFrame(Poll());
      assert tx[..|tx|] == tx;
      if conn.InStep() {
        PairServed(w, Poll());
        StatusPoll(w.s, Poll());
      }
      var ok := conn.BulkWrite(tx, e.write);
      var rx: seq<byte> := [];
      if ok {
        ok, rx := conn.BulkRead(1, e.read);
      }
      if !ok {
        dead := true;
        return 64;
      }
      return rx[0];
    }
  }

  /** The STATUS command as a cycle. */
  function Poll(): (c: Cycle)
    ensures c.ui % 8 == CMD_STATUS
  {
    Cycle(PackUi(CMD_STATUS, 0), 0)
  }

  /** STATUS is the all-zero command. */
  lemma PollBytes()
    ensures Poll() == Cycle(0, 0)
  {
  }

  /** Every slot holds what the plan's own reply says. */
  predicate OwnSlots(s: State, ops: seq<Tile>, outputs: seq<int>)
  {
    forall i :: 0 <= i < |ops| ==> SlotsHold(PlanReply(s, WirePlan(ops)), ops, outputs, i)
  }

  lemma KeptWhenDone(tx: seq<byte>, n: nat, e: Exchange)
    requires e.write.Done? && (n > 0 ==> e.read.Done?)
    ensures KeepsStep(tx, n, e)
  {
  }

  lemma ExchangeGrows(w: Wire, tx: seq<byte>, n: nat, e: Exchange)
    ensures w.log <= AfterExchange(w, tx, n, e).log == AfterWrite(w, tx, e.write).log
  {
    hide Pump;
  }

  /** A slot reads its own bytes, whatever follows them. */
  lemma SlotsOfMore(rx: seq<byte>, all: seq<byte>, ops: seq<Tile>, outputs: seq<int>)
    requires |rx| == ReplyBytes(ops) && rx <= all && forall i :: 0 <= i < |ops| ==> SlotsHold(rx, ops, outputs, i)
    ensures forall i :: 0 <= i < |ops| ==> SlotsHold(all, ops, outputs, i)
  {
    hide SignExtend;
    forall i | 0 <= i < |ops| ensures SlotsHold(all, ops, outputs, i) {
      assert SlotsHold(rx, ops, outputs, i);
    }
  }

  // ----- two transports on one connection -----

  /** The whole frame went out and its reply was never read. */
  function NoRead(): Exchange
  {
    Exchange(Done, Failed(0))
  }

  function AllDone(): Exchange
  {
    Exchange(Done, Done)
  }

  /** The link after a reply went unread. */
  lemma Unread(w: Wire, ops: seq<Tile>)
    requires w.InStep() && 0 < |ops| < 0x1_0000_0000 && (forall t <- ops :: t.Valid()) && ReplyBytes(ops) > 0
    ensures var v := AfterExchange(w, Frame(ops), ReplyBytes(ops), NoRead());
      && v.replies == PlanReply(w.s, WirePlan(ops)) && |v.replies| == ReplyBytes(ops)
      && v.at == Header && v.unread == []
  {
    hide PlanReply, PlanCycles, After, Frame, WirePlan, TailCount, Feed;
    WholeFrame(w, Frame(ops));
    FrameServed(w, ops);
    ReplyLength(w.s, WirePlan(ops));
    WireTails(ops, |ops|);
    var u := AfterWrite(w, Frame(ops), Done);
    assert u.replies[0..] == u.replies;
  }

  lemma WholeFrame(w: Wire, tx: seq<byte>)
    ensures AfterWrite(w, tx, Done) == Feed(w, tx)
  {
    hide Feed;
    assert tx[..|tx|] == tx;
  }

  /** The next plan's reply stands behind the unread one. */
  lemma Behind(v: Wire, ops: seq<Tile>)
    requires v.at == Header && v.unread == [] && 0 < |ops| < 0x1_0000_0000 && (forall t <- ops :: t.Valid())
    requires 0 < ReplyBytes(ops) <= |v.replies|
    ensures v.replies <= AfterWrite(v, Frame(ops), Done).replies
    ensures AfterExchange(v, Frame(ops), ReplyBytes(ops), AllDone()).replies != []
  {
    hide PlanReply, PlanCycles, After, Frame, WirePlan, TailCount, Feed;
    WholeFrame(v, Frame(ops));
    LeftOverFirst(v, ops);
    ReplyLength(v.s, WirePlan(ops));
    WireTails(ops, |ops|);
  }

  /**
   One transport's read fails with its reply still on the link, and another, alive, runs a
   plan of no more tails: its call succeeds and returns the first one's sums.
   */
  method ReadsTheOthers(a: UsbTransport, b: UsbTransport, first: seq<Tile>, second: seq<Tile>)
      returns (okA: bool, okB: bool, outputs: seq<int>)
    requires a != b && a.conn == b.conn && a.Valid() && a.conn.InStep() && !a.dead && !b.dead
    requires 0 < |first| < 0x1_0000_0000 && 0 < |second| < 0x1_0000_0000
    requires (forall t <- first :: t.Valid()) && forall t <- second :: t.Valid()
    requires 0 < TailCount(second, |second|) <= TailCount(first, |first|)
    modifies a, b, a.conn, a.conn.streamer.port
    ensures !okA && a.dead && okB && !b.dead && !a.conn.InStep()
    ensures |outputs| == 2 * |second|
    ensures forall i :: 0 <= i < |second| ==>
      SlotsHold(PlanReply(old(a.conn.streamer.port.s), WirePlan(first)), second, outputs, i)
  {
    hide PlanReply, PlanCycles, After, Tiles, Pump, Frame, SlotsHold, KeepsStep, WirePlan, TailCount, Feed,
      AfterWrite, AfterExchange, ReplyBytes;
    ghost var w := a.conn.Now();
    ReadFails(first, second);
    Unread(w, first);
    var none;
    okA, none := a.Execute(first, NoRead());
    ghost var v := a.conn.Now();
    Behind(v, second);
    okB, outputs := b.Execute(second, AllDone());
    NotInStep(a.conn.Now());
    SlotsOfPrefix(v.replies, AfterWrite(v, Frame(second), Done).replies, second, outputs);
  }

  lemma ReadFails(first: seq<Tile>, second: seq<Tile>)
    requires 0 < TailCount(second, |second|) <= TailCount(first, |first|)
    ensures NoRead().write.Done? && !NoRead().read.Done? && AllDone().write.Done? && AllDone().read.Done?
    ensures 0 < ReplyBytes(second) <= ReplyBytes(first)
  {
  }

  lemma NotInStep(w: Wire)
    requires w.replies != []
    ensures !w.InStep()
  {
  }

  lemma SlotsOfPrefix(rx: seq<byte>, all: seq<byte>, ops: seq<Tile>, outputs: seq<int>)
    requires |rx| >= ReplyBytes(ops) && rx <= all && forall i :: 0 <= i < |ops| ==> SlotsHold(all, ops, outputs, i)
    ensures forall i :: 0 <= i < |ops| ==> SlotsHold(rx, ops, outputs, i)
  {
    hide SignExtend;
    forall i | 0 <= i < |ops| ensures SlotsHold(rx, ops, outputs, i) {
      assert SlotsHold(all, ops, outputs, i);
      TailCountMonotone(ops, i + 1, |ops|);
    }
  }

  /** Where a tail's bytes sit in the promised reply. */
  lemma {:induction false} PromisedBytes(x: int, y: int, ops: seq<Tile>, i: nat, n: nat)
    requires i < n <= |ops| && ops[i].ends
    ensures var p, k := PromisedReply(x, y, ops, n), 4 * TailCount(ops, i);
            k + 4 <= |p| && p[k..k + 4] == PsumBytes(AccAfter(x, ops, i + 1, 0), AccAfter(y, ops, i + 1, 1))
  {
    hide AccAfter, PsumBytes;
    TailCountMonotone(ops, i + 1, n);
    PromisedAt(x, y, ops, i + 1, n);
    var p, q := PromisedReply(x, y, ops, i + 1), PromisedReply(x, y, ops, n);
    assert p <= q;
    var k := 4 * TailCount(ops, i);
    assert q[k..k + 4] == p[k..k + 4];
  }

  /**
   What Execute returns for a plan that opens with a run head, from any chip state:
   the wrapped sum of its run at every run tail, zero everywhere else.
   */
  lemma ExecuteAnswers(s: State, ops: seq<Tile>, i: nat, row: nat)
    requires ops != [] && ops[0].starts && (forall t <- ops :: t.OnWire()) && i < |ops| && row < 2
    ensures var rx := PlanReply(s, WirePlan(ops));
            4 * TailCount(ops, i + 1) <= |rx|
            && Slot(rx, ops, i, row) == if ops[i].ends then AccAfter(0, ops, i + 1, row) else 0
  {
    hide PlanReply, AccAfter, PromisedReply, WirePlan, PsumBytes, PsumAt, TailCount, PlanCycles, Encoded, Tiles;
    assert forall t <- ops :: t.Valid();
    WireRoundTrip(ops);
    HeadedPlanLaw(s, ops);
    TailCountMonotone(ops, i + 1, |ops|);
    if ops[i].ends {
      PromisedBytes(0, 0, ops, i, |ops|);
      AccRange(0, ops, i + 1, 0);
      AccRange(0, ops, i + 1, 1);
      SlotDecodes(PromisedReply(0, 0, ops, |ops|), 4 * TailCount(ops, i), AccAfter(0, ops, i + 1, 0),
                  AccAfter(0, ops, i + 1, 1), row);
    }
  }

  lemma SlotDecodes(p: seq<byte>, k: nat, x: int, y: int, row: nat)
    requires k + 4 <= |p| && row < 2 && p[k..k + 4] == PsumBytes(x, y)
    requires -32768 <= x < 32768 && -32768 <= y < 32768
    ensures PsumAt(p, k, row) == if row == 0 then x else y
  {
    hide SignExtend, ByteOf;
    DecodedPsum(if row == 0 then x else y);
    var d := p[k..k + 4];
    assert d[2 * row] == p[k + 2 * row] && d[2 * row + 1] == p[k + 2 * row + 1];
  }

  lemma AccRange(acc: int, ops: seq<Tile>, n: nat, row: nat)
    requires 0 < n <= |ops|
    ensures -32768 <= AccAfter(acc, ops, n, row) < 32768
  {
  }

  // ----- several callers, one connection -----

  /** A whole plan issued by one caller; the mutex makes it one step. */
  datatype Request = Request(caller: nat, ops: seq<Tile>)

  /** The replies caller c collects when the requests run in this order from state s. */
  function Transcript(s: State, reqs: seq<Request>, c: nat): seq<seq<byte>>
    decreases |reqs|
  {
    if reqs == [] then []
    else
      (if reqs[0].caller == c then [PlanReply(s, reqs[0].ops)] else [])
      + Transcript(After(s, PlanCycles(reqs[0].ops)), reqs[1..], c)
  }

  function Only(reqs: seq<Request>, c: nat): seq<Request>
  {
    if reqs == [] then []
    else (if reqs[0].caller == c then [reqs[0]] else []) + Only(reqs[1..], c)
  }

  predicate Headed(r: Request)
  {
    r.ops != [] && r.ops[0].starts && forall t <- r.ops :: t.Valid()
  }

  lemma OnlyTail(r: Request, rest: seq<Request>)
    ensures ([r] + rest)[0] == r && ([r] + rest)[1..] == rest
  {
  }

  /** Every interleaving gives every caller the answers of an undisturbed run. */
  lemma {:induction false} InterleavingIsInvisible(s: State, s': State, reqs: seq<Request>, c: nat)
    requires forall r <- reqs :: Headed(r)
    ensures Transcript(s, reqs, c) == Transcript(s', Only(reqs, c), c)
    decreases |reqs|
  {
    hide PlanReply, PlanCycles, After;
    if reqs != [] {
      var r := reqs[0];
      assert r in reqs;
      var m := After(s, PlanCycles(r.ops));
      if r.caller == c {
        HeadedPlansAgree(s, s', r.ops);
        var m' := After(s', PlanCycles(r.ops));
        InterleavingIsInvisible(m, m', reqs[1..], c);
        OnlyTail(r, Only(reqs[1..], c));
      } else {
        InterleavingIsInvisible(m, s', reqs[1..], c);
        assert Only(reqs, c) == Only(reqs[1..], c);
      }
    }
  }
}

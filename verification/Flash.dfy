/**
 The bitstream store: a streaming begin/append/end writer over NOR flash. The flash
 erases by sector to 0xff and programs by page as a bitwise AND, and both are logged
 as atomic steps, so that a power cut is a prefix of the log.

 End is proved to leave exactly the header page, the payload and 0xff fill however
 the payload was split into appends, programming every page at most once and only
 when erased. PowerCut shows that no prefix of the log strictly between the first
 sector erase and the header program is taken for a stored bitstream.
 */
module Flash {
  import opened Crc32

  const PAGE: nat := 256
  const SECTOR: nat := 4096
  const REGION: nat := 262144
  const MAX_BYTES: nat := REGION - PAGE

  // ----- flash as a device -----

  /** The atomic steps of the device, with offsets inside the region. */
  datatype FlashOp = EraseSector(off: nat) | ProgramPage(off: nat, data: seq<octet>)

  predicate InRegion(op: FlashOp)
  {
    match op
    case EraseSector(off) => off % SECTOR == 0 && off + SECTOR <= REGION
    case ProgramPage(off, data) => off % PAGE == 0 && off + PAGE <= REGION && |data| == PAGE
  }

  function Ones(n: nat): (s: seq<octet>)
    ensures |s| == n && forall i :: 0 <= i < n ==> s[i] == 0xFF
  {
    seq(n, _ => 0xFF)
  }

  function Splice(f: seq<octet>, off: nat, data: seq<octet>): (g: seq<octet>)
    requires off + |data| <= |f|
    ensures |g| == |f|
    ensures forall i :: 0 <= i < |f| ==> g[i] == if off <= i < off + |data| then data[i - off] else f[i]
  {
    f[..off] + data + f[off + |data|..]
  }

  function And(x: seq<octet>, y: seq<octet>): (z: seq<octet>)
    requires |x| == |y|
    ensures |z| == |x|
  {
    seq(|x|, i requires 0 <= i < |x| => x[i] & y[i])
  }

  function Apply(f: seq<octet>, op: FlashOp): (g: seq<octet>)
    requires |f| == REGION && InRegion(op)
    ensures |g| == REGION
  {
    match op
    case EraseSector(off) => Splice(f, off, Ones(SECTOR))
    case ProgramPage(off, data) => Splice(f, off, And(f[off..off + PAGE], data))
  }

  predicate AllInRegion(log: seq<FlashOp>)
  {
    forall i :: 0 <= i < |log| ==> InRegion(log[i])
  }

  function Replay(f: seq<octet>, log: seq<FlashOp>): (g: seq<octet>)
    requires |f| == REGION && AllInRegion(log)
    ensures |g| == REGION
  {
    if log == [] then f else Apply(Replay(f, log[..|log| - 1]), log[|log| - 1])
  }

  lemma ReplaySnoc(f: seq<octet>, log: seq<FlashOp>, op: FlashOp)
    requires |f| == REGION && AllInRegion(log) && InRegion(op)
    ensures AllInRegion(log + [op]) && Replay(f, log + [op]) == Apply(Replay(f, log), op)
  {
    hide Apply;
    assert (log + [op])[..|log + [op]| - 1] == log;
  }

  lemma OnesMask(d: octet)
    ensures 0xFF & d == d
  {
  }

  /** Programming an erased page stores the data. */
  lemma ProgramErased(f: seq<octet>, off: nat, data: seq<octet>)
    requires |f| == REGION && InRegion(ProgramPage(off, data))
    requires forall i :: off <= i < off + PAGE ==> f[i] == 0xFF
    ensures Apply(f, ProgramPage(off, data)) == Splice(f, off, data)
  {
    forall i | 0 <= i < PAGE
      ensures And(f[off..off + PAGE], data)[i] == data[i]
    {
      OnesMask(data[i]);
    }
    assert And(f[off..off + PAGE], data) == data;
  }

  // ----- the header -----

  /** A 32-bit word as a number. */
  function Num(x: bv32): nat { x as int }

  function FromU32(b: seq<octet>): bv32
    requires |b| == 4
  {
    Join(b[0], b[1], b[2], b[3])
  }

  function Join(a: octet, b: octet, c: octet, d: octet): bv32
  {
    a as bv32 | (b as bv32 << 8) | (c as bv32 << 16) | (d as bv32 << 24)
  }

  lemma JoinSplit(x: bv32)
    ensures Join(Low8(x), Low8(x >> 8), Low8(x >> 16), Low8(x >> 24)) == x
  {
  }

  lemma U32RoundTrip(x: bv32)
    ensures FromU32(U32(x)) == x
  {
    hide Join, Low8;
    JoinSplit(x);
  }

  const MAGIC: bv32 := 0x4253_5442

  /** Magic, length, CRC and a zero word, padded to a page with the erased value. */
  function HeaderPage(length: bv32, crc: bv32): (h: seq<octet>)
    ensures |h| == PAGE
  {
    U32(MAGIC) + U32(length) + U32(crc) + U32(0) + Ones(PAGE - 16)
  }

  function Length(f: seq<octet>): bv32
    requires |f| >= 8
  {
    FromU32(f[4..8])
  }

  predicate Present(f: seq<octet>)
    requires |f| == REGION
  {
    FromU32(f[0..4]) == MAGIC && 0 < Num(Length(f)) <= MAX_BYTES
  }

  lemma HeaderReads(f: seq<octet>, length: bv32, crc: bv32)
    requires |f| == REGION && f[..PAGE] == HeaderPage(length, crc) && 0 < Num(length) <= MAX_BYTES
    ensures Present(f) && Length(f) == length && FromU32(f[8..12]) == crc
  {
    hide FromU32, U32, Num;
    var h := HeaderPage(length, crc);
    U32RoundTrip(MAGIC);
    U32RoundTrip(length);
    U32RoundTrip(crc);
    assert f[0..4] == h[0..4] == U32(MAGIC);
    assert f[4..8] == h[4..8] == U32(length);
    assert f[8..12] == h[8..12] == U32(crc);
  }

  lemma ErasedMagic(b: octet, c: octet, d: octet)
    ensures Join(0xFF, b, c, d) != MAGIC
  {
  }

  lemma ErasedIsAbsent(f: seq<octet>)
    requires |f| == REGION && f[0] == 0xFF
    ensures !Present(f)
  {
    hide Join;
    ErasedMagic(f[1], f[2], f[3]);
    assert f[0..4][0] == 0xFF && f[0..4][1] == f[1] && f[0..4][2] == f[2] && f[0..4][3] == f[3];
  }

  // ----- a power cut -----

  /** After every step but the empty prefix, the header's first byte is erased. */
  ghost predicate Hidden(base: seq<octet>, log: seq<FlashOp>)
    requires |base| == REGION && AllInRegion(log)
  {
    forall k :: 1 <= k <= |log| ==> Replay(base, log[..k])[0] == 0xFF
  }

  lemma HiddenSnoc(base: seq<octet>, log: seq<FlashOp>, op: FlashOp)
    requires |base| == REGION && AllInRegion(log) && InRegion(op) && Hidden(base, log)
    requires op.EraseSector? || op.off >= PAGE
    requires log == [] ==> op == EraseSector(0)
    ensures AllInRegion(log + [op]) && Hidden(base, log + [op])
  {
    ReplaySnoc(base, log, op);
    var log' := log + [op];
    forall k | 1 <= k <= |log'|
      ensures Replay(base, log'[..k])[0] == 0xFF
    {
      if k <= |log| {
        assert log'[..k] == log[..k];
      } else {
        assert log'[..k] == log' && log[..|log|] == log;
        assert log != [] ==> Replay(base, log)[0] == 0xFF;
      }
    }
  }

  /**
   The store is atomic under power cuts: whatever prefix of a finished update reached
   the flash, it is taken for a bitstream only if nothing or everything was done.
   */
  lemma PowerCut(base: seq<octet>, log: seq<FlashOp>, header: seq<octet>, k: nat)
    requires |base| == REGION && AllInRegion(log) && Hidden(base, log) && |header| == PAGE
    requires k <= |log| + 1
    ensures AllInRegion((log + [ProgramPage(0, header)])[..k])
    ensures Present(Replay(base, (log + [ProgramPage(0, header)])[..k])) ==> k == 0 || k == |log| + 1
  {
    var all := log + [ProgramPage(0, header)];
    assert AllInRegion(all);
    if 1 <= k <= |log| {
      assert all[..k] == log[..k];
      ErasedIsAbsent(Replay(base, log[..k]));
    }
  }

  /** A log cut anywhere leaves what was there, no bitstream, or the finished update. */
  ghost predicate CutsSafely(base: seq<octet>, log: seq<FlashOp>)
    requires |base| == REGION
  {
    AllInRegion(log) && forall k :: 0 < k < |log| ==> !Present(Replay(base, log[..k]))
  }

  lemma HeaderLastCuts(base: seq<octet>, pre: seq<FlashOp>, header: seq<octet>)
    requires |base| == REGION && AllInRegion(pre) && Hidden(base, pre) && |header| == PAGE
    ensures CutsSafely(base, pre + [ProgramPage(0, header)])
  {
    hide Present, Hidden, Replay;
    var log := pre + [ProgramPage(0, header)];
    assert AllInRegion(log);
    forall k | 0 < k < |log| ensures !Present(Replay(base, log[..k])) {
      PowerCut(base, pre, header, k);
    }
  }

  // ----- the writer -----

  /** Bytes erased for a payload of n bytes: whole sectors over header and payload. */
  function EraseEnd(n: nat): nat
  {
    (PAGE + n + SECTOR - 1) / SECTOR * SECTOR
  }

  lemma EraseEndBounds(n: nat)
    requires n <= MAX_BYTES
    ensures PAGE + n <= EraseEnd(n) <= REGION && EraseEnd(n) % SECTOR == 0
    ensures PAGE + (n + PAGE - 1) / PAGE * PAGE <= EraseEnd(n)
  {
    var s := (PAGE + n + SECTOR - 1) / SECTOR;
    assert EraseEnd(n) == SECTOR * s;
    var p := (n + PAGE - 1) / PAGE;
    assert PAGE * p < n + PAGE;
    assert SECTOR * s >= PAGE + n;
    assert PAGE * (16 * s) == SECTOR * s;
    assert p + 1 <= 16 * s;
  }

  function Pages(n: nat): nat
  {
    (n + PAGE - 1) / PAGE * PAGE
  }

  /** Where the received bytes are while an update is active. */
  ghost predicate Staged(cells: seq<octet>, buf: seq<octet>, used: nat, off: nat, n: nat, received: seq<octet>)
  {
    0 < n <= MAX_BYTES && |cells| == REGION && |buf| == SECTOR && used < SECTOR && off % SECTOR == 0
    && EraseEnd(n) <= REGION && |received| == off + used && off + used <= n
    && (forall i :: 0 <= i < off ==> cells[PAGE + i] == received[i])
    && (forall i :: 0 <= i < used ==> buf[i] == received[off + i])
    && (forall i :: 0 <= i < PAGE ==> cells[i] == 0xFF)
    && (forall i :: PAGE + off <= i < EraseEnd(n) ==> cells[i] == 0xFF)
  }

  /** Page offsets already programmed: none in the header or past the flushed payload. */
  predicate Fresh(programmed: set<nat>, off: nat, n: nat)
  {
    forall o <- programmed :: (PAGE <= o < PAGE + off) || EraseEnd(n) <= o
  }

  class FlashWriter {
    var cells: seq<octet>          // the flash region
    var buf: seq<octet>            // one-sector staging buffer
    var used: nat
    var payloadOff: nat
    var expected: bv32
    var crc: bv32
    var active: bool
    const table: Table
    ghost var base: seq<octet>      // the flash when the current update began
    ghost var log: seq<FlashOp>    // every device step since then
    ghost var programmed: set<nat> // pages programmed since their last erase
    ghost var received: seq<octet>  // every byte appended since then

    ghost predicate Device()
      reads this
    {
      |cells| == REGION && |base| == REGION && AllInRegion(log) && cells == Replay(base, log)
    }

    ghost predicate Valid()
      reads this, table, table.entries
    {
      Device() && table.Valid() && |buf| == SECTOR
      && (active ==> Staged(cells, buf, used, payloadOff, Num(expected), received)
                     && Fresh(programmed, payloadOff, Num(expected))
                     && log != [] && Hidden(base, log) && crc == Serial(INIT, received))
    }

    constructor (content: seq<octet>)
      requires |content| == REGION
      ensures Valid() && cells == content && !active && fresh(table) && fresh(table.entries)
    {
      cells, base, log, programmed, received := content, content, [], {}, [];
      buf, used, payloadOff, expected, crc, active := seq(SECTOR, _ => 0), 0, 0, 0, 0, false;
      table := new Table();
    }

    // -- device steps --

    method EraseOne(off: nat)
      requires Device() && InRegion(EraseSector(off))
      modifies this`cells, this`log, this`programmed
      ensures Device() && cells == Splice(old(cells), off, Ones(SECTOR))
      ensures log == old(log) + [EraseSector(off)]
      ensures programmed == set o | o in old(programmed) && !(off <= o < off + SECTOR)
    {
      ReplaySnoc(base, log, EraseSector(off));
      cells := Apply(cells, EraseSector(off));
      log := log + [EraseSector(off)];
      programmed := set o | o in programmed && !(off <= o < off + SECTOR);
    }

    /** The precondition is the discipline: an erased page, programmed once. */
    method ProgramOne(off: nat, data: seq<octet>)
      requires Device() && InRegion(ProgramPage(off, data)) && off !in programmed
      requires forall i :: off <= i < off + PAGE ==> cells[i] == 0xFF
      modifies this`cells, this`log, this`programmed
      ensures Device() && cells == Splice(old(cells), off, data)
      ensures log == old(log) + [ProgramPage(off, data)] && programmed == old(programmed) + {off}
    {
      ReplaySnoc(base, log, ProgramPage(off, data));
      ProgramErased(cells, off, data);
      cells := Apply(cells, ProgramPage(off, data));
      log := log + [ProgramPage(off, data)];
      programmed := programmed + {off};
    }

    /** Ascending sector erase from the start of the region. */
    method RangeErase(count: nat)
      requires Device() && log == [] && 0 < count <= REGION && count % SECTOR == 0
      modifies this`cells, this`log, this`programmed
      ensures Device() && cells == Splice(old(cells), 0, Ones(count))
      ensures log != [] && Hidden(base, log) && forall o <- programmed :: o >= count
    {
      var off := 0;
      while off < count
        invariant 0 <= off <= count && off % SECTOR == 0
        invariant Device() && cells == Splice(old(cells), 0, Ones(off))
        invariant Hidden(base, log) && (log == [] <==> off == 0)
        invariant forall o <- programmed :: o >= off
      {
        hide Hidden, Replay, Splice;
        SectorFits(off, count);
        HiddenSnoc(base, log, EraseSector(off));
        EraseOne(off);
        SpliceSector(old(cells), off);
        off := off + SECTOR;
      }
    }

    /** Ascending page programs of erased, unprogrammed pages past the header. */
    method RangeProgram(off: nat, data: seq<octet>)
      requires Device() && off % PAGE == 0 && |data| % PAGE == 0 && off + |data| <= REGION && PAGE <= off
      requires forall i :: off <= i < off + |data| ==> cells[i] == 0xFF
      requires forall o <- programmed :: !(off <= o < off + |data|)
      requires log != [] && Hidden(base, log)
      modifies this`cells, this`log, this`programmed
      ensures Device() && cells == Splice(old(cells), off, data)
      ensures log != [] && Hidden(base, log)
      ensures forall o <- programmed :: o in old(programmed) || off <= o < off + |data|
    {
      hide Hidden, Replay, Splice;
      var done := 0;
      SpliceNothing(cells, off, data);
      while done < |data|
        invariant 0 <= done <= |data| && done % PAGE == 0
        invariant Device() && cells == Splice(old(cells), off, data[..done])
        invariant log != [] && Hidden(base, log)
        invariant forall o <- programmed :: o in old(programmed) || off <= o < off + done
      {
        PageFits(off, done, |data|);
        var page := data[done..done + PAGE];
        HiddenSnoc(base, log, ProgramPage(off + done, page));
        SplicePage(old(cells), off, data, done);
        ProgramOne(off + done, page);
        done := done + PAGE;
      }
      assert data[..|data|] == data;
    }

    // -- the streaming interface --

    method Begin(total: bv32) returns (ok: bool)
      requires Valid()
      modifies this
      ensures Valid()
      ensures ok <==> 0 < Num(total) <= MAX_BYTES
      ensures ok ==> active && expected == total && received == [] && base == old(cells)
                     && cells == Splice(base, 0, Ones(EraseEnd(Num(total))))
      ensures !ok ==> cells == old(cells) && active == old(active) && received == old(received)
    {
      hide Hidden, Replay, Splice, Staged, EraseEnd, Num;
      if Num(total) == 0 || Num(total) > MAX_BYTES {
        return false;
      }
      EraseEndBounds(Num(total));
      EraseEndPositive(Num(total));
      base, log := cells, [];
      NothingLogged(base);
      StagedStart(cells, buf, Num(total));
      RangeErase(EraseEnd(Num(total)));
      used, payloadOff, expected, crc, active := 0, 0, total, INIT, true;
      received := [];
      return true;
    }

    /** Accept a chunk of any size; a chunk that overruns the promise ends the update. */
    method Append(data: seq<octet>) returns (ok: bool)
      requires Valid()
      modifies this, table, table.entries
      ensures Valid() && base == old(base) && expected == old(expected)
      ensures ok <==> old(active) && |old(received)| + |data| <= Num(old(expected))
      ensures ok ==> active && received == old(received) + data
      ensures !ok ==> !active && cells == old(cells)
      ensures forall i :: 0 <= i < REGION && !(PAGE <= i < EraseEnd(Num(expected))) ==> cells[i] == old(cells[i])
    {
      hide Hidden, Replay, Splice, Staged, EraseEnd, Serial, Fresh, Num;
      if !active {
        return false;
      }
      StagedSize(cells, buf, used, payloadOff, Num(expected), received);
      if payloadOff + used + |data| > Num(expected) {
        active := false;
        return false;
      }
      UpdateConcat(INIT, received, data);
      var c := table.Update(crc, data);
      StageAll(data);
      StagedSize(cells, buf, used, payloadOff, Num(expected), received);
      crc := c;
      return true;
    }

    /** The copy loop: fill the sector buffer, flush it whenever it is full. */
    method StageAll(data: seq<octet>)
      requires Device() && table.Valid() && Staged(cells, buf, used, payloadOff, Num(expected), received)
      requires Fresh(programmed, payloadOff, Num(expected)) && log != [] && Hidden(base, log)
      requires |received| + |data| <= Num(expected)
      modifies this`cells, this`log, this`programmed, this`buf, this`used, this`payloadOff, this`received
      ensures Device() && Staged(cells, buf, used, payloadOff, Num(expected), received)
      ensures Fresh(programmed, payloadOff, Num(expected)) && log != [] && Hidden(base, log)
      ensures received == old(received) + data
      ensures forall i :: 0 <= i < REGION && !(PAGE <= i < EraseEnd(Num(expected))) ==> cells[i] == old(cells[i])
    {
      hide Hidden, Replay, Splice, Staged, EraseEnd, Fresh, Num;
      var pos := 0;
      StagedSize(cells, buf, used, payloadOff, Num(expected), received);
      while pos < |data|
        invariant 0 <= pos <= |data| && used < SECTOR
        invariant Device() && Staged(cells, buf, used, payloadOff, Num(expected), received)
        invariant Fresh(programmed, payloadOff, Num(expected)) && log != [] && Hidden(base, log)
        invariant received == old(received) + data[..pos]
        invariant forall i :: 0 <= i < REGION && !(PAGE <= i < EraseEnd(Num(expected))) ==> cells[i] == old(cells[i])
        decreases |data| - pos
      {
        var copy := if SECTOR - used > |data| - pos then |data| - pos else SECTOR - used;
        StageSome(data[pos..pos + copy]);
        StagedSize(cells, buf, used, payloadOff, Num(expected), received);
        assert data[..pos + copy] == data[..pos] + data[pos..pos + copy];
        pos := pos + copy;
      }
      assert data[..|data|] == data;
    }

    method StageSome(chunk: seq<octet>)
      requires Device() && Staged(cells, buf, used, payloadOff, Num(expected), received)
      requires Fresh(programmed, payloadOff, Num(expected)) && log != [] && Hidden(base, log)
      requires 0 < |chunk| <= SECTOR - used && |received| + |chunk| <= Num(expected)
      modifies this`cells, this`log, this`programmed, this`buf, this`used, this`payloadOff, this`received
      ensures Device() && Staged(cells, buf, used, payloadOff, Num(expected), received)
      ensures Fresh(programmed, payloadOff, Num(expected)) && log != [] && Hidden(base, log)
      ensures received == old(received) + chunk
      ensures forall i :: 0 <= i < REGION && !(PAGE <= i < EraseEnd(Num(expected))) ==> cells[i] == old(cells[i])
    {
      hide Hidden, Replay, Splice, Staged, EraseEnd, Num;
      ghost var n, cells0 := Num(expected), cells;
      StagedSize(cells, buf, used, payloadOff, n, received);
      StagedGrow(cells, buf, used, payloadOff, n, received, chunk);
      buf := Splice(buf, used, chunk);
      used := used + |chunk|;
      received := received + chunk;
      if used == SECTOR {
        RangeProgram(PAGE + payloadOff, buf);
        payloadOff := payloadOff + SECTOR;
        used := 0;
      }
    }

    /** Flush the tail, then the header: 0 ok, 1 not active, 2 short, 3 verify failed. */
    method End() returns (rc: int)
      requires Valid()
      modifies this
      ensures Valid() && !active && base == old(base) && received == old(received)
      ensures rc == if !old(active) then 1 else if |received| == Num(old(expected)) then 0 else 2
      ensures rc == 0 ==> Stored(cells, old(expected), received, old(cells))
      ensures rc == 0 ==> OnFlash(cells, old(expected), received, old(cells))
      ensures rc == 0 ==> exists pre :: AllInRegion(pre) && Hidden(base, pre)
                            && log == pre + [ProgramPage(0, HeaderPage(expected, Finalize(Serial(INIT, received))))]
      ensures rc == 2 ==> Hidden(base, log) && !Present(cells)
    {
      hide OnFlash, Replay, Present, HeaderPage, Serial, Staged, Hidden, Splice, EraseEnd, Fresh, Num;
      if !active {
        return 1;
      }
      StagedSize(cells, buf, used, payloadOff, Num(expected), received);
      EraseEndBounds(Num(expected));
      FlushTail();
      if payloadOff != Num(expected) {
        active := false;
        HiddenNow(base, log, cells);
        return 2;
      }
      var header := HeaderPage(expected, Finalize(crc));
      ghost var pre := log;
      ghost var before := cells;
      ProgramOne(0, header);
      active := false;
      HeaderSplice(before, header);
      HeaderReads(cells, expected, Finalize(crc));
      if !Present(cells) || Length(cells) != expected {
        return 3;
      }
      StoredNow(before, cells, expected, received, old(cells), crc);
      StoredOnFlash(cells, expected, received, old(cells));
      return 0;
    }

    method FlushTail()
      requires Valid() && active
      modifies this`cells, this`log, this`programmed, this`buf, this`used, this`payloadOff
      ensures Device() && |buf| == SECTOR && log != [] && Hidden(base, log) && 0 !in programmed
      ensures payloadOff == |received| && used == 0
      ensures forall i :: 0 <= i < PAGE ==> cells[i] == 0xFF
      ensures forall i :: 0 <= i < |received| ==> cells[PAGE + i] == received[i]
      ensures forall i :: PAGE + |received| <= i < EraseEnd(Num(expected)) ==> cells[i] == 0xFF
      ensures forall i :: EraseEnd(Num(expected)) <= i < REGION ==> cells[i] == old(cells[i])
    {
      hide Hidden, Replay, Splice, EraseEnd, Num, Serial, Staged, Pages;
      StagedSize(cells, buf, used, payloadOff, Num(expected), received);
      EraseEndBounds(Num(expected));
      StagedDone(cells, buf, used, payloadOff, Num(expected), received);
      if used > 0 {
        PaddedFits(used, payloadOff, Num(expected));
        var padded := Pages(used);
        TailPage(cells, buf, used, payloadOff, Num(expected), received);
        buf := Splice(buf, used, Ones(padded - used));
        RangeProgram(PAGE + payloadOff, buf[..padded]);
        payloadOff := payloadOff + used;
        used := 0;
      }
    }

    /**
     'F' mode: n bytes arrive in pieces of at most 1024. The reply is 0xff for an
     impossible size and the result of End otherwise.
     */
    method Upload(n: bv32, stream: seq<octet>) returns (resp: int)
      requires Valid() && |stream| >= Num(n)
      modifies this, table, table.entries
      ensures Valid()
      ensures resp == if 0 < Num(n) <= MAX_BYTES then 0 else 0xFF
      ensures resp == 0 ==> Stored(cells, n, stream[..Num(n)], old(cells))
      ensures resp == 0 ==> OnFlash(cells, n, stream[..Num(n)], old(cells))
      ensures resp == 0 ==> base == old(cells) && CutsSafely(base, log) && cells == Replay(base, log)
      ensures resp != 0 ==> cells == old(cells) && log == old(log)
    {
      hide Stored, OnFlash, Staged, Hidden, Replay, Splice, EraseEnd, Serial, Fresh, Num, HeaderPage;
      if Num(n) == 0 || Num(n) > MAX_BYTES {
        return 0xFF;
      }
      EraseEndBounds(Num(n));
      var ok := Begin(n);
      ErasedBeyond(old(cells), EraseEnd(Num(n)));
      var got := 0;
      while got < Num(n)
        invariant 0 <= got <= Num(n)
        invariant Valid() && active && expected == n && received == stream[..got] && base == old(cells)
        invariant forall i :: EraseEnd(Num(n)) <= i < REGION ==> cells[i] == old(cells[i])
      {
        var want := if Num(n) - got < 1024 then Num(n) - got else 1024;
        ok := Append(stream[got..got + want]);
        assert stream[..got + want] == stream[..got] + stream[got..got + want];
        got := got + want;
      }
      ghost var before := cells;
      resp := End();
      StoredSince(cells, n, received, before, old(cells));
      StoredOnFlash(cells, n, received, old(cells));
      ghost var header := HeaderPage(expected, Finalize(Serial(INIT, received)));
      ghost var pre :| AllInRegion(pre) && Hidden(base, pre) && log == pre + [ProgramPage(0, header)];
      HeaderLastCuts(base, pre, header);
    }
  }

  lemma ErasedBeyond(f: seq<octet>, e: nat)
    requires e <= |f|
    ensures forall i :: e <= i < |f| ==> Splice(f, 0, Ones(e))[i] == f[i]
  {
  }

  lemma StoredSince(g: seq<octet>, length: bv32, payload: seq<octet>, mid: seq<octet>, before: seq<octet>)
    requires Stored(g, length, payload, mid) && |before| == REGION
    requires forall i :: EraseEnd(Num(length)) <= i < REGION ==> mid[i] == before[i]
    ensures Stored(g, length, payload, before)
  {
    hide HeaderPage, Serial, EraseEnd, Num;
  }

  // ----- value-level steps behind the methods -----

  lemma NothingLogged(base: seq<octet>)
    requires |base| == REGION
    ensures AllInRegion([]) && Replay(base, []) == base && Hidden(base, [])
  {
  }

  lemma EraseEndPositive(n: nat)
    ensures EraseEnd(n) > 0
  {
  }

  lemma SpliceSector(f: seq<octet>, off: nat)
    requires off + SECTOR <= |f|
    ensures Splice(Splice(f, 0, Ones(off)), off, Ones(SECTOR)) == Splice(f, 0, Ones(off + SECTOR))
  {
  }

  lemma SpliceNothing(f: seq<octet>, off: nat, data: seq<octet>)
    requires off + |data| <= |f|
    ensures Splice(f, off, data[..0]) == f
  {
  }

  lemma SplicePage(f: seq<octet>, off: nat, data: seq<octet>, done: nat)
    requires done + PAGE <= |data| && off + |data| <= |f|
    requires forall i :: off <= i < off + |data| ==> f[i] == 0xFF
    ensures var g := Splice(f, off, data[..done]);
            (forall i :: off + done <= i < off + done + PAGE ==> g[i] == 0xFF)
            && Splice(g, off + done, data[done..done + PAGE]) == Splice(f, off, data[..done + PAGE])
  {
    var g := Splice(f, off, data[..done]);
    var x, y := Splice(g, off + done, data[done..done + PAGE]), Splice(f, off, data[..done + PAGE]);
    assert forall i :: 0 <= i < |f| ==> x[i] == y[i];
  }

  lemma StagedSize(cells: seq<octet>, buf: seq<octet>, used: nat, off: nat, n: nat, received: seq<octet>)
    requires Staged(cells, buf, used, off, n, received)
    ensures |received| == off + used && used < SECTOR && 0 < n <= MAX_BYTES && EraseEnd(n) <= REGION
            && |buf| == SECTOR && |cells| == REGION
  {
  }

  lemma StagedStart(cells: seq<octet>, buf: seq<octet>, n: nat)
    requires |cells| == REGION && |buf| == SECTOR && 0 < n <= MAX_BYTES && EraseEnd(n) <= REGION
    ensures Staged(Splice(cells, 0, Ones(EraseEnd(n))), buf, 0, 0, n, [])
  {
    EraseEndBounds(n);
  }

  /** Copying a chunk into the buffer, and flushing the buffer if that filled it. */
  lemma StagedGrow(cells: seq<octet>, buf: seq<octet>, used: nat, off: nat, n: nat, received: seq<octet>,
                   chunk: seq<octet>)
    requires Staged(cells, buf, used, off, n, received)
    requires 0 < |chunk| <= SECTOR - used && |received| + |chunk| <= n
    ensures |buf| == SECTOR && |Splice(buf, used, chunk)| == SECTOR
    ensures used + |chunk| < SECTOR ==>
              Staged(cells, Splice(buf, used, chunk), used + |chunk|, off, n, received + chunk)
    ensures used + |chunk| == SECTOR ==>
              PAGE + off + SECTOR <= EraseEnd(n) <= REGION && (PAGE + off) % PAGE == 0 && |cells| == REGION
              && (forall i :: PAGE + off <= i < PAGE + off + SECTOR ==> cells[i] == 0xFF)
              && Staged(Splice(cells, PAGE + off, Splice(buf, used, chunk)), Splice(buf, used, chunk),
                        0, off + SECTOR, n, received + chunk)
              && forall i :: 0 <= i < REGION && !(PAGE <= i < EraseEnd(n)) ==>
                   Splice(cells, PAGE + off, Splice(buf, used, chunk))[i] == cells[i]
  {
    EraseEndBounds(n);
    hide EraseEnd;
    SectorPage(off);
    var b := Splice(buf, used, chunk);
    assert forall i :: 0 <= i < used + |chunk| ==> b[i] == (received + chunk)[off + i];
    if used + |chunk| == SECTOR {
      var c := Splice(cells, PAGE + off, b);
      var r := received + chunk;
      forall i | 0 <= i < off + SECTOR
        ensures c[PAGE + i] == r[i]
      {
        if i >= off {
          assert c[PAGE + i] == b[i - off];
        }
      }
    }
  }

  lemma SectorPage(off: nat)
    requires off % SECTOR == 0
    ensures (PAGE + off) % PAGE == 0 && (off + SECTOR) % SECTOR == 0
  {
    var k := off / SECTOR;
    assert off == SECTOR * k;
    MultipleOfPage(1 + 16 * k);
    MultipleOfSector(k + 1);
    assert PAGE + off == PAGE * (1 + 16 * k) && off + SECTOR == SECTOR * (k + 1);
  }

  lemma MultipleOfPage(m: nat)
    ensures PAGE * m % PAGE == 0
  {
  }

  lemma MultipleOfSector(m: nat)
    ensures SECTOR * m % SECTOR == 0
  {
  }

  lemma StagedDone(cells: seq<octet>, buf: seq<octet>, used: nat, off: nat, n: nat, received: seq<octet>)
    requires Staged(cells, buf, used, off, n, received)
    ensures off % SECTOR == 0 && off + used <= n
    ensures used == 0 ==> (forall i :: 0 <= i < PAGE ==> cells[i] == 0xFF)
                          && (forall i :: 0 <= i < |received| ==> cells[PAGE + i] == received[i])
                          && (forall i :: PAGE + |received| <= i < EraseEnd(n) ==> cells[i] == 0xFF)
  {
  }

  lemma TailPage(cells: seq<octet>, buf: seq<octet>, used: nat, off: nat, n: nat, received: seq<octet>)
    requires Staged(cells, buf, used, off, n, received) && 0 < used
    requires used <= Pages(used) <= SECTOR && PAGE + off + Pages(used) <= EraseEnd(n) <= REGION
    ensures |buf| == SECTOR && |cells| == REGION
    ensures var b := Splice(buf, used, Ones(Pages(used) - used));
            var c := Splice(cells, PAGE + off, b[..Pages(used)]);
            |b| == SECTOR
            && (forall i :: PAGE + off <= i < PAGE + off + Pages(used) ==> cells[i] == 0xFF)
            && (forall i :: 0 <= i < PAGE ==> c[i] == 0xFF)
            && (forall i :: 0 <= i < |received| ==> c[PAGE + i] == received[i])
            && (forall i :: PAGE + |received| <= i < EraseEnd(n) ==> c[i] == 0xFF)
            && (forall i :: EraseEnd(n) <= i < REGION ==> c[i] == cells[i])
  {
    hide EraseEnd, Pages;
    var m := Pages(used);
    var b := Splice(buf, used, Ones(m - used));
    var c := Splice(cells, PAGE + off, b[..m]);
    forall i | 0 <= i < |received|
      ensures c[PAGE + i] == received[i]
    {
      if i >= off {
        assert c[PAGE + i] == b[..m][i - off];
      }
    }
  }

  lemma HeaderSplice(f: seq<octet>, header: seq<octet>)
    requires |f| == REGION && |header| == PAGE
    ensures Splice(f, 0, header)[..PAGE] == header && Splice(f, 0, header)[PAGE..] == f[PAGE..]
  {
  }

  lemma StoredNow(f: seq<octet>, g: seq<octet>, length: bv32, payload: seq<octet>, before: seq<octet>, crc: bv32)
    requires |f| == REGION && |g| == REGION && |before| == REGION && |payload| == Num(length)
    requires PAGE + |payload| <= EraseEnd(|payload|) <= REGION && crc == Serial(INIT, payload)
    requires g[..PAGE] == HeaderPage(length, Finalize(crc)) && g[PAGE..] == f[PAGE..]
    requires forall i :: 0 <= i < |payload| ==> f[PAGE + i] == payload[i]
    requires forall i :: PAGE + |payload| <= i < EraseEnd(|payload|) ==> f[i] == 0xFF
    requires forall i :: EraseEnd(|payload|) <= i < REGION ==> f[i] == before[i]
    ensures Stored(g, length, payload, before)
  {
    hide HeaderPage, Serial, EraseEnd, Num;
    forall i | PAGE <= i < REGION
      ensures g[i] == f[i]
    {
      assert g[PAGE..][i - PAGE] == f[PAGE..][i - PAGE];
    }
    assert g[PAGE..PAGE + |payload|] == payload;
  }

  lemma SectorFits(off: nat, count: nat)
    requires off < count <= REGION && off % SECTOR == 0 && count % SECTOR == 0
    ensures off + SECTOR <= count && InRegion(EraseSector(off)) && (off + SECTOR) % SECTOR == 0
  {
  }

  lemma PageFits(off: nat, done: nat, len: nat)
    requires off % PAGE == 0 && done % PAGE == 0 && len % PAGE == 0 && done < len && off + len <= REGION
    ensures done + PAGE <= len && (off + done) % PAGE == 0 && (done + PAGE) % PAGE == 0
  {
  }

  lemma PaddedFits(used: nat, off: nat, n: nat)
    requires 0 < used < SECTOR && off % SECTOR == 0 && off + used <= n <= MAX_BYTES
    ensures used <= Pages(used) <= SECTOR && Pages(used) % PAGE == 0 && (PAGE + off) % PAGE == 0
    ensures PAGE + off + Pages(used) <= EraseEnd(n)
  {
    EraseEndBounds(n);
    var p, q := (used + PAGE - 1) / PAGE, (n + PAGE - 1) / PAGE;
    var m := off / SECTOR;
    assert off == SECTOR * m == PAGE * (16 * m);
    assert PAGE * (16 * m + p) < n + PAGE;
    assert 16 * m + p <= q;
  }

  lemma HiddenNow(base: seq<octet>, log: seq<FlashOp>, cells: seq<octet>)
    requires |base| == REGION && AllInRegion(log) && log != [] && Hidden(base, log) && cells == Replay(base, log)
    ensures !Present(cells)
  {
    hide Replay;
    assert log[..|log|] == log;
    ErasedIsAbsent(cells);
  }

  /** The whole region after a successful update: header, payload, fill, and the rest as before. */
  ghost predicate Stored(cells: seq<octet>, length: bv32, payload: seq<octet>, before: seq<octet>)
  {
    var n := Num(length);
    |cells| == REGION && |before| == REGION && |payload| == n && PAGE + n <= EraseEnd(n) <= REGION
    && cells[..PAGE] == HeaderPage(length, Finalize(Serial(INIT, payload)))
    && cells[PAGE..PAGE + n] == payload
    && (forall i :: PAGE + n <= i < EraseEnd(n) ==> cells[i] == 0xFF)
    && (forall i :: EraseEnd(n) <= i < REGION ==> cells[i] == before[i])
  }

  /**
   The region byte by byte, in plain numbers. The four CRC bytes are those that, fed after
   the payload into a register of ones, leave the residue of the code.
   */
  ghost predicate OnFlash(cells: seq<octet>, length: bv32, payload: seq<octet>, before: seq<octet>)
  {
    var n := |payload|;
    && |cells| == 262144 && |before| == 262144 && n == Num(length) && 256 + n <= 262144
    && cells[0..4] == [0x42, 0x54, 0x53, 0x42]
    && cells[4..8] == U32(length)
    && Serial(0xFFFF_FFFF, payload + cells[8..12]) == 0xDEBB_20E3
    && cells[12..16] == [0, 0, 0, 0]
    && (forall i :: 16 <= i < 256 ==> cells[i] == 0xFF)
    && cells[256..256 + n] == payload
    && (forall i :: 256 + n <= i < 262144 ==>
         cells[i] == if i / 4096 <= (255 + n) / 4096 then 0xFF else before[i])
  }

  lemma MagicBytes()
    ensures U32(MAGIC) == [0x42, 0x54, 0x53, 0x42] && U32(0) == [0, 0, 0, 0]
  {
  }

  lemma HeaderBytes(length: bv32, crc: bv32)
    ensures var h := HeaderPage(length, crc);
      && h[0..4] == [0x42, 0x54, 0x53, 0x42] && h[4..8] == U32(length) && h[8..12] == U32(crc)
      && h[12..16] == [0, 0, 0, 0] && forall i :: 16 <= i < 256 ==> h[i] == 0xFF
  {
    MagicBytes();
    hide U32;
  }

  lemma SectorOf(i: nat, n: nat)
    ensures i < EraseEnd(n) <==> i / 4096 <= (255 + n) / 4096
  {
  }

  /** A stored bitstream is on flash byte for byte. */
  lemma StoredOnFlash(cells: seq<octet>, length: bv32, payload: seq<octet>, before: seq<octet>)
    requires Stored(cells, length, payload, before)
    ensures OnFlash(cells, length, payload, before)
  {
    hide Serial, Finalize, Num, U32, HeaderPage, EraseEnd;
    var crc := Finalize(Serial(0xFFFF_FFFF, payload));
    HeaderBytes(length, crc);
    Residue(payload);
    var h := HeaderPage(length, crc);
    assert cells[0..4] == h[0..4] && cells[4..8] == h[4..8] && cells[8..12] == h[8..12] && cells[12..16] == h[12..16];
    forall i | 16 <= i < 256 ensures cells[i] == 0xFF {
      assert cells[i] == h[i];
    }
    forall i | 256 + |payload| <= i < 262144
      ensures cells[i] == if i / 4096 <= (255 + |payload|) / 4096 then 0xFF else before[i]
    {
      SectorOf(i, |payload|);
    }
  }

  /** The nine digits' header carries the published check value. */
  lemma DigitsOnFlash(cells: seq<octet>, length: bv32, before: seq<octet>)
    requires Stored(cells, length, [0x31, 0x32, 0x33, 0x34, 0x35, 0x36, 0x37, 0x38, 0x39], before)
    ensures |cells| == 262144 && cells[8..12] == [0x26, 0x39, 0xF4, 0xCB]
  {
    CheckValue();
    CheckBytes();
    hide Serial, Finalize, Num, U32, HeaderPage, EraseEnd;
    HeaderBytes(length, 0xCBF4_3926);
    var h := HeaderPage(length, 0xCBF4_3926);
    assert cells[8..12] == h[8..12];
  }

  lemma CheckBytes()
    ensures U32(0xCBF4_3926) == [0x26, 0x39, 0xF4, 0xCB]
  {
  }

  /** A bitstream is taken to be there just when the region starts with the magic and a length that fits. */
  lemma PresentIff(f: seq<octet>)
    requires |f| == 262144
    ensures Present(f) <==>
      && f[0..4] == [0x42, 0x54, 0x53, 0x42]
      && exists length :: f[4..8] == U32(length) && 0 < Num(length) && 256 + Num(length) <= 262144
  {
    hide FromU32, U32, Num;
    WordsAgree(f[0..4], MAGIC);
    MagicBytes();
    var length := Length(f);
    WordsAgree(f[4..8], length);
    forall x | f[4..8] == U32(x) ensures x == length {
      WordsAgree(f[4..8], x);
    }
  }

  /** Reading a word and writing it are each other's inverse. */
  lemma WordsAgree(b: seq<octet>, x: bv32)
    requires |b| == 4
    ensures FromU32(b) == x <==> b == U32(x)
  {
    U32RoundTrip(x);
    WriteBack(b);
    hide *;
  }

  lemma WriteBack(b: seq<octet>)
    requires |b| == 4
    ensures U32(FromU32(b)) == b
  {
    JoinBytes(b[0], b[1], b[2], b[3]);
    hide U32, Join;
    assert b == [b[0], b[1], b[2], b[3]];
  }

  lemma JoinBytes(a: octet, b: octet, c: octet, d: octet)
    ensures U32(Join(a, b, c, d)) == [a, b, c, d]
  {
    SplitJoin(a, b, c, d);
    hide Join, Low8;
  }

  lemma SplitJoin(a: octet, b: octet, c: octet, d: octet)
    ensures var x := Join(a, b, c, d);
      Low8(x) == a && Low8(x >> 8) == b && Low8(x >> 16) == c && Low8(x >> 24) == d
  {
  }
}

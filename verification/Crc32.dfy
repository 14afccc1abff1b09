/**
 CRC-32/ISO-HDLC: the lazily built table and the byte loop over it, against the
 bit-serial shift register that defines the code (section 8 of RFC 1952 gives the
 polynomial and the reflected bit order).

 Table.Update is proved equal to the serial register for every state and message,
 UpdateConcat shows that updates compose over every split, and ByteErrorDetected that
 a change of any one byte of any message changes the result.
 */
module Crc32 {
  type octet = bv8

  const INIT: bv32 := 0xFFFF_FFFF

  function Xor(x: bv32, y: bv32): bv32 { x ^ y }
  function Wide(b: octet): bv32 { b as bv32 }
  function Finalize(c: bv32): bv32 { c ^ 0xFFFF_FFFF }

  // ----- the bit-serial definition -----

  /** Shift one bit out of the register, feeding it back through the polynomial. */
  function Shift(c: bv32): bv32
  {
    if c & 1 == 1 then 0xEDB8_8320 ^ (c >> 1) else c >> 1
  }

  /** Feed one message bit, the low bit of b, into the low end of the register. */
  function SerialBit(c: bv32, b: octet): bv32
  {
    Shift(Xor(c, LastBit(b)))
  }

  function LastBit(b: octet): bv32 { (b & 1) as bv32 }

  /** Feed n bits of a byte, least significant first. */
  function SerialBits(c: bv32, b: octet, n: nat): bv32
    decreases n
  {
    if n == 0 then c else SerialBits(SerialBit(c, b), b >> 1, n - 1)
  }

  /** Feed a whole message. */
  function Serial(c: bv32, data: seq<octet>): bv32
  {
    if data == [] then c else SerialByte(Serial(c, data[..|data| - 1]), data[|data| - 1])
  }

  function SerialByte(c: bv32, b: octet): bv32
  {
    SerialBits(c, b, BYTE_BITS)
  }

  const BYTE_BITS: nat := 8

  // ----- the table-driven form -----

  function Shifts(c: bv32, n: nat): bv32
    decreases n
  {
    if n == 0 then c else Shifts(Shift(c), n - 1)
  }

  function Entry(i: bv32): bv32
  {
    Shifts(i, BYTE_BITS)
  }

  ghost predicate FilledTo(t: seq<bv32>, n: bv32)
  {
    |t| == 256 && forall i: bv32 :: i < n && i < 256 ==> 0 <= i as int < 256 && t[i as int] == Entry(i)
  }

  class Table {
    const entries: array<bv32>
    var ready: bool

    ghost predicate Valid()
      reads this, entries
    {
      entries.Length == 256 && (ready ==> FilledTo(entries[..], 256))
    }

    constructor ()
      ensures Valid() && !ready && fresh(entries)
    {
      entries := new bv32[256](_ => 0);
      ready := false;
    }

    method BuildTable()
      requires Valid()
      modifies this`ready, entries
      ensures Valid() && ready
    {
      hide Entry;
      var i: bv32 := 0;
      while i < 256
        invariant i <= 256 && entries.Length == 256
        invariant FilledTo(entries[..], i)
        decreases 256 - i as int
      {
        var c := FillEntry(i);
        CounterStep(i);
        ghost var before := entries[..];
        entries[i as int] := c;
        assert entries[..] == before[i as int := c];
        FilledStep(before, i, c);
        i := i + 1;
      }
      ready := true;
    }

    static method FillEntry(i: bv32) returns (c: bv32)
      ensures c == Entry(i)
    {
      hide Shift;
      c := i;
      for k := 0 to BYTE_BITS
        invariant Shifts(c, BYTE_BITS - k) == Entry(i)
      {
        c := Shift(c);
      }
    }

    /** The streaming update of any register by any chunk. */
    method Update(crc: bv32, data: seq<octet>) returns (r: bv32)
      requires Valid()
      modifies this`ready, entries
      ensures Valid() && ready
      ensures r == Serial(crc, data)
    {
      hide SerialByte, Entry;
      if !ready {
        BuildTable();
      }
      r := crc;
      for i := 0 to |data|
        invariant Valid() && ready && r == Serial(crc, data[..i])
      {
        var index := Low(Xor(r, Wide(data[i])));
        LowRange(Xor(r, Wide(data[i])));
        TableStep(r, data[i]);
        assert data[..i + 1][..i] == data[..i];
        r := Xor(entries[index as int], r >> 8);
      }
      assert data[..|data|] == data;
    }
  }

  function Low(c: bv32): bv32 { c & 0xFF }

  lemma LowRange(c: bv32)
    ensures Low(c) < 256 && 0 <= Low(c) as int < 256
  {
  }

  lemma CounterStep(i: bv32)
    requires i < 256
    ensures i + 1 <= 256 && 0 <= i as int < 256 && (i + 1) as int == i as int + 1
  {
  }

  lemma IndexApart(i: bv32, j: bv32)
    requires i < 256 && j < 256 && i != j
    ensures 0 <= i as int < 256 && 0 <= j as int < 256 && i as int != j as int
  {
    IndexRange(i);
    IndexRange(j);
    if i < j {
      IndexOrdered(i, j);
    } else {
      IndexOrdered(j, i);
    }
  }

  lemma IndexOrdered(i: bv32, j: bv32)
    requires i < j < 256
    ensures i as int != j as int
  {
  }

  lemma IndexRange(i: bv32)
    requires i < 256
    ensures 0 <= i as int < 256
  {
  }

  lemma BelowStep(i: bv32, j: bv32)
    requires i < 256 && j < i + 1
    ensures j < i || j == i
  {
  }

  function Index(i: bv32): nat { i as int }

  lemma IndexBound(i: bv32)
    requires i < 256
    ensures Index(i) < 256
  {
  }

  lemma IndexDiffers(i: bv32, j: bv32)
    requires i < 256 && j < 256 && i != j
    ensures Index(i) != Index(j)
  {
    IndexApart(i, j);
  }

  lemma FilledAt(t: seq<bv32>, i: bv32, j: bv32)
    requires FilledTo(t, i) && j < i && j < 256
    ensures |t| == 256 && Index(j) < 256 && t[Index(j)] == Entry(j)
  {
    hide Entry;
  }

  lemma FilledBy(t: seq<bv32>, n: bv32)
    requires |t| == 256 && forall i: bv32 :: i < n && i < 256 ==> Index(i) < 256 && t[Index(i)] == Entry(i)
    ensures FilledTo(t, n)
  {
    hide Entry;
    forall i: bv32 | i < n && i < 256 ensures 0 <= i as int < 256 && t[i as int] == Entry(i) {
      assert t[Index(i)] == Entry(i);
    }
  }

  lemma FilledStep(t: seq<bv32>, i: bv32, c: bv32)
    requires |t| == 256 && i < 256 && FilledTo(t, i) && c == Entry(i) && Index(i) < 256
    ensures FilledTo(t[Index(i) := c], i + 1)
  {
    hide *;
    var t' := t[Index(i) := c];
    forall j: bv32 | j < i + 1 && j < 256
      ensures Index(j) < 256 && t'[Index(j)] == Entry(j)
    {
      IndexBound(j);
      BelowStep(i, j);
      if j != i {
        IndexDiffers(i, j);
        FilledAt(t, i, j);
      }
    }
    FilledBy(t', i + 1);
  }

  // ----- bit-level facts -----

  lemma XorShift(x: bv32, y: bv32)
    ensures (x ^ y) >> 1 == (x >> 1) ^ (y >> 1) && (x ^ y) & 1 == (x & 1) ^ (y & 1)
  {
  }

  lemma LowBit(x: bv32)
    ensures x & 1 == 0 || x & 1 == 1
  {
  }

  lemma PolyCancels(p: bv32, x: bv32, y: bv32)
    ensures (p ^ x) ^ (p ^ y) == x ^ y && p ^ (x ^ y) == (p ^ x) ^ y && p ^ (x ^ y) == x ^ (p ^ y)
  {
  }

  lemma ShiftLinear(x: bv32, y: bv32)
    ensures Shift(Xor(x, y)) == Xor(Shift(x), Shift(y))
  {
    XorShift(x, y);
    LowBit(x);
    LowBit(y);
    PolyCancels(0xEDB8_8320, x >> 1, y >> 1);
  }

  lemma {:induction false} ShiftsLinear(x: bv32, y: bv32, n: nat)
    ensures Shifts(Xor(x, y), n) == Xor(Shifts(x, n), Shifts(y, n))
    decreases n
  {
    hide Shift, Xor;
    if n > 0 {
      ShiftLinear(x, y);
      ShiftsLinear(Shift(x), Shift(y), n - 1);
    }
  }

  function Halved(b: octet, n: nat): octet
    decreases n
  {
    if n == 0 then b else Halved(b >> 1, n - 1)
  }

  function EvenPart(b: octet): bv32 { (b & 0xFE) as bv32 }

  lemma SplitByte(c: bv32, b: octet)
    ensures Xor(c, Wide(b)) == Xor(Xor(c, LastBit(b)), EvenPart(b))
  {
  }

  lemma EvenShift(b: octet)
    ensures Shift(EvenPart(b)) == Wide(b >> 1)
  {
  }

  lemma BitStep(c: bv32, b: octet)
    ensures Shift(Xor(c, Wide(b))) == Xor(SerialBit(c, b), Wide(b >> 1))
  {
    hide Shift, Xor, Wide, LastBit, EvenPart;
    SplitByte(c, b);
    EvenShift(b);
    ShiftLinear(Xor(c, LastBit(b)), EvenPart(b));
  }

  /** Feeding bits one by one is XORing the byte in first and then shifting. */
  lemma {:induction false} BitsThenShift(c: bv32, b: octet, n: nat)
    ensures Shifts(Xor(c, Wide(b)), n) == Xor(SerialBits(c, b, n), Wide(Halved(b, n)))
    decreases n
  {
    hide Shift, SerialBit, Xor, Wide;
    if n > 0 {
      BitStep(c, b);
      BitsThenShift(SerialBit(c, b), b >> 1, n - 1);
    }
  }

  lemma EightHalves(b: octet)
    ensures b >> 1 >> 1 >> 1 >> 1 >> 1 >> 1 >> 1 >> 1 == 0
  {
  }

  lemma HalvedAway(b: octet)
    ensures Halved(b, BYTE_BITS) == 0
  {
    EightHalves(b);
    assert Halved(b, 8) == Halved(b >> 1, 7) == Halved(b >> 1 >> 1, 6) == Halved(b >> 1 >> 1 >> 1, 5);
  }

  lemma XorZero(c: bv32)
    ensures Xor(c, Wide(0)) == c
  {
  }

  lemma SerialByteIsShifts(c: bv32, b: octet)
    ensures SerialByte(c, b) == Shifts(Xor(c, Wide(b)), BYTE_BITS)
  {
    hide Shifts, SerialBits, Halved, Xor, Wide;
    BitsThenShift(c, b, BYTE_BITS);
    HalvedAway(b);
    XorZero(SerialBits(c, b, BYTE_BITS));
  }

  /** A register whose low n bits are zero just moves down. */
  function Dropped(c: bv32, n: nat): bv32
    decreases n
  {
    if n == 0 then c else Dropped(Half(c), n - 1)
  }

  predicate Clear(c: bv32, n: nat)
    decreases n
  {
    n == 0 || (Even(c) && Clear(Half(c), n - 1))
  }

  lemma {:induction false} ShiftsClear(c: bv32, n: nat)
    requires Clear(c, n)
    ensures Shifts(c, n) == Dropped(c, n)
    decreases n
  {
    if n > 0 {
      ShiftsClear(Half(c), n - 1);
    }
  }

  function High(c: bv32): bv32 { c & 0xFFFF_FF00 }

  predicate Even(c: bv32) { c & 1 == 0 }

  function Half(c: bv32): bv32 { c >> 1 }

  lemma HighBits(c: bv32)
    ensures var h := High(c);
            var h1 := Half(h); var h2 := Half(h1); var h3 := Half(h2); var h4 := Half(h3);
            var h5 := Half(h4); var h6 := Half(h5); var h7 := Half(h6);
            Even(h) && Even(h1) && Even(h2) && Even(h3) && Even(h4) && Even(h5) && Even(h6) && Even(h7)
            && Half(h7) == c >> 8
  {
  }

  lemma HighByteClear(c: bv32)
    ensures Clear(High(c), BYTE_BITS) && Dropped(High(c), BYTE_BITS) == c >> 8
  {
    hide High, Even, Half;
    HighBits(c);
    var h := High(c);
    var h1 := Half(h); var h2 := Half(h1); var h3 := Half(h2); var h4 := Half(h3);
    var h5 := Half(h4); var h6 := Half(h5); var h7 := Half(h6);
    assert Clear(h7, 1) && Clear(h6, 2) && Clear(h5, 3) && Clear(h4, 4);
    assert Clear(h3, 5) && Clear(h2, 6) && Clear(h1, 7) && Clear(h, 8);
    assert Dropped(h, 8) == Dropped(h1, 7) == Dropped(h2, 6) == Dropped(h3, 5) == Dropped(h4, 4);
    assert Dropped(h4, 4) == Dropped(h5, 3) == Dropped(h6, 2) == Dropped(h7, 1) == Half(h7);
  }

  lemma LowHigh(c: bv32)
    ensures Xor(Low(c), High(c)) == c
  {
  }

  /** Eight shifts only look up the low byte; the rest moves down. */
  lemma ShiftsByTable(c: bv32)
    ensures Shifts(c, BYTE_BITS) == Xor(Entry(Low(c)), c >> 8)
  {
    hide Shift, Shifts, Clear, Dropped, Xor, Low, High;
    LowHigh(c);
    ShiftsLinear(Low(c), High(c), BYTE_BITS);
    HighByteClear(c);
    ShiftsClear(High(c), BYTE_BITS);
  }

  lemma ByteStaysLow(c: bv32, b: octet)
    ensures Xor(c, Wide(b)) >> 8 == c >> 8
  {
  }

  lemma TableStep(c: bv32, b: octet)
    ensures SerialByte(c, b) == Xor(Entry(Low(Xor(c, Wide(b)))), c >> 8)
  {
    hide Shifts, SerialByte, Entry, Xor, Wide, Low;
    SerialByteIsShifts(c, b);
    ShiftsByTable(Xor(c, Wide(b)));
    ByteStaysLow(c, b);
  }

  /** Updates compose over every split of the message. */
  lemma {:induction false} UpdateConcat(c: bv32, x: seq<octet>, y: seq<octet>)
    ensures Serial(c, x + y) == Serial(Serial(c, x), y)
  {
    hide SerialByte;
    if y == [] {
      assert x + y == x;
    } else {
      UpdateConcat(c, x, y[..|y| - 1]);
      assert (x + y)[..|x + y| - 1] == x + y[..|y| - 1];
    }
  }

  // ----- what the checksum detects -----

  lemma TopBitApart(x: bv32, y: bv32)
    ensures 0xEDB8_8320 ^ (x >> 1) != y >> 1
  {
  }

  lemma ShiftInjective(x: bv32, y: bv32)
    requires Shift(x) == Shift(y)
    ensures x == y
  {
    LowBit(x);
    LowBit(y);
    TopBitApart(x, y);
    TopBitApart(y, x);
    Rejoin(x, y);
  }

  lemma Rejoin(x: bv32, y: bv32)
    ensures x & 1 == y & 1 && x >> 1 == y >> 1 ==> x == y
    ensures 0xEDB8_8320 ^ (x >> 1) == 0xEDB8_8320 ^ (y >> 1) ==> x >> 1 == y >> 1
  {
  }

  lemma {:induction false} ShiftsInjective(x: bv32, y: bv32, n: nat)
    requires Shifts(x, n) == Shifts(y, n)
    ensures x == y
    decreases n
  {
    hide Shift;
    if n > 0 {
      ShiftsInjective(Shift(x), Shift(y), n - 1);
      ShiftInjective(x, y);
    }
  }

  lemma XorInjective(x: bv32, y: bv32, w: bv32)
    ensures Xor(x, w) == Xor(y, w) ==> x == y
    ensures Xor(w, x) == Xor(w, y) ==> x == y
  {
    XorBack(x, w);
    XorBack(y, w);
  }

  lemma XorBack(x: bv32, w: bv32)
    ensures (x ^ w) ^ w == x && (w ^ x) ^ w == x
  {
  }

  lemma SerialByteInjective(u: bv32, v: bv32, b: octet)
    requires SerialByte(u, b) == SerialByte(v, b)
    ensures u == v
  {
    hide SerialByte, Shifts, Xor, Wide;
    SerialByteIsShifts(u, b);
    SerialByteIsShifts(v, b);
    ShiftsInjective(Xor(u, Wide(b)), Xor(v, Wide(b)), BYTE_BITS);
    XorInjective(u, v, Wide(b));
  }

  /** Different registers stay different under a common suffix. */
  lemma {:induction false} SuffixKeepsApart(x: bv32, y: bv32, data: seq<octet>)
    requires x != y
    ensures Serial(x, data) != Serial(y, data)
  {
    hide SerialByte;
    if data != [] {
      var init, b := data[..|data| - 1], data[|data| - 1];
      SuffixKeepsApart(x, y, init);
      if SerialByte(Serial(x, init), b) == SerialByte(Serial(y, init), b) {
        SerialByteInjective(Serial(x, init), Serial(y, init), b);
      }
    }
  }

  /** Any error confined to one byte, anywhere in any message, is seen. */
  lemma ByteErrorDetected(c: bv32, pre: seq<octet>, x: octet, y: octet, post: seq<octet>)
    requires x != y
    ensures Serial(c, pre + [x] + post) != Serial(c, pre + [y] + post)
  {
    hide SerialByte, Shifts, Xor, Wide;
    UpdateConcat(c, pre + [x], post);
    UpdateConcat(c, pre + [y], post);
    assert (pre + [x])[..|pre|] == pre && (pre + [y])[..|pre|] == pre;
    var r := Serial(c, pre);
    SerialByteIsShifts(r, x);
    SerialByteIsShifts(r, y);
    WideInjective(x, y);
    if SerialByte(r, x) == SerialByte(r, y) {
      ShiftsInjective(Xor(r, Wide(x)), Xor(r, Wide(y)), BYTE_BITS);
      XorInjective(Wide(x), Wide(y), r);
    }
    SuffixKeepsApart(SerialByte(r, x), SerialByte(r, y), post);
  }

  lemma WideInjective(x: octet, y: octet)
    requires x != y
    ensures Wide(x) != Wide(y)
  {
  }

  // ----- the published constants -----

  function Low8(x: bv32): octet { (x & 0xFF) as bv8 }

  /** A word's bytes, low byte first. */
  function U32(x: bv32): (b: seq<octet>)
    ensures |b| == 4
  {
    [Low8(x), Low8(x >> 8), Low8(x >> 16), Low8(x >> 24)]
  }

  function Rest(x: bv32): bv32 { x >> 8 }

  lemma WideLow(x: bv32)
    ensures Wide(Low8(x)) == Low(x)
  {
  }

  lemma LowMixes(c: bv32, x: bv32)
    ensures Low(Xor(c, Low(x))) == Low(Xor(c, x)) && Rest(Xor(c, x)) == Xor(Rest(c), Rest(x))
  {
  }

  lemma XorAssociates(x: bv32, y: bv32, z: bv32)
    ensures Xor(Xor(x, y), z) == Xor(x, Xor(y, z))
  {
  }

  /** Feeding the low byte of a word leaves the rest of the word to be mixed in. */
  lemma WordMoves(c: bv32, x: bv32)
    ensures Xor(SerialByte(c, Low8(x)), Rest(x)) == Fed(Xor(c, x))
  {
    hide *;
    var b := Low8(x);
    FedByte(c, b);
    FedByTable(Xor(c, Wide(b)));
    FedByTable(Xor(c, x));
    RestStays(c, b);
    WideLow(x);
    LowMixes(c, x);
    XorAssociates(Entry(Low(Xor(c, x))), Rest(c), Rest(x));
  }

  lemma FedByte(c: bv32, b: octet)
    ensures SerialByte(c, b) == Fed(Xor(c, Wide(b)))
  {
    hide Shifts, SerialByte, Xor, Wide;
    SerialByteIsShifts(c, b);
  }

  lemma FedByTable(c: bv32)
    ensures Fed(c) == Xor(Entry(Low(c)), Rest(c))
  {
    hide Shifts, Xor, Low;
    ShiftsByTable(c);
  }

  lemma RestStays(c: bv32, b: octet)
    ensures Rest(Xor(c, Wide(b))) == Rest(c)
  {
    hide Xor, Wide;
    ByteStaysLow(c, b);
  }

  lemma WordBytes(x: bv32)
    ensures U32(x) == [Low8(x), Low8(Rest(x)), Low8(Rest(Rest(x))), Low8(Rest(Rest(Rest(x))))]
  {
    WordShifts(x);
    hide Low8;
  }

  lemma WordShifts(x: bv32)
    ensures Rest(Rest(x)) == x >> 16 && Rest(Rest(Rest(x))) == x >> 24 && Rest(Rest(Rest(Rest(x)))) == 0
  {
  }

  function Fed(c: bv32): bv32 { Shifts(c, BYTE_BITS) }

  lemma XorNothing(c: bv32)
    ensures Xor(c, 0) == c
  {
  }

  /** Feeding a word's four bytes is mixing the word in and shifting all of it out. */
  lemma WordFed(c: bv32, x: bv32)
    ensures Serial(c, U32(x)) == Fed(Fed(Fed(Fed(Xor(c, x)))))
  {
    hide *;
    var x1, x2, x3 := Rest(x), Rest(Rest(x)), Rest(Rest(Rest(x)));
    var c1 := SerialByte(c, Low8(x));
    var c2 := SerialByte(c1, Low8(x1));
    var c3 := SerialByte(c2, Low8(x2));
    var c4 := SerialByte(c3, Low8(x3));
    WordMoves(c, x);
    WordMoves(c1, x1);
    WordMoves(c2, x2);
    WordMoves(c3, x3);
    WordShifts(x);
    XorNothing(c4);
    WordBytes(x);
    FourBytes(c, Low8(x), Low8(x1), Low8(x2), Low8(x3));
  }

  lemma SerialSnoc(c: bv32, data: seq<octet>, b: octet)
    ensures Serial(c, data + [b]) == SerialByte(Serial(c, data), b)
  {
    hide SerialByte;
    assert (data + [b])[..|data|] == data;
  }

  lemma FourBytes(c: bv32, p: octet, q: octet, r: octet, t: octet)
    ensures Serial(c, [p, q, r, t]) == SerialByte(SerialByte(SerialByte(SerialByte(c, p), q), r), t)
  {
    hide *;
    SerialSnoc(c, [], p);
    SerialSnoc(c, [p], q);
    SerialSnoc(c, [p, q], r);
    SerialSnoc(c, [p, q, r], t);
    NothingFed(c);
    assert [] + [p] == [p] && [p] + [q] == [p, q] && [p, q] + [r] == [p, q, r] && [p, q, r] + [t] == [p, q, r, t];
  }

  lemma NothingFed(c: bv32)
    ensures Serial(c, []) == c
  {
  }

  lemma Complement(c: bv32)
    ensures Xor(c, Finalize(c)) == 0xFFFF_FFFF
  {
  }

  lemma ShiftedEight(c: bv32, d: bv32)
    requires Shift(Shift(Shift(Shift(Shift(Shift(Shift(Shift(c)))))))) == d
    ensures Shifts(c, BYTE_BITS) == d
  {
    hide Shift;
    var c4 := Shift(Shift(Shift(Shift(c))));
    assert Shifts(c, 8) == Shifts(Shift(c), 7) == Shifts(Shift(Shift(c)), 6) == Shifts(Shift(Shift(Shift(c))), 5);
    assert Shifts(c4, 4) == Shifts(Shift(c4), 3) == Shifts(Shift(Shift(c4)), 2) == Shifts(Shift(Shift(Shift(c4))), 1);
  }

  /** The residue: a message followed by its own CRC, low byte first, always leaves the same register. */
  lemma Residue(payload: seq<octet>)
    ensures Serial(0xFFFF_FFFF, payload + U32(Finalize(Serial(0xFFFF_FFFF, payload)))) == 0xDEBB_20E3
  {
    hide Shift, Shifts, SerialByte, Xor, Finalize, U32;
    var c := Serial(0xFFFF_FFFF, payload);
    UpdateConcat(0xFFFF_FFFF, payload, U32(Finalize(c)));
    WordFed(c, Finalize(c));
    Complement(c);
    AllOnesFed();
  }

  lemma AllOnesFed()
    ensures Fed(Fed(Fed(Fed(0xFFFF_FFFF)))) == 0xDEBB_20E3
  {
    hide Shifts;
    ShiftedEight(0xFFFF_FFFF, 0x2DFD_1072);
    ShiftedEight(0x2DFD_1072, 0xBE26_ED00);
    ShiftedEight(0xBE26_ED00, 0x00BE_26ED);
    ShiftedEight(0x00BE_26ED, 0xDEBB_20E3);
  }

  lemma ByteFed(c: bv32, b: octet, d: bv32)
    requires Shift(Shift(Shift(Shift(Shift(Shift(Shift(Shift(Xor(c, Wide(b)))))))))) == d
    ensures SerialByte(c, b) == d
  {
    hide Shift, Shifts, Xor, Wide;
    SerialByteIsShifts(c, b);
    ShiftedEight(Xor(c, Wide(b)), d);
  }

  /** The check value: the CRC of the nine digits. */
  lemma CheckValue()
    ensures Finalize(Serial(0xFFFF_FFFF, [0x31, 0x32, 0x33, 0x34, 0x35, 0x36, 0x37, 0x38, 0x39])) == 0xCBF4_3926
  {
    hide SerialByte;
    var s := [0x31, 0x32, 0x33, 0x34, 0x35, 0x36, 0x37, 0x38, 0x39];
    assert s[..0] == [];
    DigitFed(s, 0, 0xFFFF_FFFF, 0x7C23_1048);
    DigitFed(s, 1, 0x7C23_1048, 0xB0AC_BB32);
    DigitFed(s, 2, 0xB0AC_BB32, 0x77B7_9C2D);
    DigitFed(s, 3, 0x77B7_9C2D, 0x641C_1F5C);
    DigitFed(s, 4, 0x641C_1F5C, 0x340A_C5E3);
    DigitFed(s, 5, 0x340A_C5E3, 0xF68D_2C9E);
    DigitFed(s, 6, 0xF68D_2C9E, 0xAFFC_9660);
    DigitFed(s, 7, 0xAFFC_9660, 0x651F_2550);
    DigitFed(s, 8, 0x651F_2550, 0x340B_C6D9);
    assert s[..9] == s;
  }

  lemma DigitFed(s: seq<octet>, i: nat, c: bv32, d: bv32)
    requires i < |s| && Serial(0xFFFF_FFFF, s[..i]) == c
    requires Shift(Shift(Shift(Shift(Shift(Shift(Shift(Shift(Xor(c, Wide(s[i])))))))))) == d
    ensures Serial(0xFFFF_FFFF, s[..i + 1]) == d
  {
    hide Shift, SerialByte, Xor, Wide;
    ByteFed(c, s[i], d);
    assert s[..i + 1][..i] == s[..i];
  }
}

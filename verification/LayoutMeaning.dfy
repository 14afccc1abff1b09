/**
 The wire layouts with every address written out: where each source byte stands in the
 packed tensor (PackedByte) and in the stream the kernel is fed (StreamBytesAt).
 */
module LayoutMeaning {
  import opened Common
  import opened Layout

  /** Byte j of block q1 of a row of the source tensor, zero past the last row. */
  function SourceByte(q: Q1, row: nat, q1: nat, j: nat): byte
    requires q.Valid() && q1 < q.bpr && j < 18
  {
    if row < q.rows then BlockIndex(row, q1, q.rows, q.bpr); q.w[18 * (row * q.bpr + q1) + j] else 0
  }

  lemma SourceIs(q: Q1, row: nat, q1: nat, j: nat)
    requires q.Valid() && q1 < q.bpr && j < 18
    ensures q.Byte(row, q1, j) == SourceByte(q, row, q1, j)
  {
  }

  /**
   The packed tensor: block q1 of rowblock rb starts at 144 * (rb * bpr + q1); scales stand
   two bytes to a lane, then for each of four sub-blocks the weight bits four bytes to a lane.
   */
  lemma PackedByte(q: Q1, rb: nat, q1: nat, lane: nat, j: nat)
    requires q.Valid() && rb < (q.rows + 7) / 8 && q1 < q.bpr && lane < 8 && j < 18
    ensures
      var place := if j < 2 then 2 * lane + j else 16 + (j - 2) / 4 * 32 + 4 * lane + (j - 2) % 4;
      var at := 144 * (rb * q.bpr + q1) + place;
      var packed := q.Packed(q.Total());
      && |packed| == 144 * ((q.rows + 7) / 8 * q.bpr)
      && at < |packed| && packed[at] == SourceByte(q, 8 * rb + lane, q1, j)
  {
    hide Q1.Packed, Q1.Block, PlaceOf, Q1.Byte, SourceByte, Q1.Valid;
    BlockReads(q, rb, q1);
    AddressLaw(q.bpr, rb, q1);
    BlockBytes(q, rb, q1, lane, j);
    SourceIs(q, 8 * rb + lane, q1, j);
    PlaceIs(lane, j);
    var a := 144 * (rb * q.bpr + q1);
    assert q.Packed(q.Total())[a..a + 144][PlaceOf(lane, j)] == q.Packed(q.Total())[a + PlaceOf(lane, j)];
  }

  lemma PlaceIs(lane: nat, j: nat)
    requires lane < 8 && j < 18
    ensures PlaceOf(lane, j) == if j < 2 then 2 * lane + j else 16 + (j - 2) / 4 * 32 + 4 * lane + (j - 2) % 4
  {
  }

  // ----- the stream -----

  /** One block of the stream. */
  function BlockOf(q: Q1, a: Acts, b: nat): (s: seq<byte>)
    requires q.Valid() && q.bpr > 0 && a.Valid(q.bpr)
    ensures |s| == 304
  {
    StreamLength(q, a, b / q.bpr, b % q.bpr, 4);
    q.ScaleSeg(b / q.bpr, b % q.bpr) + StreamSubs(q, a, b / q.bpr, b % q.bpr, 4)
  }

  lemma StreamSnoc(q: Q1, a: Acts, n: nat)
    requires q.Valid() && q.bpr > 0 && a.Valid(q.bpr) && n > 0
    ensures Stream(q, a, n) == Stream(q, a, n - 1) + BlockOf(q, a, n - 1)
  {
    hide Q1.ScaleSeg, StreamSubs, Q1.Valid, Acts.Valid;
  }

  lemma {:induction false} StreamAt(q: Q1, a: Acts, n: nat, b: nat)
    requires q.Valid() && q.bpr > 0 && a.Valid(q.bpr) && b < n
    ensures Stream(q, a, n)[304 * b..304 * b + 304] == BlockOf(q, a, b)
  {
    hide Stream, BlockOf, Q1.Valid, Acts.Valid;
    StreamSnoc(q, a, n);
    if b < n - 1 {
      StreamAt(q, a, n - 1, b);
      SliceInit(Stream(q, a, n - 1), BlockOf(q, a, n - 1), 304 * b, 304 * b + 304);
    } else {
      SliceLast(Stream(q, a, n - 1), BlockOf(q, a, n - 1), 304 * b, 304 * b + 304);
    }
  }

  lemma {:induction false} SubsAt(q: Q1, a: Acts, rb: nat, q1: nat, n: nat, sub: nat)
    requires q.Valid() && a.Valid(q.bpr) && q1 < q.bpr && sub < n <= 4
    ensures |StreamSubs(q, a, rb, q1, n)| == 72 * n
    ensures StreamSubs(q, a, rb, q1, n)[72 * sub..72 * sub + 72] == a.Sub(q.bpr, q1, sub) + q.WbitsSeg(rb, q1, sub)
  {
    hide Q1.WbitsSeg, Acts.Sub, Q1.Valid, Acts.Valid;
    StreamLength(q, a, rb, q1, n - 1);
    StreamLength(q, a, rb, q1, n);
    var init, last := StreamSubs(q, a, rb, q1, n - 1), a.Sub(q.bpr, q1, n - 1) + q.WbitsSeg(rb, q1, n - 1);
    if sub < n - 1 {
      SubsAt(q, a, rb, q1, n - 1, sub);
      SliceInit(init, last, 72 * sub, 72 * sub + 72);
    } else {
      SliceLast(init, last, 72 * sub, 72 * sub + 72);
    }
  }

  function Pow256(j: nat): (p: nat)
    ensures p > 0
  {
    if j == 0 then 1 else 256 * Pow256(j - 1)
  }

  /** Byte j of a little-endian number. */
  function ByteOfNumber(v: nat, j: nat): byte
  {
    v / Pow256(j) % 256
  }

  /** Byte i of a block of the stream: scales, then four sub-blocks of activations, scale beat and weight bits. */
  function StreamByte(q: Q1, a: Acts, rb: nat, q1: nat, i: nat): byte
    requires q.Valid() && a.Valid(q.bpr) && q1 < q.bpr && i < 304
  {
    if i < 16 then SourceByte(q, 8 * rb + i / 2, q1, i % 2)
    else
      var sub, j := (i - 16) / 72, (i - 16) % 72;
      if j < 32 then a.quants[128 * q1 + 32 * sub + j]
      else if j < 40 then ByteOfNumber(a.scales[4 * q1 + sub], j - 32)
      else SourceByte(q, 8 * rb + (j - 40) / 4, q1, 2 + 4 * sub + (j - 40) % 4)
  }

  lemma {:induction false} LeByte(v: nat, n: nat, j: nat)
    requires j < n
    ensures LeBytes(v, n)[j] == ByteOfNumber(v, j)
  {
    if j > 0 {
      LeByte(v / 256, n - 1, j - 1);
      DivTwice(v, Pow256(j - 1));
    }
  }

  lemma DivTwice(v: nat, p: nat)
    requires p > 0
    ensures v / 256 / p == v / (256 * p)
  {
    var q := v / 256 / p;
    var m := 256 * p;
    assert v / 256 == q * p + v / 256 % p;
    assert q * m == 256 * (q * p);
    assert q * m <= v < q * m + m;
    QuotientIs(v, m, q);
  }

  lemma ScaleAt(q: Q1, rb: nat, q1: nat, i: nat)
    requires q.Valid() && q1 < q.bpr && i < 16
    ensures q.ScaleSeg(rb, q1)[i] == SourceByte(q, 8 * rb + i / 2, q1, i % 2)
  {
    hide SourceByte, Q1.Byte;
    SourceIs(q, 8 * rb + i / 2, q1, i % 2);
  }

  lemma WbitsAt(q: Q1, rb: nat, q1: nat, sub: nat, i: nat)
    requires q.Valid() && q1 < q.bpr && sub < 4 && i < 32
    ensures q.WbitsSeg(rb, q1, sub)[i] == SourceByte(q, 8 * rb + i / 4, q1, 2 + 4 * sub + i % 4)
  {
    hide SourceByte, Q1.Byte;
    SourceIs(q, 8 * rb + i / 4, q1, 2 + 4 * sub + i % 4);
  }

  lemma SubAt(a: Acts, bpr: nat, q1: nat, sub: nat, j: nat)
    requires a.Valid(bpr) && q1 < bpr && sub < 4 && j < 40
    ensures a.Sub(bpr, q1, sub)[j] ==
      if j < 32 then a.quants[128 * q1 + 32 * sub + j] else ByteOfNumber(a.scales[4 * q1 + sub], j - 32)
  {
    hide LeBytes, ByteOfNumber;
    if j >= 32 {
      LeByte(a.scales[4 * q1 + sub], 8, j - 32);
    }
  }

  lemma BlockAt(q: Q1, a: Acts, rb: nat, q1: nat, i: nat)
    requires q.Valid() && q.bpr > 0 && a.Valid(q.bpr) && q1 < q.bpr && i < 304
    ensures |StreamSubs(q, a, rb, q1, 4)| == 288
    ensures (q.ScaleSeg(rb, q1) + StreamSubs(q, a, rb, q1, 4))[i] == StreamByte(q, a, rb, q1, i)
  {
    hide Q1.ScaleSeg, Q1.WbitsSeg, StreamSubs, Acts.Sub, SourceByte, ByteOfNumber, Q1.Valid, Acts.Valid;
    StreamLength(q, a, rb, q1, 4);
    if i < 16 {
      ScaleAt(q, rb, q1, i);
    } else {
      var sub, j := (i - 16) / 72, (i - 16) % 72;
      SubsAt(q, a, rb, q1, 4, sub);
      var t := StreamSubs(q, a, rb, q1, 4);
      assert t[i - 16] == t[72 * sub..72 * sub + 72][j] == (a.Sub(q.bpr, q1, sub) + q.WbitsSeg(rb, q1, sub))[j];
      if j < 40 {
        SubAt(a, q.bpr, q1, sub, j);
      } else {
        WbitsAt(q, rb, q1, sub, j - 40);
      }
    }
  }

  /** One column's stream: block q1 of rowblock rb is block b = rb * bpr + q1, and starts at 304 * b. */
  lemma StreamBytesAt(q: Q1, a: Acts, rb: nat, q1: nat, b: nat, i: nat)
    requires q.Valid() && q.bpr > 0 && a.Valid(q.bpr) && rb < (q.rows + 7) / 8 && q1 < q.bpr && i < 304
    requires b == rb * q.bpr + q1
    ensures b < q.Total() == (q.rows + 7) / 8 * q.bpr
    ensures |Stream(q, a, q.Total())| == 304 * q.Total()
    ensures Stream(q, a, q.Total())[304 * b + i] == StreamByte(q, a, rb, q1, i)
  {
    hide *;
    BlockInside(q, rb, q1);
    StreamSize(q, a, q.Total());
    BlockOfAt(q, a, rb, q1, i);
    StreamAt(q, a, q.Total(), b);
    var s := Stream(q, a, q.Total());
    assert s[304 * b..304 * b + 304][i] == s[304 * b + i];
  }

  lemma BlockInside(q: Q1, rb: nat, q1: nat)
    requires rb < (q.rows + 7) / 8 && q1 < q.bpr
    ensures rb * q.bpr + q1 < q.Total() == (q.rows + 7) / 8 * q.bpr
  {
    BlockIndex(rb, q1, Rowblocks(q.rows), q.bpr);
  }

  lemma StreamSize(q: Q1, a: Acts, n: nat)
    requires q.Valid() && q.bpr > 0 && a.Valid(q.bpr)
    ensures |Stream(q, a, n)| == 304 * n
  {
    hide Q1.Valid, Acts.Valid;
  }

  lemma BlockOfAt(q: Q1, a: Acts, rb: nat, q1: nat, i: nat)
    requires q.Valid() && q.bpr > 0 && a.Valid(q.bpr) && q1 < q.bpr && i < 304
    ensures BlockOf(q, a, rb * q.bpr + q1)[i] == StreamByte(q, a, rb, q1, i)
  {
    hide StreamByte, Q1.Valid, Acts.Valid, StreamSubs, Q1.ScaleSeg;
    SplitIndex(rb, q1, q.bpr);
    BlockAt(q, a, rb, q1, i);
  }

  /** The columns' streams follow each other. */
  lemma {:induction false} ColumnAt(q: Q1, cols: seq<Acts>, c: nat)
    requires q.Valid() && q.bpr > 0 && (forall i :: 0 <= i < |cols| ==> cols[i].Valid(q.bpr)) && c < |cols|
    ensures StreamBytes(q, c) + 304 * q.Total() <= |Streams(q, cols)|
    ensures Streams(q, cols)[StreamBytes(q, c)..StreamBytes(q, c) + 304 * q.Total()] == Stream(q, cols[c], q.Total())
  {
    hide Stream, Q1.Valid, Acts.Valid, Q1.Total;
    var last := |cols| - 1;
    StreamsSnoc(q, cols);
    hide Streams;
    if c < last {
      ColumnAt(q, cols[..last], c);
      SliceInit(Streams(q, cols[..last]), Stream(q, cols[last], q.Total()), StreamBytes(q, c),
                StreamBytes(q, c) + 304 * q.Total());
    } else {
      SliceLast(Streams(q, cols[..last]), Stream(q, cols[last], q.Total()), StreamBytes(q, c),
                StreamBytes(q, c) + 304 * q.Total());
    }
  }

  lemma StreamsSnoc(q: Q1, cols: seq<Acts>)
    requires q.Valid() && q.bpr > 0 && (forall i :: 0 <= i < |cols| ==> cols[i].Valid(q.bpr)) && cols != []
    ensures Streams(q, cols) == Streams(q, cols[..|cols| - 1]) + Stream(q, cols[|cols| - 1], q.Total())
  {
    hide Stream, Q1.Valid, Acts.Valid;
  }

  lemma {:induction false} StreamsLength(q: Q1, cols: nat, n: nat)
    requires n == 304 * ((q.rows + 7) / 8 * q.bpr)
    ensures StreamBytes(q, cols) == cols * n
  {
    if cols > 0 {
      StreamsLength(q, cols - 1, n);
      assert cols * n == (cols - 1) * n + n;
    }
  }

  /** Column c's stream starts after those of the c columns before it, all of length n. */
  lemma ColumnStarts(q: Q1, cols: seq<Acts>, c: nat, n: nat, at: nat)
    requires q.Valid() && q.bpr > 0 && (forall i :: 0 <= i < |cols| ==> cols[i].Valid(q.bpr)) && c < |cols|
    requires n == 304 * ((q.rows + 7) / 8 * q.bpr) && at == c * n
    ensures |Streams(q, cols)| == |cols| * n
    ensures at + n <= |Streams(q, cols)| && Streams(q, cols)[at..at + n] == Stream(q, cols[c], q.Total())
  {
    hide Stream, Q1.Valid, Acts.Valid, Streams;
    ColumnAt(q, cols, c);
    StreamsLength(q, c, n);
    StreamsLength(q, |cols|, n);
  }
}

/**
 How the matmul driver cuts a packed weight tensor into DMA chunks.

 A chunk never leaves its extent, except that a rowblock which straddles a boundary is
 sent alone. Chunks partition the rowblocks in order, and whatever the chunking, the
 lanes the kernel emits for them concatenate to the lanes of the whole tensor.
 */
module ChunkPlan {
  import opened Common
  import opened Extents

  /** Where item n starts when every item takes p bytes. */
  function Pos(n: nat, p: nat): nat
  {
    n * p
  }

  lemma PosAdd(m: nat, n: nat, p: nat)
    ensures Pos(m + n, p) == Pos(m, p) + Pos(n, p)
  {
  }

  lemma PosEnds(p: nat)
    ensures Pos(0, p) == 0 && Pos(1, p) == p
  {
  }

  lemma PosMono(m: nat, n: nat, p: nat)
    requires m <= n
    ensures Pos(m, p) <= Pos(n, p)
  {
    PosAdd(m, n - m, p);
  }

  lemma PosDiv(x: nat, p: nat, c: nat)
    requires p > 0 && c <= x / p
    ensures Pos(c, p) <= x
  {
    PosMono(c, x / p, p);
    assert Pos(x / p, p) <= x;
  }

  // ----- extents -----

  /** Bytes from an offset to the end of the extent it lies in. */
  function Remaining(es: seq<Extent>, off: nat): nat
  {
    if es == [] then 0
    else if off < es[0].size then es[0].size - off
    else Remaining(es[1..], off - es[0].size)
  }

  lemma {:induction false} RemainingInside(es: seq<Extent>, off: nat) returns (i: nat)
    requires off < SizeOf(es)
    ensures i < |es| && SizeOf(es[..i]) <= off
    ensures off + Remaining(es, off) == SizeOf(es[..i]) + es[i].size
    ensures Remaining(es, off) > 0
  {
    if off < es[0].size {
      i := 0;
    } else {
      var j := RemainingInside(es[1..], off - es[0].size);
      i := j + 1;
      assert es[..i][1..] == es[1..][..j];
    }
  }

  /** A range fits one extent exactly when it does not reach past the end of its own. */
  lemma OneExtentIff(es: seq<Extent>, off: nat, n: nat)
    requires n > 0 && off + n <= SizeOf(es)
    ensures InOneExtent(es, off, n) <==> n <= Remaining(es, off)
  {
    var i := RemainingInside(es, off);
    hide SizeOf, Remaining, Addrs, Cells;
    if n <= Remaining(es, off) {
      assert Inside(es, i, off, n);
    }
    if j :| 0 <= j < |es| && Inside(es, j, off, n) {
      AddrsAt(es, i);
      AddrsAt(es, j);
      if j < i {
        PrefixGrows(es, j + 1, i);
      } else if j > i {
        PrefixGrows(es, i + 1, j);
      }
    }
  }

  // ----- the chunk sizes -----

  /** What the driver streams: total rowblocks of p bytes starting at base of a tensor. */
  datatype Weights = Weights(extents: seq<Extent>, base: nat, total: nat, p: nat, most: nat)
  {
    predicate Ok()
    {
      p > 0 && most > 0 && base + Pos(total, p) <= SizeOf(extents)
    }

    function Off(rb: nat): nat
    {
      base + Pos(rb, p)
    }

    function Size(rb: nat): (c: nat)
      requires p > 0 && most > 0 && rb < total
      ensures 1 <= c <= total - rb && c <= most
    {
      var whole := if most < total - rb then most else total - rb;
      var reach := Remaining(extents, Off(rb)) / p;
      if reach < 1 then 1 else if reach < whole then reach else whole
    }

    function Chunks(rb: nat): seq<nat>
      requires p > 0 && most > 0 && rb <= total
      decreases total - rb
    {
      if rb == total then [] else [Size(rb)] + Chunks(rb + Size(rb))
    }

    /** The chunk at rb streams straight from its slab. */
    predicate Direct(rb: nat, c: nat)
    {
      InOneExtent(extents, Off(rb), Pos(c, p))
    }

    /** A chunk is direct, or one rowblock that straddles extents. */
    lemma DirectOrStraddling(rb: nat)
      requires Ok() && rb < total
      ensures Off(rb) + Pos(Size(rb), p) <= SizeOf(extents)
      ensures !Direct(rb, Size(rb)) ==> Size(rb) == 1 && !Direct(rb, 1)
    {
      var c := Size(rb);
      PosMono(1, c, p);
      PosEnds(p);
      PosAdd(rb, c, p);
      PosMono(rb + c, total, p);
      OneExtentIff(extents, Off(rb), Pos(c, p));
      var reach := Remaining(extents, Off(rb)) / p;
      if reach >= 1 {
        PosDiv(Remaining(extents, Off(rb)), p, c);
      }
    }

    /** The chunks partition the rowblocks: none empty, and together all of them. */
    lemma {:induction false} ChunksPartition(rb: nat)
      requires p > 0 && most > 0 && rb <= total
      ensures forall i :: 0 <= i < |Chunks(rb)| ==> Chunks(rb)[i] > 0
      ensures Sum(Chunks(rb)) == total - rb
      decreases total - rb
    {
      if rb < total {
        ChunksPartition(rb + Size(rb));
      }
    }
  }

  /** The bytes sent for the chunks from rowblock rb on. */
  function Streamed(w: Weights, packed: seq<byte>, rb: nat): seq<byte>
    requires w.p > 0 && w.most > 0 && rb <= w.total && Pos(w.total, w.p) <= |packed|
    decreases w.total - rb
  {
    if rb == w.total then []
    else
      var next := rb + w.Size(rb);
      PosMono(rb, next, w.p); PosMono(next, w.total, w.p);
      packed[Pos(rb, w.p)..Pos(next, w.p)] + Streamed(w, packed, next)
  }

  /** The streamed chunks concatenate to the packed tensor. */
  lemma {:induction false} StreamedWhole(w: Weights, packed: seq<byte>, rb: nat)
    requires w.p > 0 && w.most > 0 && rb <= w.total && Pos(w.total, w.p) <= |packed|
    ensures Pos(rb, w.p) <= Pos(w.total, w.p)
    ensures Streamed(w, packed, rb) == packed[Pos(rb, w.p)..Pos(w.total, w.p)]
    decreases w.total - rb
  {
    PosMono(rb, w.total, w.p);
    if rb < w.total {
      var next := rb + w.Size(rb);
      PosMono(rb, next, w.p);
      StreamedWhole(w, packed, next);
    }
  }

  function Sum(s: seq<nat>): nat
  {
    if s == [] then 0 else s[0] + Sum(s[1..])
  }

  // ----- what the kernel computes -----

  const LANE_BYTES: nat := 32
  const ROWS: nat := 8
  const F32_BYTES: nat := 4

  /** One result byte of a rowblock from a column's activations and the rowblock's weights. */
  type Kernel = (seq<byte>, seq<byte>, nat) -> byte

  /** The eight float lanes of one rowblock. */
  function RowblockOut(f: Kernel, acts: seq<byte>, w: seq<byte>): (r: seq<byte>)
    ensures |r| == LANE_BYTES
  {
    seq(LANE_BYTES, i requires 0 <= i => f(acts, w, i))
  }

  /** The kernel's output for n rowblocks of p bytes. */
  function Lanes(f: Kernel, acts: seq<byte>, w: seq<byte>, p: nat, n: nat): (r: seq<byte>)
    requires Pos(n, p) <= |w|
    ensures |r| == LANE_BYTES * n
  {
    if n == 0 then []
    else
      PosAdd(n - 1, 1, p); PosEnds(p);
      Lanes(f, acts, w, p, n - 1) + RowblockOut(f, acts, w[Pos(n - 1, p)..Pos(n, p)])
  }

  lemma LanesStep(f: Kernel, acts: seq<byte>, w: seq<byte>, p: nat, n: nat)
    requires n > 0 && Pos(n, p) <= |w|
    ensures Pos(n - 1, p) + p == Pos(n, p)
    ensures Lanes(f, acts, w, p, n) ==
            Lanes(f, acts, w, p, n - 1) + RowblockOut(f, acts, w[Pos(n - 1, p)..Pos(n, p)])
  {
    PosAdd(n - 1, 1, p);
    PosEnds(p);
  }

  lemma SliceTail(w: seq<byte>, i: nat, j: nat, k: nat)
    requires i <= j <= k <= |w|
    ensures w[i..k][..j - i] == w[i..j] && w[i..k][j - i..k - i] == w[j..k]
  {
  }

  /** Streaming a later chunk continues the output of the earlier ones. */
  lemma {:induction false} LanesJoin(f: Kernel, acts: seq<byte>, w: seq<byte>, p: nat, m: nat, n: nat)
    requires Pos(m + n, p) <= |w|
    ensures Pos(m, p) <= Pos(m + n, p) && Pos(n, p) == Pos(m + n, p) - Pos(m, p)
    ensures Lanes(f, acts, w, p, m + n) ==
            Lanes(f, acts, w, p, m) + Lanes(f, acts, w[Pos(m, p)..Pos(m + n, p)], p, n)
    decreases n
  {
    PosAdd(m, n, p);
    if n > 0 {
      hide Pos, RowblockOut, Lanes;
      var i, j, k := Pos(m, p), Pos(m + n - 1, p), Pos(m + n, p);
      PosAdd(m, n - 1, p);
      LanesStep(f, acts, w, p, m + n);
      LanesJoin(f, acts, w, p, m, n - 1);
      LanesStep(f, acts, w[i..k], p, n);
      SliceTail(w, i, j, k);
      LanesPrefix(f, acts, w[i..k], w[i..j], p, n - 1);
    }
  }

  lemma {:induction false} LanesPrefix(f: Kernel, acts: seq<byte>, w: seq<byte>, v: seq<byte>, p: nat, n: nat)
    requires Pos(n, p) <= |v| <= |w| && v == w[..|v|]
    ensures Lanes(f, acts, w, p, n) == Lanes(f, acts, v, p, n)
  {
    if n > 0 {
      PosAdd(n - 1, 1, p);
      PosEnds(p);
      LanesPrefix(f, acts, w, v, p, n - 1);
      hide Pos, RowblockOut;
      assert w[Pos(n - 1, p)..Pos(n, p)] == v[Pos(n - 1, p)..Pos(n, p)];
    }
  }
}

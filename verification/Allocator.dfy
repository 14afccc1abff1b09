/**
 The board tensor allocator over its slabs.

 Every public method keeps Valid, so in every reachable state the free blocks and the
 live extents tile each slab. The state refines a plain map from handles to bytes
 (Tensors): allocate adds a fresh handle, free drops one, write patches one range of one
 tensor, and read returns a range of one, however the tensor is cut into extents.
 */
module Allocator {
  import opened Common
  import opened FreeList
  import opened Extents
  import opened Placement

  datatype Error =
    ValueError | InvalidRequest | OutOfMemory | UnknownTensor | OutOfBounds | MultiExtent | InternalError |
    RuntimeError | AttributeError

  datatype Result<T> = Ok(value: T) | Err(error: Error)

  /** One contiguous chunk of memory; only one allocated for DMA has a buffer to stream from. */
  class Slab {
    const size: nat
    const physicalAddress: nat
    const dma: bool
    var data: seq<byte>

    ghost predicate Valid()
      reads this
    {
      |data| == size
    }

    constructor (size: nat, physicalAddress: nat, dma: bool)
      ensures Valid() && this.size == size && this.physicalAddress == physicalAddress && this.dma == dma
      ensures forall i :: 0 <= i < |data| ==> data[i] == 0
    {
      this.size, this.physicalAddress, this.dma := size, physicalAddress, dma;
      data := seq(size, i => 0);
    }

    method Write(offset: nat, chunk: seq<byte>)
      requires Valid() && offset + |chunk| <= size
      modifies this
      ensures Valid() && data == Patch(old(data), offset, chunk)
    {
      data := data[..offset] + chunk + data[offset + |chunk|..];
    }

    method Read(offset: nat, count: nat) returns (b: seq<byte>)
      requires Valid() && offset + count <= size
      ensures b == data[offset..offset + count]
    {
      b := data[offset..offset + count];
    }
  }

  /** A stretch of one extent that a byte range passes through. */
  datatype Piece = Piece(extent: Extent, local: nat, count: nat)
  {
    function Part(): Extent
    {
      Extent(extent.slab, extent.off + local, count)
    }
  }

  function Parts(ps: seq<Piece>): (es: seq<Extent>)
    ensures |es| == |ps|
  {
    seq(|ps|, i requires 0 <= i < |ps| => ps[i].Part())
  }

  class TensorAllocator {
    const slabs: seq<Slab>
    const defaultAlignment: int
    var free: seq<seq<Block>>
    var records: map<int, Record>
    var nextHandle: int

    function Sizes(): (s: seq<nat>)
      ensures |s| == |slabs|
    {
      seq(|slabs|, i requires 0 <= i < |slabs| => slabs[i].size)
    }

    ghost function Memory(): (m: seq<seq<byte>>)
      reads slabs
      ensures |m| == |slabs|
    {
      seq(|slabs|, i requires 0 <= i < |slabs| reads slabs => slabs[i].data)
    }

    ghost predicate SlabsOk()
      reads slabs
    {
      && (forall i, j :: 0 <= i < j < |slabs| ==> slabs[i] != slabs[j])
      && (forall i :: 0 <= i < |slabs| ==> slabs[i].Valid())
    }

    ghost predicate Valid()
      reads this, slabs
    {
      && |slabs| > 0
      && SlabsOk()
      && nextHandle >= 1
      && (forall h :: h in records ==> 1 <= h < nextHandle && records[h].handle == h)
      && Tiles(Sizes(), free, records)
    }

    /** What the allocator stores. */
    ghost function Tensors(): map<int, seq<byte>>
      reads this, slabs
    {
      Contents(Memory(), records)
    }

    constructor (slabs: seq<Slab>, defaultAlignment: int)
      requires |slabs| > 0
      requires forall i, j :: 0 <= i < j < |slabs| ==> slabs[i] != slabs[j]
      requires forall i :: 0 <= i < |slabs| ==> slabs[i].Valid()
      ensures Valid() && this.slabs == slabs && this.defaultAlignment == defaultAlignment
      ensures Tensors() == map[]
    {
      this.slabs, this.defaultAlignment := slabs, defaultAlignment;
      free := seq(|slabs|, i requires 0 <= i < |slabs| => [Block(0, slabs[i].size)]);
      records := map[];
      nextHandle := 1;
      new;
      FreshTiles(Sizes(), free);
    }

    // ----- placement -----

    /** Mark bytes of one slab busy. */
    method Take(s: nat, off: nat, n: nat) returns (ok: bool)
      requires s < |free|
      modifies this`free
      ensures ok <==> exists i :: 0 <= i < |old(free)[s]| && Holds(old(free)[s][i], off, n)
      ensures ok ==> TookSome(old(free), free, s, off, n)
      ensures !ok ==> free == old(free)
    {
      var slabFree := free[s];
      for i := 0 to |slabFree|
        invariant free == old(free)
        invariant forall j :: 0 <= j < i ==> !Holds(slabFree[j], off, n)
      {
        var b := slabFree[i];
        if b.off <= off && off + n <= b.End() {
          var replacement: seq<Block> := [];
          if off > b.off {
            replacement := replacement + [Block(b.off, off - b.off)];
          }
          if off + n < b.End() {
            replacement := replacement + [Block(off + n, b.End() - (off + n))];
          }
          assert replacement == Leftover(b, off, n);
          free := free[s := slabFree[..i] + replacement + slabFree[i + 1..]];
          return true;
        }
      }
      return false;
    }

    /** First fit: the first block, slab by slab, that holds the whole tensor. */
    method PlaceSingle(n: nat, alignment: int) returns (r: Result<Option<Extent>>)
      requires FreeLists(Sizes(), free) && n > 0
      modifies this`free
      ensures r.Err? <==> alignment <= 0 && exists s :: 0 <= s < |old(free)| && old(free)[s] != []
      ensures r.Err? ==> r.error == ValueError && free == old(free)
      ensures r == Ok(None) ==> free == old(free)
      ensures r == Ok(None) && alignment > 0 ==> NoneBefore(free, |free|, 0, alignment, n)
      ensures r.Ok? && r.value.Some? ==> FirstFit(old(free), free, r.value.value, alignment, n)
    {
      for s := 0 to |free|
        invariant free == old(free)
        invariant alignment > 0 ==> NoneBefore(free, s, 0, alignment, n)
        invariant alignment <= 0 ==> forall t :: 0 <= t < s ==> free[t] == []
      {
        for i := 0 to |free[s]|
          invariant free == old(free)
          invariant alignment > 0 ==> NoneBefore(free, s, i, alignment, n)
          invariant alignment <= 0 ==> i == 0
        {
          if alignment <= 0 {
            return Err(ValueError);
          }
          var b := free[s][i];
          var aligned := AlignUp(b.off, alignment);
          if aligned + n <= b.End() {
            RoomyAvail(free, s, i, alignment, n);
            var ok := Take(s, aligned, n);
            FirstFitLaw(old(free), free, s, i, alignment, n);
            return Ok(Some(Extent(s, aligned, n)));
          }
        }
      }
      return Ok(None);
    }

    /** The tensor sits aligned at the start of the first roomy block. */
    ghost predicate FirstFit(
      before: seq<seq<Block>>, after: seq<seq<Block>>, e: Extent, alignment: int, n: nat)
    {
      && alignment > 0
      && e.off % alignment == 0
      && e.size == n
      && FreeLists(Sizes(), after)
      && TakenFrom(before, after, [e])
      && ExtentOk(Sizes(), e)
      && e.slab < |before|
      && exists i :: 0 <= i < |before[e.slab]| && FirstRoomy(before, e.slab, i, e.off, alignment, n)
    }

    ghost predicate FirstRoomy(free: seq<seq<Block>>, s: nat, i: nat, off: nat, alignment: nat, n: nat)
      requires alignment > 0 && s < |free| && i < |free[s]|
    {
      && Roomy(free[s][i], alignment, n)
      && NoneBefore(free, s, i, alignment, n)
      && off == AlignUp(free[s][i].off, alignment)
    }

    ghost predicate TookSome(before: seq<seq<Block>>, after: seq<seq<Block>>, s: nat, off: nat, n: nat)
      requires s < |before|
    {
      exists i :: 0 <= i < |before[s]| && (Holds(before[s][i], off, n) && after == TakeAt(before, s, i, off, n))
    }

    lemma FirstFitLaw(before: seq<seq<Block>>, after: seq<seq<Block>>, s: nat, i: nat, alignment: int, n: nat)
      requires FreeLists(Sizes(), before) && n > 0 && alignment > 0 && s < |before| && i < |before[s]|
      requires Roomy(before[s][i], alignment, n) && NoneBefore(before, s, i, alignment, n)
      requires TookSome(before, after, s, AlignUp(before[s][i].off, alignment), n)
      ensures FirstFit(before, after, Extent(s, AlignUp(before[s][i].off, alignment), n), alignment, n)
    {
      AlignUpLaw(before[s][i].off, alignment);
      var at := AlignUp(before[s][i].off, alignment);
      hide AlignUp, FreeOk, TakenFrom, NoneBefore, ExtentOk, Holds, Carve;
      var j :| 0 <= j < |before[s]| && Holds(before[s][j], at, n) && after == TakeAt(before, s, j, at, n);
      TakeLaw(Sizes(), before, s, j, at, n);
      assert FirstRoomy(before, s, i, at, alignment, n);
    }

    /** Take up to max bytes from the first block with anything usable. */
    method TakeLargest(s: nat, max: nat, alignment: int) returns (r: Option<(nat, nat)>)
      requires s < |free| && max > 0 && (alignment > 0 || free[s] == [])
      modifies this`free
      ensures r.None? ==> free == old(free)
      ensures r.None? && alignment > 0 ==> forall i :: 0 <= i < |free[s]| ==> Usable(free[s][i], alignment) == 0
      ensures |free| == |old(free)| && forall t :: 0 <= t < |free| && t != s ==> free[t] == old(free)[t]
      ensures r.Some? ==> alignment > 0 && TookFirst(old(free), free, s, max, alignment, r.value.0, r.value.1)
    {
      var slabFree := free[s];
      for i := 0 to |slabFree|
        invariant free == old(free)
        invariant forall j :: 0 <= j < i ==> Usable(slabFree[j], alignment) == 0
      {
        var b := slabFree[i];
        var aligned := AlignUp(b.off, alignment);
        AlignUpLaw(b.off, alignment);
        var padding := aligned - b.off;
        var available := b.size - padding;
        if available <= 0 {
          continue;
        }
        var take := if max <= available then max else available;
        var replacement: seq<Block> := [];
        if padding != 0 {
          replacement := replacement + [Block(b.off, padding)];
        }
        var tailSize := b.size - padding - take;
        if tailSize != 0 {
          replacement := replacement + [Block(aligned + take, tailSize)];
        }
        assert replacement == Leftover(b, aligned, take);
        free := free[s := slabFree[..i] + replacement + slabFree[i + 1..]];
        assert free == TakeAt(old(free), s, i, aligned, take);
        assert TookBlock(old(free), free, s, i, max, alignment, aligned, take);
        return Some((aligned, take));
      }
      return None;
    }

    /** The bytes taken are all that is usable of the first usable block, or as much as was asked for. */
    ghost predicate TookFirst(
      before: seq<seq<Block>>, after: seq<seq<Block>>, s: nat, max: nat, alignment: nat, off: nat, n: nat)
      requires alignment > 0 && s < |before|
    {
      exists i :: 0 <= i < |before[s]| && TookBlock(before, after, s, i, max, alignment, off, n)
    }

    ghost predicate TookBlock(
      before: seq<seq<Block>>, after: seq<seq<Block>>, s: nat, i: nat, max: nat, alignment: nat, off: nat, n: nat)
      requires alignment > 0 && s < |before| && i < |before[s]|
    {
      && (forall j :: 0 <= j < i ==> Usable(before[s][j], alignment) == 0)
      && off == AlignUp(before[s][i].off, alignment)
      && 0 < n <= Usable(before[s][i], alignment)
      && (n == max || (n < max && n == Usable(before[s][i], alignment)))
      && Holds(before[s][i], off, n)
      && after == TakeAt(before, s, i, off, n)
    }

    /** A placement of all but remaining of n bytes, in aligned extents taken from free space. */
    ghost predicate Filling(
      before: seq<seq<Block>>, now: seq<seq<Block>>, es: seq<Extent>, n: nat, remaining: nat, alignment: nat)
      requires alignment > 0
    {
      && FreeLists(Sizes(), now)
      && TakenFrom(before, now, es)
      && NoDup(Addrs(es))
      && ExtentsOk(Sizes(), es)
      && SizeOf(es) + remaining == n
      && (forall i :: 0 <= i < |es| ==> es[i].off % alignment == 0)
      && (remaining > 0 ==> SumAvail(now, alignment) + SizeOf(es) == SumAvail(before, alignment))
      && (remaining == 0 ==> n <= SumAvail(before, alignment))
    }

    lemma FillStart(before: seq<seq<Block>>, n: nat, alignment: nat)
      requires alignment > 0 && n > 0 && FreeLists(Sizes(), before)
      ensures Filling(before, before, [], n, n, alignment)
    {
      hide FreeOk, FreeAt, SumAvail;
      TakenNothing(before);
    }

    lemma FillStep(
      before: seq<seq<Block>>, now: seq<seq<Block>>, next: seq<seq<Block>>, es: seq<Extent>,
      n: nat, remaining: nat, alignment: nat, s: nat, off: nat, count: nat)
      requires alignment > 0 && s < |now|
      requires Filling(before, now, es, n, remaining, alignment)
      requires TookFirst(now, next, s, remaining, alignment, off, count)
      ensures 0 < count <= remaining
      ensures Filling(before, next, es + [Extent(s, off, count)], n, remaining - count, alignment)
    {
      hide FreeLists, TakenFrom, NoDup, Addrs, SizeOf, SumAvail, ExtentOk, TookBlock;
      var i :| 0 <= i < |now[s]| && TookBlock(now, next, s, i, remaining, alignment, off, count);
      StepTakes(now, next, s, i, remaining, alignment, off, count);
      StepAvail(now, next, s, i, remaining, alignment, off, count);
      TakenSnoc(before, now, next, es, Extent(s, off, count));
      AddrsSnoc(es, Extent(s, off, count));
    }

    lemma StepGreedy(
      now: seq<seq<Block>>, next: seq<seq<Block>>, remaining: nat, alignment: nat, s: nat, off: nat, count: nat)
      requires alignment > 0 && s < |now| && remaining > 0
      requires forall t :: 0 <= t < s ==> Avail(now[t], alignment) == 0
      requires TookFirst(now, next, s, remaining, alignment, off, count) && count <= remaining
      ensures Greedy(now, remaining, alignment) ==
              [Extent(s, off, count)] + Greedy(next, remaining - count, alignment)
    {
      hide Usable, Avail, AlignUp, Carve, Holds, Greedy;
      var i :| 0 <= i < |now[s]| && TookBlock(now, next, s, i, remaining, alignment, off, count);
      GreedyStep(now, s, i, remaining, alignment, off, count);
    }

    lemma StepTakes(
      now: seq<seq<Block>>, next: seq<seq<Block>>, s: nat, i: nat, max: nat, alignment: nat, off: nat, count: nat)
      requires alignment > 0 && s < |now| && i < |now[s]| && FreeLists(Sizes(), now)
      requires TookBlock(now, next, s, i, max, alignment, off, count)
      ensures 0 < count <= max && off % alignment == 0
      ensures FreeLists(Sizes(), next) && ExtentOk(Sizes(), Extent(s, off, count))
      ensures TakenFrom(now, next, [Extent(s, off, count)])
    {
      AlignUpLaw(now[s][i].off, alignment);
      hide AlignUp, Usable, FreeLists, TakenFrom, Holds, Carve, ExtentOk;
      TakeLaw(Sizes(), now, s, i, off, count);
    }

    lemma StepAvail(
      now: seq<seq<Block>>, next: seq<seq<Block>>, s: nat, i: nat, max: nat, alignment: nat, off: nat, count: nat)
      requires alignment > 0 && s < |now| && i < |now[s]|
      requires TookBlock(now, next, s, i, max, alignment, off, count)
      ensures count <= SumAvail(now, alignment)
      ensures count < max ==> SumAvail(next, alignment) + count == SumAvail(now, alignment)
    {
      hide AlignUp, Usable, Carve, Holds, SumAvail, Avail;
      AvailAtLeast(now[s], i, alignment);
      SumAvailAtLeast(now, s, alignment);
      if count < max {
        TakeCosts(now, s, i, alignment);
      }
    }

    /** Give bytes of one slab back: append, sort, coalesce. */
    method Release(s: nat, off: nat, n: nat)
      requires s < |free|
      modifies this`free
      ensures free == ReleaseOne(old(free), Extent(s, off, n))
    {
      var slabFree := Sort(free[s] + [Block(off, n)]);
      var merged: seq<Block> := [];
      for i := 0 to |slabFree|
        invariant free == old(free)
        invariant merged == Merge(slabFree[..i])
      {
        var b := slabFree[i];
        assert slabFree[..i + 1][..i] == slabFree[..i];
        if merged == [] {
          merged := merged + [b];
          continue;
        }
        var last := merged[|merged| - 1];
        if b.off <= last.End() {
          var end := if last.End() >= b.End() then last.End() else b.End();
          merged := merged[|merged| - 1 := Block(last.off, end - last.off)];
          assert merged == merged[..|merged| - 1] + [Span(last, b)];
        } else {
          merged := merged + [b];
        }
      }
      assert slabFree[..|slabFree|] == slabFree;
      free := free[s := merged];
    }

    method ReleaseExtents(es: seq<Extent>)
      requires Placed(|free|, es)
      modifies this`free
      ensures Placed(|old(free)|, es) && free == ReleaseAll(old(free), es)
    {
      for k := 0 to |es|
        invariant |free| == |old(free)| && Placed(|old(free)|, es[..k])
        invariant free == ReleaseAll(old(free), es[..k])
      {
        Release(es[k].slab, es[k].off, es[k].size);
        assert es[..k + 1][..k] == es[..k];
      }
      assert es[..|es|] == es;
    }

    lemma Regroup(es: seq<Extent>, e: Extent, rest: seq<Extent>)
      ensures es + ([e] + rest) == (es + [e]) + rest
    {
    }

    lemma NotFilled(
      before: seq<seq<Block>>, now: seq<seq<Block>>, es: seq<Extent>, n: nat, remaining: nat, alignment: nat)
      requires alignment > 0 && remaining > 0
      requires Filling(before, now, es, n, remaining, alignment) && SumAvail(now, alignment) == 0
      ensures SumAvail(before, alignment) < n
      ensures FreeLists(Sizes(), now) && ExtentsOk(Sizes(), es) && TakenFrom(before, now, es)
    {
    }

    lemma FilledEnough(before: seq<seq<Block>>, now: seq<seq<Block>>, es: seq<Extent>, n: nat, alignment: nat)
      requires alignment > 0 && Filling(before, now, es, n, 0, alignment)
      ensures n <= SumAvail(before, alignment)
    {
    }

    /** Greedy fill over the slabs; a failed fill is rolled back. */
    method PlaceMulti(n: nat, alignment: int) returns (r: Option<seq<Extent>>)
      requires FreeLists(Sizes(), free) && n > 0
      requires alignment > 0 || forall s :: 0 <= s < |free| ==> free[s] == []
      modifies this`free
      ensures r.None? ==> free == old(free)
      ensures alignment > 0 ==> (r.None? <==> SumAvail(old(free), alignment) < n)
      ensures r.Some? ==> alignment > 0 && Filling(old(free), free, r.value, n, 0, alignment)
      ensures r.Some? ==> r.value == Greedy(old(free), n, alignment)
    {
      hide AlignUp, Usable, TookFirst, Filling, SumAvail, Avail, FreeOk, Greedy;
      var extents: seq<Extent> := [];
      var remaining: nat := n;
      if alignment > 0 {
        FillStart(free, n, alignment);
      }
      for s := 0 to |slabs|
        invariant |free| == |slabs| && remaining > 0
        invariant alignment > 0 ==> Filling(old(free), free, extents, n, remaining, alignment)
        invariant alignment > 0 ==>
          extents + Greedy(free, remaining, alignment) == Greedy(old(free), n, alignment)
        invariant alignment <= 0 ==> free == old(free) && extents == [] && remaining == n
        invariant alignment > 0 ==> forall t :: 0 <= t < s ==> Avail(free[t], alignment) == 0
      {
        while remaining > 0
          invariant 0 <= remaining && |free| == |slabs|
          invariant alignment > 0 ==> Filling(old(free), free, extents, n, remaining, alignment)
          invariant alignment > 0 ==>
            extents + Greedy(free, remaining, alignment) == Greedy(old(free), n, alignment)
          invariant alignment <= 0 ==> free == old(free) && extents == [] && remaining == n
          invariant alignment > 0 ==> forall t :: 0 <= t < s ==> Avail(free[t], alignment) == 0
          decreases remaining
        {
          ghost var now := free;
          var taken := TakeLargest(s, remaining, alignment);
          if taken.None? {
            if alignment > 0 {
              AvailNone(free[s], alignment);
            }
            break;
          }
          FillStep(old(free), now, free, extents, n, remaining, alignment, s, taken.value.0, taken.value.1);
          StepGreedy(now, free, remaining, alignment, s, taken.value.0, taken.value.1);
          Regroup(extents, Extent(s, taken.value.0, taken.value.1), Greedy(free, remaining - taken.value.1, alignment));
          extents := extents + [Extent(s, taken.value.0, taken.value.1)];
          remaining := remaining - taken.value.1;
        }
        if remaining == 0 {
          FilledEnough(old(free), free, extents, n, alignment);
          GreedyDone(free, alignment);
          return Some(extents);
        }
      }
      if alignment > 0 {
        SumAvailNone(free, alignment);
        NotFilled(old(free), free, extents, n, remaining, alignment);
        Rollback(Sizes(), old(free), free, extents);
        ReleaseExtents(extents);
      }
      return None;
    }

    /** n bytes cut out of the free space. */
    ghost predicate Filled(before: seq<seq<Block>>, after: seq<seq<Block>>, es: seq<Extent>, n: nat)
    {
      && FreeLists(Sizes(), after)
      && TakenFrom(before, after, es)
      && NoDup(Addrs(es))
      && ExtentsOk(Sizes(), es)
      && SizeOf(es) == n
    }

    lemma NothingFilled(free: seq<seq<Block>>)
      requires FreeLists(Sizes(), free)
      ensures Filled(free, free, [], 0)
    {
      TakenNothing(free);
    }

    lemma SingleFills(before: seq<seq<Block>>, after: seq<seq<Block>>, e: Extent, alignment: int, n: nat)
      requires FirstFit(before, after, e, alignment, n) && n > 0
      ensures Filling(before, after, [e], n, 0, alignment)
    {
      var i :| 0 <= i < |before[e.slab]| && FirstRoomy(before, e.slab, i, e.off, alignment, n);
      RoomyAvail(before, e.slab, i, alignment, n);
      hide FreeLists, TakenFrom, ExtentOk, SumAvail, Cells;
      OneExtent(e);
      CellsDistinct(e);
    }

    lemma FillingDone(before: seq<seq<Block>>, after: seq<seq<Block>>, es: seq<Extent>, n: nat, alignment: nat)
      requires alignment > 0 && Filling(before, after, es, n, 0, alignment)
      ensures Filled(before, after, es, n) && n <= SumAvail(before, alignment)
      ensures forall i :: 0 <= i < |es| ==> es[i].size > 0 && es[i].off % alignment == 0
    {
    }

    lemma RecordLaw(
      before: seq<seq<Block>>, after: seq<seq<Block>>, rs: map<int, Record>, h: int, es: seq<Extent>, n: nat)
      requires Tiles(Sizes(), before, rs) && h !in rs && Filled(before, after, es, n)
      ensures Tiles(Sizes(), after, rs[h := Record(h, n, es)])
      ensures TakenFrom(before, after, es) && |Addrs(es)| == n
      ensures Placed(|after|, es) && ReleaseAll(after, es) == before
    {
      hide FreeOk, TakenFrom, NoDup, Addrs, SizeOf, FreeAt;
      AddrsLength(es);
      TilesAllocate(Sizes(), before, after, rs, h, Record(h, n, es));
      Rollback(Sizes(), before, after, es);
    }

    /** Find room for a tensor: in one slab if possible, else over several. */
    method Reserve(n: nat, alignment: int) returns (r: Result<seq<Extent>>)
      requires FreeLists(Sizes(), free)
      modifies this`free
      ensures r.Err? ==> free == old(free)
      ensures n == 0 ==> r == Ok([])
      ensures n > 0 && alignment > 0 ==> if SumAvail(old(free), alignment) < n then r == Err(OutOfMemory) else r.Ok?
      ensures n > 0 && alignment <= 0 ==> r == Err(if NothingFree(old(free)) then OutOfMemory else ValueError)
      ensures r.Ok? ==> Filled(old(free), free, r.value, n) && AllAligned(r.value, alignment)
      ensures n > 0 && r.Ok? ==> alignment > 0 && FirstFitOrGreedy(old(free), free, r.value, alignment, n)
    {
      hide AlignUp, Usable, SumAvail, FreeOk, TakenFrom, Addrs, SizeOf, NoDup, Roomy, ExtentOk,
        FirstFit, Filling, Filled, Greedy;
      NothingFilled(free);
      if n == 0 {
        return Ok([]);
      }
      var single := PlaceSingle(n, alignment);
      if single.Err? {
        return Err(single.error);
      }
      if single.value.Some? {
        SingleFills(old(free), free, single.value.value, alignment, n);
        FillingDone(old(free), free, [single.value.value], n, alignment);
        RoomyIsRoomy(old(free), free, single.value.value, alignment, n);
        return Ok([single.value.value]);
      }
      var multi := PlaceMulti(n, alignment);
      if multi.None? {
        return Err(OutOfMemory);
      }
      FillingDone(old(free), free, multi.value, n, alignment);
      return Ok(multi.value);
    }

    predicate NothingFree(free: seq<seq<Block>>)
    {
      forall s :: 0 <= s < |free| ==> free[s] == []
    }

    predicate AllAligned(es: seq<Extent>, alignment: int)
    {
      forall i :: 0 <= i < |es| ==> es[i].size > 0 && alignment > 0 && es[i].off % alignment == 0
    }

    /** If any block is roomy the tensor is one extent, placed first fit; else it is the greedy fill. */
    ghost predicate FirstFitOrGreedy(
      before: seq<seq<Block>>, after: seq<seq<Block>>, es: seq<Extent>, alignment: nat, n: nat)
      requires alignment > 0
    {
      if NoneBefore(before, |before|, 0, alignment, n) then es == Greedy(before, n, alignment)
      else |es| == 1 && FirstFit(before, after, es[0], alignment, n)
    }

    lemma RoomyIsRoomy(before: seq<seq<Block>>, after: seq<seq<Block>>, e: Extent, alignment: int, n: nat)
      requires FirstFit(before, after, e, alignment, n)
      ensures !NoneBefore(before, |before|, 0, alignment, n)
    {
      var i :| 0 <= i < |before[e.slab]| && FirstRoomy(before, e.slab, i, e.off, alignment, n);
      hide Roomy, TakenFrom, FreeLists;
      assert Roomy(before[e.slab][i], alignment, n);
    }

    // ----- the public operations -----

    /** alignment or default_alignment: zero counts as absent. */
    function Alignment(alignment: Option<int>): int
    {
      if alignment.Some? && alignment.value != 0 then alignment.value else defaultAlignment
    }

    /** What a failed request leaves: everything. */
    twostate predicate Untouched()
      reads this
    {
      free == old(free) && records == old(records) && nextHandle == old(nextHandle)
    }

    /** A fresh handle names n bytes cut out of the free space, and nothing else changed. */
    twostate predicate Added(t: Record, n: nat)
      reads this, slabs
    {
      && t.handle == old(nextHandle)
      && t.handle !in old(records)
      && t.nbytes == n
      && nextHandle == old(nextHandle) + 1
      && records == old(records)[t.handle := t]
      && Tensors() == old(Tensors())[t.handle := Gather(Memory(), Addrs(t.extents))]
      && |Tensors()[t.handle]| == n
      && TakenFrom(old(free), free, t.extents)
      && Placed(|free|, t.extents)
      && ReleaseAll(free, t.extents) == old(free)
    }

    /** Allocate: out of memory exactly when the aligned free space is too small. */
    method Allocate(nbytes: int, alignment: Option<int>) returns (r: Result<Record>)
      requires Valid()
      modifies this
      ensures Valid()
      ensures r.Err? ==> Untouched() && Tensors() == old(Tensors())
      ensures nbytes < 0 ==> r == Err(InvalidRequest)
      ensures nbytes == 0 ==> r.Ok? && r.value.extents == []
      ensures nbytes > 0 && Alignment(alignment) > 0 ==>
        if SumAvail(old(free), Alignment(alignment)) < nbytes then r == Err(OutOfMemory) else r.Ok?
      ensures nbytes > 0 && Alignment(alignment) <= 0 ==>
        r == Err(if NothingFree(old(free)) then OutOfMemory else ValueError)
      ensures r.Ok? ==> Added(r.value, nbytes)
      ensures r.Ok? ==> AllAligned(
        r.value.extents, if alignment.None? || alignment == Some(0) then defaultAlignment else alignment.value)
      ensures nbytes > 0 && r.Ok? ==> FirstFitOrGreedy(old(free), free, r.value.extents, Alignment(alignment), nbytes)
    {
      hide SumAvail, Greedy, TakenFrom, Addrs, NoneBefore, FirstFit, Filled, Tiles, AllAligned, FirstFitOrGreedy,
        ReleaseAll, FreeLists, Placed, NothingFree, Gather;
      if nbytes < 0 {
        return Err(InvalidRequest);
      }
      assert FreeLists(Sizes(), free) by {
        TilesFreeLists(Sizes(), free, records);
      }
      var reserved := Reserve(nbytes, Alignment(alignment));
      if reserved.Err? {
        return Err(reserved.error);
      }
      RecordLaw(old(free), free, records, nextHandle, reserved.value, nbytes);
      var handle := nextHandle;
      nextHandle := nextHandle + 1;
      var record := Record(handle, nbytes, reserved.value);
      records := records[handle := record];
      return Ok(record);
    }

    method GetRecord(handle: int) returns (r: Result<Record>)
      ensures r == if handle in records then Ok(records[handle]) else Err(UnknownTensor)
    {
      if handle in records {
        return Ok(records[handle]);
      }
      return Err(UnknownTensor);
    }

    /** Free drops one tensor; its bytes return to the free lists. */
    method Free(handle: int) returns (r: Result<Record>)
      requires Valid()
      modifies this
      ensures Valid()
      ensures handle !in old(records) ==> r == Err(UnknownTensor) && Untouched() && Tensors() == old(Tensors())
      ensures handle in old(records) ==>
        && r == Ok(old(records)[handle])
        && nextHandle == old(nextHandle)
        && records == old(records) - {handle}
        && Tensors() == old(Tensors()) - {handle}
        && Placed(|old(free)|, r.value.extents)
        && free == ReleaseAll(old(free), r.value.extents)
    {
      hide Tiles, Gather, Addrs;
      r := GetRecord(handle);
      if r.Err? {
        return;
      }
      TilesFree(Sizes(), free, records, handle);
      records := records - {handle};
      ReleaseExtents(r.value.extents);
    }

    /** Bytes in use: the total size of the live tensors. */
    method UsedBytes() returns (used: int)
      requires Valid()
      ensures used == SumLive(records, nextHandle)
      ensures 0 <= used <= SumSizes(Sizes())
    {
      hide Tiles, FreeLists, FreeOk;
      UsedIsLive(Sizes(), free, records, nextHandle);
      TilesFreeLists(Sizes(), free, records);
      SameLength(Sizes(), free);
      var total, available := 0, 0;
      for i := 0 to |slabs|
        invariant total == SumSizes(Sizes()[..i])
      {
        total := total + slabs[i].size;
        assert Sizes()[..i + 1][..i] == Sizes()[..i];
      }
      for i := 0 to |free|
        invariant available == SumFree(free[..i])
      {
        var size := 0;
        for j := 0 to |free[i]|
          invariant size == Total(free[i][..j])
        {
          TotalSnoc(free[i][..j], free[i][j]);
          assert free[i][..j + 1] == free[i][..j] + [free[i][j]];
          size := size + free[i][j].size;
        }
        assert free[i][..|free[i]|] == free[i];
        available := available + size;
        assert free[..i + 1][..i] == free[..i];
      }
      assert Sizes()[..|slabs|] == Sizes() && free[..|free|] == free;
      return total - available;
    }

    // ----- bytes -----

    /** The stretches of a tensor's extents that hold [start, start + size), in order. */
    method Walk(handle: int, start: nat, size: nat) returns (pieces: seq<Piece>)
      requires handle in records && start + size <= |Addrs(records[handle].extents)|
      ensures Addrs(Parts(pieces)) == Addrs(records[handle].extents)[start..start + size]
      ensures forall k :: 0 <= k < |pieces| ==> PieceOf(records[handle].extents, pieces[k])
    {
      hide Addrs, SizeOf, Cells, Parts, PieceOf, Piece.Part;
      var es := records[handle].extents;
      AddrsLength(es);
      var cursor, remaining, offset := 0, size, start;
      pieces := [];
      NoParts();
      assert es[..0] == [];
      for i := 0 to |es|
        invariant cursor == SizeOf(es[..i]) && 0 <= remaining <= size
        invariant offset == start + size - remaining
        invariant remaining > 0 ==> cursor <= offset
        invariant Addrs(Parts(pieces)) == Addrs(es)[start..offset]
        invariant forall k :: 0 <= k < |pieces| ==> PieceOf(es, pieces[k])
      {
        AddrsAt(es, i);
        var extentEnd := cursor + es[i].size;
        if offset >= extentEnd {
          cursor := extentEnd;
          continue;
        }
        var local := if offset - cursor > 0 then offset - cursor else 0;
        var count := if remaining < es[i].size - local then remaining else es[i].size - local;
        if count <= 0 {
          cursor := extentEnd;
          continue;
        }
        WalkStep(es, i, start, offset, pieces, Piece(es[i], local, count));
        IsPiece(es, i, local, count);
        pieces := pieces + [Piece(es[i], local, count)];
        remaining := remaining - count;
        offset := offset + count;
        cursor := extentEnd;
        if remaining == 0 {
          return;
        }
      }
      assert es[..|es|] == es;
    }

    ghost predicate PieceOf(es: seq<Extent>, p: Piece)
    {
      p.count > 0 && p.local + p.count <= p.extent.size && p.extent in es
    }

    lemma IsPiece(es: seq<Extent>, i: nat, local: nat, count: nat)
      requires i < |es| && count > 0 && local + count <= es[i].size
      ensures PieceOf(es, Piece(es[i], local, count))
    {
    }

    lemma NoParts()
      ensures Addrs(Parts([])) == [] && SizeOf([]) == 0
    {
    }

    lemma WalkStep(es: seq<Extent>, i: nat, start: nat, offset: nat, pieces: seq<Piece>, p: Piece)
      requires i < |es| && p.extent == es[i] && p.local + p.count <= es[i].size
      requires offset == SizeOf(es[..i]) + p.local && start <= offset <= |Addrs(es)|
      requires Addrs(Parts(pieces)) == Addrs(es)[start..offset]
      ensures offset + p.count <= |Addrs(es)|
      ensures Addrs(Parts(pieces + [p])) == Addrs(es)[start..offset + p.count]
    {
      PartSlice(es, i, p);
      PartsConcat(pieces, p);
      hide Addrs, SizeOf, Cells, Parts;
      SliceJoin(Addrs(es), start, offset, offset + p.count);
    }

    lemma PartsConcat(pieces: seq<Piece>, p: Piece)
      ensures Addrs(Parts(pieces + [p])) == Addrs(Parts(pieces)) + Cells(p.Part())
    {
      hide Addrs, Cells;
      assert Parts(pieces + [p]) == Parts(pieces) + [p.Part()];
      AddrsSnoc(Parts(pieces), p.Part());
    }

    lemma PartSlice(es: seq<Extent>, i: nat, p: Piece)
      requires i < |es| && p.extent == es[i] && p.local + p.count <= es[i].size
      ensures SizeOf(es[..i]) + p.local + p.count <= |Addrs(es)|
      ensures Cells(p.Part()) == Addrs(es)[SizeOf(es[..i]) + p.local..SizeOf(es[..i]) + p.local + p.count]
    {
      hide *;
      PartCells(p);
      AddrsAt(es, i);
      SliceOfSlice(Addrs(es), SizeOf(es[..i]), SizeOf(es[..i]) + es[i].size, p.local, p.local + p.count);
    }

    lemma SliceOfSlice(s: seq<Addr>, lo: nat, hi: nat, i: nat, j: nat)
      requires lo <= hi <= |s| && i <= j <= hi - lo
      ensures s[lo..hi][i..j] == s[lo + i..lo + j]
    {
      var t := s[lo..hi];
      assert forall k :: 0 <= k < j - i ==> t[i..j][k] == t[i + k] == s[lo + i + k];
    }

    lemma SliceJoin(s: seq<Addr>, i: nat, j: nat, k: nat)
      requires i <= j <= k <= |s|
      ensures s[i..j] + s[j..k] == s[i..k]
    {
    }

    lemma PartCells(p: Piece)
      requires p.local + p.count <= p.extent.size
      ensures Cells(p.Part()) == Cells(p.extent)[p.local..p.local + p.count]
    {
    }

    /** Which error a byte access gives, if any. */
    function RangeError(handle: int, offset: int, size: int): Option<Error>
      reads this
    {
      if handle !in records then Some(UnknownTensor)
      else if offset < 0 || size < 0 then Some(InvalidRequest)
      else if offset + size > records[handle].nbytes then Some(OutOfBounds)
      else None
    }

    /** The checks every byte access makes before touching memory. */
    method ValidateRange(handle: int, offset: int, size: int) returns (r: Option<Error>)
      ensures r == RangeError(handle, offset, size)
    {
      var record := GetRecord(handle);
      if record.Err? {
        return Some(record.error);
      }
      if offset < 0 {
        return Some(InvalidRequest);
      }
      if size < 0 {
        return Some(InvalidRequest);
      }
      if offset + size > record.value.nbytes {
        return Some(OutOfBounds);
      }
      return None;
    }

    lemma RecordLength(handle: int)
      requires Valid() && handle in records
      ensures |Addrs(records[handle].extents)| == records[handle].nbytes == |Tensors()[handle]|
      ensures ExtentsOk(Sizes(), records[handle].extents) && NoDup(Addrs(records[handle].extents))
    {
      hide Addrs, FreeAt, FreeLists;
    }

    lemma InRange(handle: int, offset: int, size: int)
      requires Valid() && RangeError(handle, offset, size).None?
      ensures handle in records && handle in Tensors() && 0 <= offset <= offset + size <= |Tensors()[handle]|
    {
      RecordLength(handle);
    }

    /** Read returns the stored bytes of the range, whatever extents they cross. */
    method Read(handle: int, offset: int, size: int) returns (r: Result<seq<byte>>)
      requires Valid()
      ensures RangeError(handle, offset, size).Some? ==> r == Err(RangeError(handle, offset, size).value)
      ensures RangeError(handle, offset, size).None? ==>
        |Tensors()[handle]| == records[handle].nbytes && r == Ok(Tensors()[handle][offset..offset + size])
    {
      hide Tiles, Addrs, Cells, Gather, ExtentOk;
      var bad := ValidateRange(handle, offset, size);
      if bad.Some? {
        return Err(bad.value);
      }
      RecordLength(handle);
      var pieces := Walk(handle, offset, size);
      var bytes: seq<byte> := [];
      NoParts();
      GatherNothing(Memory());
      for k := 0 to |pieces|
        invariant bytes == Gather(Memory(), Addrs(Parts(pieces[..k])))
      {
        var p := pieces[k];
        PieceInside(records[handle].extents, p);
        var chunk := slabs[p.extent.slab].Read(p.extent.off + p.local, p.count);
        GatherPart(Memory(), p.Part());
        PartsSnoc(pieces, k);
        GatherConcat(Memory(), Addrs(Parts(pieces[..k])), Cells(p.Part()));
        bytes := bytes + chunk;
      }
      assert pieces[..|pieces|] == pieces;
      GatherSlice(Memory(), Addrs(records[handle].extents), offset, offset + size);
      return Ok(bytes);
    }

    lemma PieceInside(es: seq<Extent>, p: Piece)
      requires ExtentsOk(Sizes(), es) && PieceOf(es, p)
      ensures ExtentOk(Sizes(), p.Part())
    {
    }

    lemma PartsSnoc(pieces: seq<Piece>, k: nat)
      requires k < |pieces|
      ensures Addrs(Parts(pieces[..k + 1])) == Addrs(Parts(pieces[..k])) + Cells(pieces[k].Part())
    {
      hide Addrs, Cells, Parts;
      assert pieces[..k + 1] == pieces[..k] + [pieces[k]];
      PartsConcat(pieces[..k], pieces[k]);
    }

    lemma GatherPart(mem: seq<seq<byte>>, e: Extent)
      requires e.slab < |mem| && e.off + e.size <= |mem[e.slab]|
      ensures Gather(mem, Cells(e)) == mem[e.slab][e.off..e.off + e.size]
    {
    }

    /** Write patches one range of one tensor and changes nothing else. */
    method Write(handle: int, offset: int, data: seq<byte>) returns (r: Option<Error>)
      requires Valid()
      modifies slabs
      ensures Valid() && Untouched()
      ensures r == RangeError(handle, offset, |data|)
      ensures r.Some? ==> Memory() == old(Memory()) && Tensors() == old(Tensors())
      ensures r.None? ==>
        && |old(Tensors())[handle]| == records[handle].nbytes
        && Tensors() == old(Tensors())[handle := Patch(old(Tensors())[handle], offset, data)]
    {
      hide Tiles, Addrs, Cells, Gather, ExtentOk, Stored, Contents, NoDup, Parts, SizeOf, PieceOf, At;
      r := ValidateRange(handle, offset, |data|);
      if r.Some? {
        return;
      }
      RecordLength(handle);
      ghost var es, before := records[handle].extents, Memory();
      var pieces := Walk(handle, offset, |data|);
      var source := 0;
      NoParts();
      StoredNothing(before);
      for k := 0 to |pieces|
        invariant SlabsOk()
        invariant source == SizeOf(Parts(pieces[..k])) <= |data|
        invariant Stored(before, Memory(), Addrs(Parts(pieces[..k])), data[..source])
      {
        var p := pieces[k];
        PieceInside(es, p);
        PieceApart(pieces, k, Addrs(es), offset, offset + |data|);
        PartsSnoc(pieces, k);
        ghost var mid := Memory();
        var chunk := data[source..source + p.count];
        slabs[p.extent.slab].Write(p.extent.off + p.local, chunk);
        StoredPatch(mid, Memory(), p.Part(), chunk);
        StoredConcat(before, mid, Memory(), Addrs(Parts(pieces[..k])), data[..source], Cells(p.Part()), chunk);
        assert data[..source] + chunk == data[..source + p.count];
        source := source + p.count;
      }
      assert pieces[..|pieces|] == pieces;
      AddrsLength(Parts(pieces));
      assert data[..|data|] == data;
      StoreIsPatch(Sizes(), free, records, before, Memory(), handle, offset, data);
    }

    /** The pieces before k, piece k and the rest follow each other in the tensor. */
    lemma PieceApart(pieces: seq<Piece>, k: nat, own: seq<Addr>, lo: nat, hi: nat)
      requires k < |pieces| && lo <= hi <= |own| && NoDup(own)
      requires Addrs(Parts(pieces)) == own[lo..hi]
      ensures SizeOf(Parts(pieces[..k])) + pieces[k].count <= hi - lo
      ensures SizeOf(Parts(pieces[..k + 1])) == SizeOf(Parts(pieces[..k])) + pieces[k].count
      ensures forall a :: a in Addrs(Parts(pieces[..k])) ==> a !in Cells(pieces[k].Part())
    {
      hide Addrs, Cells, SizeOf;
      var pre, e, post := Parts(pieces[..k]), pieces[k].Part(), Parts(pieces[k + 1..]);
      assert Parts(pieces[..k + 1]) == pre + [e] && Parts(pieces) == (pre + [e]) + post;
      AddrsSnoc(pre, e);
      AddrsConcat(pre + [e], post);
      AddrsLength(pre);
      PrefixApart(own, lo, hi, Addrs(pre), Cells(e), Addrs(post));
    }

    lemma PrefixApart(own: seq<Addr>, lo: nat, hi: nat, x: seq<Addr>, y: seq<Addr>, z: seq<Addr>)
      requires lo <= hi <= |own| && NoDup(own) && (x + y) + z == own[lo..hi]
      ensures forall a :: a in x ==> a !in y
    {
      forall i, j | 0 <= i < |x| && 0 <= j < |y| ensures x[i] != y[j] {
        assert own[lo + i] == ((x + y) + z)[i] == x[i];
        assert own[lo + |x| + j] == ((x + y) + z)[|x| + j] == y[j];
      }
    }

    // ----- zero-copy views -----

    /** The n bytes at a slab position are the n tensor bytes at offset. */
    ghost predicate ViewOf(slab: Slab, at: nat, handle: int, offset: nat, n: nat)
      reads this
    {
      && handle in records
      && offset + n <= |Addrs(records[handle].extents)|
      && exists s :: 0 <= s < |slabs| && slabs[s] == slab && ViewAt(s, at, handle, offset, n)
    }

    ghost predicate ViewAt(s: nat, at: nat, handle: int, offset: nat, n: nat)
      requires s < |slabs| && handle in records && offset + n <= |Addrs(records[handle].extents)|
      reads this
    {
      at + n <= slabs[s].size && Cells(Extent(s, at, n)) == Addrs(records[handle].extents)[offset..offset + n]
    }

    /** The slab that holds a tensor byte has a DMA buffer. */
    ghost predicate DmaAt(handle: int, offset: nat)
      reads this
    {
      && handle in records
      && offset < |Addrs(records[handle].extents)|
      && Addrs(records[handle].extents)[offset].slab < |slabs|
      && slabs[Addrs(records[handle].extents)[offset].slab].dma
    }

    lemma ViewDma(slab: Slab, at: nat, handle: int, offset: nat, n: nat)
      requires ViewOf(slab, at, handle, offset, n) && n > 0
      ensures slab.dma == DmaAt(handle, offset)
    {
      hide Addrs;
      var s :| 0 <= s < |slabs| && slabs[s] == slab && ViewAt(s, at, handle, offset, n);
      assert Cells(Extent(s, at, n))[0] == Addr(s, at);
      assert Addrs(records[handle].extents)[offset..offset + n][0] == Addrs(records[handle].extents)[offset];
    }

    /** A view exists exactly when one extent holds the range, and shows the bytes read returns. */
    method SlabView(handle: int, offset: int, n: int) returns (r: Result<(Slab, nat, nat)>)
      requires Valid()
      ensures RangeError(handle, offset, n).Some? ==> r == Err(RangeError(handle, offset, n).value)
      ensures RangeError(handle, offset, n).None? && n > 0 ==>
        if InOneExtent(records[handle].extents, offset, n) then r.Ok? else r == Err(MultiExtent)
      ensures RangeError(handle, offset, n).None? && n == 0 ==>
        if offset < records[handle].nbytes then r.Ok? else r == Err(InternalError)
      ensures r.Ok? ==>
        && RangeError(handle, offset, n).None?
        && |Tensors()[handle]| == records[handle].nbytes
        && r.value.2 == n
        && ViewOf(r.value.0, r.value.1, handle, offset, n)
        && r.value.1 + r.value.2 <= |r.value.0.data|
        && r.value.0.data[r.value.1..r.value.1 + r.value.2] == Tensors()[handle][offset..offset + n]
    {
      hide Tiles, Addrs, Cells, Gather, ExtentOk, SizeOf, NoDup, Inside, ViewOf;
      var record := GetRecord(handle);
      if record.Err? {
        return Err(record.error);
      }
      if offset < 0 || n < 0 {
        return Err(InvalidRequest);
      }
      if offset + n > record.value.nbytes {
        return Err(OutOfBounds);
      }
      RecordLength(handle);
      var es := record.value.extents;
      AddrsLength(es);
      NoParts();
      assert es[..0] == [] && es[..|es|] == es;
      var cursor: nat := 0;
      for i := 0 to |es|
        invariant cursor == SizeOf(es[..i]) <= offset
        invariant forall j :: 0 <= j < i && n > 0 ==> !Inside(es, j, offset, n)
      {
        AddrsAt(es, i);
        var extentEnd := cursor + es[i].size;
        if offset >= extentEnd {
          cursor := extentEnd;
          NotInside(es, i, offset, n);
          continue;
        }
        var local := offset - cursor;
        if local + n > es[i].size {
          NoneInside(es, i, offset, n);
          return Err(MultiExtent);
        }
        IsInside(es, i, offset, n);
        ViewBytes(handle, i, offset, local, n);
        return Ok((slabs[es[i].slab], es[i].off + local, n));
      }
      return Err(InternalError);
    }

    lemma NotInside(es: seq<Extent>, i: nat, offset: int, n: int)
      requires i < |es| && offset >= SizeOf(es[..i]) + es[i].size
      ensures n > 0 ==> !Inside(es, i, offset, n)
    {
    }

    lemma IsInside(es: seq<Extent>, i: nat, offset: int, n: int)
      requires i < |es| && SizeOf(es[..i]) <= offset && offset + n <= SizeOf(es[..i]) + es[i].size
      ensures InOneExtent(es, offset, n)
    {
      assert Inside(es, i, offset, n);
    }

    lemma NoneInside(es: seq<Extent>, i: nat, offset: int, n: int)
      requires i < |es| && n > 0 && SizeOf(es[..i]) <= offset < SizeOf(es[..i]) + es[i].size < offset + n
      requires forall j :: 0 <= j < i ==> !Inside(es, j, offset, n)
      ensures !InOneExtent(es, offset, n)
    {
      hide SizeOf, Addrs, Cells;
      AddrsAt(es, i);
      forall j | i < j < |es| ensures !Inside(es, j, offset, n) {
        PrefixGrows(es, i + 1, j);
      }
    }

    lemma ViewBytes(handle: int, i: nat, offset: nat, local: nat, n: nat)
      requires Valid() && handle in records && i < |records[handle].extents|
      requires local + n <= records[handle].extents[i].size
      requires offset == SizeOf(records[handle].extents[..i]) + local
      ensures records[handle].extents[i].slab < |slabs|
      ensures records[handle].extents[i].off + local + n <= |slabs[records[handle].extents[i].slab].data|
      ensures offset + n <= |Tensors()[handle]|
      ensures ViewOf(slabs[records[handle].extents[i].slab], records[handle].extents[i].off + local, handle, offset, n)
      ensures var e := records[handle].extents[i];
        slabs[e.slab].data[e.off + local..e.off + local + n] == Tensors()[handle][offset..offset + n]
    {
      hide Addrs, Cells, SizeOf, Tiles, Gather, NoDup;
      var es := records[handle].extents;
      RecordLength(handle);
      var p := Piece(es[i], local, n);
      PartSlice(es, i, p);
      GatherPart(Memory(), p.Part());
      GatherSlice(Memory(), Addrs(es), offset, offset + n);
      assert ViewAt(es[i].slab, es[i].off + local, handle, offset, n);
    }

    /** Storing through a view, as a DMA does, patches the tensor it views. */
    method StoreThroughView(slab: Slab, at: nat, data: seq<byte>, ghost handle: int, ghost offset: nat)
      requires Valid() && ViewOf(slab, at, handle, offset, |data|)
      modifies slab
      ensures Valid() && Untouched()
      ensures offset + |data| <= |old(Tensors())[handle]|
      ensures Tensors() == old(Tensors())[handle := Patch(old(Tensors())[handle], offset, data)]
    {
      hide Tiles, Addrs, Cells, Gather, Stored, Contents, NoDup;
      ghost var before := Memory();
      ghost var s :| 0 <= s < |slabs| && slabs[s] == slab && ViewAt(s, at, handle, offset, |data|);
      slab.Write(at, data);
      StoredPatch(before, Memory(), Extent(s, at, |data|), data);
      StoreIsPatch(Sizes(), free, records, before, Memory(), handle, offset, data);
    }

    function PhysicalOf(a: Addr): nat
      requires a.slab < |slabs|
    {
      slabs[a.slab].physicalAddress + a.off
    }

    /** A view shows the tensor's bytes. */
    lemma ViewReads(slab: Slab, at: nat, handle: int, offset: nat, n: nat)
      requires Valid() && ViewOf(slab, at, handle, offset, n)
      ensures at + n <= |slab.data| && offset + n <= |Tensors()[handle]|
      ensures slab.data[at..at + n] == Tensors()[handle][offset..offset + n]
    {
      hide Tiles, Addrs, Cells, Gather, NoDup;
      var s :| 0 <= s < |slabs| && slabs[s] == slab && ViewAt(s, at, handle, offset, n);
      GatherPart(Memory(), Extent(s, at, n));
      GatherSlice(Memory(), Addrs(records[handle].extents), offset, offset + n);
    }

    /** The bus address of a tensor byte; one past the end reads as zero. */
    method Physical(handle: int, offset: int) returns (r: Result<nat>)
      requires Valid()
      ensures handle !in records ==> r == Err(UnknownTensor)
      ensures handle in records && !(0 <= offset <= records[handle].nbytes) ==> r == Err(OutOfBounds)
      ensures handle in records && offset == records[handle].nbytes ==> r == Ok(0)
      ensures handle in records && 0 <= offset < records[handle].nbytes ==>
        && offset < |Addrs(records[handle].extents)|
        && Addrs(records[handle].extents)[offset].slab < |slabs|
        && r == Ok(PhysicalOf(Addrs(records[handle].extents)[offset]))
    {
      hide Tiles, Addrs, Cells, Gather, ExtentOk, SizeOf, NoDup;
      var record := GetRecord(handle);
      if record.Err? {
        return Err(record.error);
      }
      if offset < 0 || offset > record.value.nbytes {
        return Err(OutOfBounds);
      }
      RecordLength(handle);
      var es := record.value.extents;
      AddrsLength(es);
      NoParts();
      assert es[..0] == [] && es[..|es|] == es;
      var position: nat := 0;
      for i := 0 to |es|
        invariant position == SizeOf(es[..i]) <= offset
      {
        AddrsAt(es, i);
        var end := position + es[i].size;
        if offset < end {
          AddrInExtent(es, i, offset - position);
          return Ok(slabs[es[i].slab].physicalAddress + es[i].off + (offset - position));
        }
        position := end;
      }
      return Ok(0);
    }

    lemma AddrInExtent(es: seq<Extent>, i: nat, local: nat)
      requires ExtentsOk(Sizes(), es) && i < |es| && local < es[i].size
      ensures SizeOf(es[..i]) + local < |Addrs(es)| && es[i].slab < |slabs|
      ensures Addrs(es)[SizeOf(es[..i]) + local] == Addr(es[i].slab, es[i].off + local)
    {
      AddrsAt(es, i);
      hide Addrs, SizeOf;
      var c := SizeOf(es[..i]);
      assert Addrs(es)[c..c + es[i].size][local] == Cells(es[i])[local];
    }

    /** Slabs whose bus ranges do not meet. */
    predicate SlabsApart()
    {
      forall i, j :: 0 <= i < |slabs| && 0 <= j < |slabs| && i != j ==>
        slabs[i].physicalAddress + slabs[i].size <= slabs[j].physicalAddress ||
        slabs[j].physicalAddress + slabs[j].size <= slabs[i].physicalAddress
    }

    /** Over slabs that do not overlap, no two live bytes share a bus address. */
    lemma PhysicalDistinct(h: int, i: nat, g: int, j: nat)
      requires Valid() && SlabsApart() && h in records && g in records
      requires i < |Addrs(records[h].extents)| && j < |Addrs(records[g].extents)|
      requires Addrs(records[h].extents)[i].slab < |slabs| && Addrs(records[g].extents)[j].slab < |slabs|
      requires PhysicalOf(Addrs(records[h].extents)[i]) == PhysicalOf(Addrs(records[g].extents)[j])
      ensures h == g && i == j
    {
      hide Addrs, FreeAt, FreeLists;
      var a, b := Addrs(records[h].extents)[i], Addrs(records[g].extents)[j];
      OwnedInside(Sizes(), records[h], a);
      OwnedInside(Sizes(), records[g], b);
      assert a == b;
      assert Owns(records, h, a) && Owns(records, g, b);
    }
  }

  /** Cut total_bytes into slabs of at most slab_bytes, with a gap between their bus ranges. */
  method FakeSlabs(totalBytes: int, slabBytes: int) returns (r: Result<seq<Slab>>)
    ensures r.Err? <==> totalBytes <= 0 || slabBytes <= 0
    ensures r.Err? ==> r.error == ValueError
    ensures r.Ok? ==> |r.value| > 0 && SlabRow(r.value, totalBytes, slabBytes)
    ensures r.Ok? ==> forall i :: 0 <= i < |r.value| ==> fresh(r.value[i]) && r.value[i].Valid()
  {
    hide *;
    if totalBytes <= 0 || slabBytes <= 0 {
      return Err(ValueError);
    }
    var slabs: seq<Slab> := [];
    var baseAddress: nat := BASE_ADDRESS;
    NoRow(slabBytes);
    var remaining := totalBytes;
    while remaining > 0
      invariant 0 <= remaining <= totalBytes
      invariant forall s <- slabs :: fresh(s) && s.Valid()
      invariant remaining < totalBytes ==> |slabs| > 0
      invariant SlabRow(slabs, totalBytes - remaining, slabBytes)
      invariant RowBelow(slabs, baseAddress)
    {
      var size := if slabBytes < remaining then slabBytes else remaining;
      var slab := NewSlab(slabs, size, baseAddress, totalBytes - remaining, slabBytes);
      slabs := slabs + [slab];
      baseAddress := baseAddress + size + SLAB_GAP;
      remaining := remaining - size;
    }
    assert forall i :: 0 <= i < |slabs| ==> slabs[i] in slabs;
    return Ok(slabs);
  }

  /** One more slab at the end of a row. */
  method NewSlab(ghost slabs: seq<Slab>, size: nat, base: nat, ghost total: nat, ghost most: nat)
    returns (slab: Slab)
    requires SlabRow(slabs, total, most) && RowBelow(slabs, base) && 0 < size <= most
    ensures fresh(slab) && slab.Valid()
    ensures SlabRow(slabs + [slab], total + size, most) && RowBelow(slabs + [slab], base + size + SLAB_GAP)
  {
    hide SlabTotal, SlabRow, RowBelow;
    slab := new Slab(size, base, false);
    RowSnoc(slabs, slab, total, most);
  }

  const BASE_ADDRESS: nat := 0x1000_0000
  const SLAB_GAP: nat := 0x1000

  function SlabTotal(slabs: seq<Slab>): nat
  {
    if slabs == [] then 0 else SlabTotal(slabs[..|slabs| - 1]) + slabs[|slabs| - 1].size
  }

  lemma SlabTotalSnoc(slabs: seq<Slab>, slab: Slab)
    ensures SlabTotal(slabs + [slab]) == SlabTotal(slabs) + slab.size
  {
    assert (slabs + [slab])[..|slabs|] == slabs;
  }

  /** Distinct zeroed slabs of the right total, none too large, with gaps between them. */
  predicate SlabRow(slabs: seq<Slab>, total: nat, most: nat)
  {
    && SlabTotal(slabs) == total
    && (forall i :: 0 <= i < |slabs| ==> 0 < slabs[i].size <= most)
    && (forall i, j :: 0 <= i < j < |slabs| ==>
      slabs[i] != slabs[j] && slabs[i].physicalAddress + slabs[i].size + SLAB_GAP <= slabs[j].physicalAddress)
    && (forall i :: 0 <= i < |slabs| ==> slabs[i].physicalAddress == NextAddress(slabs[..i]))
  }

  /** Slabs follow each other from 256 MiB on, 4 KiB apart. */
  function NextAddress(slabs: seq<Slab>): nat
  {
    0x1000_0000 + SlabTotal(slabs) + 0x1000 * |slabs|
  }

  /** base is the next slab's address, past all of them. */
  predicate RowBelow(slabs: seq<Slab>, base: nat)
  {
    && base == NextAddress(slabs)
    && forall i :: 0 <= i < |slabs| ==> slabs[i].physicalAddress + slabs[i].size + SLAB_GAP <= base
  }

  lemma NoRow(most: nat)
    ensures SlabRow([], 0, most) && RowBelow([], BASE_ADDRESS)
  {
  }

  lemma RowSnoc(slabs: seq<Slab>, slab: Slab, total: nat, most: nat)
    requires SlabRow(slabs, total, most) && slab !in slabs && 0 < slab.size <= most
    requires RowBelow(slabs, slab.physicalAddress)
    ensures SlabRow(slabs + [slab], total + slab.size, most)
    ensures RowBelow(slabs + [slab], slab.physicalAddress + slab.size + SLAB_GAP)
  {
    SlabTotalSnoc(slabs, slab);
    hide SlabTotal;
    assert forall i :: 0 <= i <= |slabs| ==> (slabs + [slab])[..i] == slabs[..i];
    assert slabs[..|slabs|] == slabs;
  }

  /** A fresh allocator over such slabs is valid, empty and has disjoint bus ranges. */
  method FakeAllocator(totalBytes: int, slabBytes: int) returns (r: Result<TensorAllocator>)
    ensures r.Err? <==> totalBytes <= 0 || slabBytes <= 0
    ensures r.Ok? ==>
      r.value.Valid() && r.value.SlabsApart() && r.value.Tensors() == map[] && SlabTotal(r.value.slabs) == totalBytes
  {
    var slabs := FakeSlabs(totalBytes, slabBytes);
    if slabs.Err? {
      return Err(slabs.error);
    }
    var a := new TensorAllocator(slabs.value, 64);
    return Ok(a);
  }
}

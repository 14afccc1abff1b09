/**
 Placing tensors: what one reservation does to the free lists, and how much a slab can
 still give at an alignment. The greedy multi-slab fill is complete because taking all
 that is usable of a block costs exactly that much (TakeCosts).
 */
module Placement {
  import opened Common
  import opened FreeList
  import opened Extents

  /** Bytes all slabs together can give at an alignment. */
  function SumAvail(free: seq<seq<Block>>, alignment: nat): nat
    requires alignment > 0
  {
    if free == [] then 0 else Avail(free[0], alignment) + SumAvail(free[1..], alignment)
  }

  lemma {:induction false} SumAvailUpdate(free: seq<seq<Block>>, s: nat, fs: seq<Block>, alignment: nat)
    requires alignment > 0 && s < |free|
    ensures SumAvail(free[s := fs], alignment) + Avail(free[s], alignment) ==
            SumAvail(free, alignment) + Avail(fs, alignment)
  {
    hide Avail;
    if s > 0 {
      SumAvailUpdate(free[1..], s - 1, fs, alignment);
      assert free[s := fs][1..] == free[1..][s - 1 := fs];
    } else {
      assert free[s := fs][1..] == free[1..];
    }
  }

  lemma {:induction false} SumAvailAtLeast(free: seq<seq<Block>>, s: nat, alignment: nat)
    requires alignment > 0 && s < |free|
    ensures Avail(free[s], alignment) <= SumAvail(free, alignment)
  {
    hide Avail;
    if s > 0 {
      SumAvailAtLeast(free[1..], s - 1, alignment);
    }
  }

  lemma {:induction false} SumAvailNone(free: seq<seq<Block>>, alignment: nat)
    requires alignment > 0 && forall s :: 0 <= s < |free| ==> Avail(free[s], alignment) == 0
    ensures SumAvail(free, alignment) == 0
  {
    hide Avail;
    if free != [] {
      SumAvailNone(free[1..], alignment);
    }
  }

  /** A block that can hold n bytes after alignment. */
  predicate Roomy(b: Block, alignment: nat, n: nat)
    requires alignment > 0
  {
    AlignUp(b.off, alignment) + n <= b.End()
  }

  /** No block before position (s, i) is roomy. */
  predicate NoneBefore(free: seq<seq<Block>>, s: nat, i: nat, alignment: nat, n: nat)
    requires alignment > 0
  {
    forall t, j :: 0 <= t < |free| && 0 <= j < |free[t]| && (t < s || (t == s && j < i)) ==>
      !Roomy(free[t][j], alignment, n)
  }

  /** The block has n bytes somewhere at the alignment. */
  ghost predicate HasRoom(b: Block, alignment: nat, n: nat)
    requires alignment > 0
  {
    exists at: nat :: b.off <= at && at % alignment == 0 && at + n <= b.off + b.size
  }

  /** A block is roomy just when it has room at the alignment at all, and what is usable is the most it has room for. */
  lemma RoomyIff(b: Block, alignment: nat, n: nat)
    requires alignment > 0 && n > 0
    ensures Roomy(b, alignment, n) <==> HasRoom(b, alignment, n)
    ensures HasRoom(b, alignment, n) <==> n <= Usable(b, alignment)
  {
    AlignUpLaw(b.off, alignment);
    hide AlignUp;
  }

  lemma RoomyAvail(free: seq<seq<Block>>, s: nat, i: nat, alignment: nat, n: nat)
    requires alignment > 0 && s < |free| && i < |free[s]| && n > 0 && Roomy(free[s][i], alignment, n)
    ensures n <= SumAvail(free, alignment)
    ensures Holds(free[s][i], AlignUp(free[s][i].off, alignment), n)
  {
    AlignUpLaw(free[s][i].off, alignment);
    assert n <= Usable(free[s][i], alignment);
    hide AlignUp, Usable;
    AvailAtLeast(free[s], i, alignment);
    SumAvailAtLeast(free, s, alignment);
  }

  // ----- the greedy fill -----

  /** The first block at or after i with anything usable, or the length. */
  function FirstIn(fs: seq<Block>, i: nat, alignment: nat): (j: nat)
    requires alignment > 0 && i <= |fs|
    ensures i <= j <= |fs| && (j < |fs| ==> Usable(fs[j], alignment) > 0)
    decreases |fs| - i
  {
    if i == |fs| || Usable(fs[i], alignment) > 0 then i else FirstIn(fs, i + 1, alignment)
  }

  /** The same over the slabs from s on. */
  function FirstUsable(free: seq<seq<Block>>, s: nat, alignment: nat): (r: Option<(nat, nat)>)
    requires alignment > 0 && s <= |free|
    ensures r.Some? ==>
      r.value.0 < |free| && r.value.1 < |free[r.value.0]| && Usable(free[r.value.0][r.value.1], alignment) > 0
    decreases |free| - s
  {
    if s == |free| then None
    else
      var i := FirstIn(free[s], 0, alignment);
      if i < |free[s]| then Some((s, i)) else FirstUsable(free, s + 1, alignment)
  }

  lemma UsableFromStart(b: Block, alignment: nat, take: nat)
    requires alignment > 0 && take <= Usable(b, alignment) && Usable(b, alignment) > 0
    ensures Holds(b, AlignUp(b.off, alignment), take)
  {
    AlignUpLaw(b.off, alignment);
  }

  /** The extents of the greedy fill: all of the first usable block, over and over, the last one cut to size. */
  function Greedy(free: seq<seq<Block>>, remaining: nat, alignment: nat): seq<Extent>
    requires alignment > 0
    decreases remaining
  {
    var first := FirstUsable(free, 0, alignment);
    if remaining == 0 || first.None? then []
    else
      var (s, i) := first.value;
      var b := free[s][i];
      var take := if remaining <= Usable(b, alignment) then remaining else Usable(b, alignment);
      UsableFromStart(b, alignment, take);
      [Extent(s, AlignUp(b.off, alignment), take)] +
      Greedy(TakeAt(free, s, i, AlignUp(b.off, alignment), take), remaining - take, alignment)
  }

  lemma {:induction false} FirstInIs(fs: seq<Block>, k: nat, i: nat, alignment: nat)
    requires alignment > 0 && k <= i <= |fs| && (forall j :: k <= j < i ==> Usable(fs[j], alignment) == 0)
    requires i < |fs| ==> Usable(fs[i], alignment) > 0
    ensures FirstIn(fs, k, alignment) == i
    decreases i - k
  {
    hide Usable;
    if k < i {
      FirstInIs(fs, k + 1, i, alignment);
    }
  }

  lemma {:induction false} FirstUsableIs(free: seq<seq<Block>>, k: nat, s: nat, i: nat, alignment: nat)
    requires alignment > 0 && k <= s < |free| && i < |free[s]| && Usable(free[s][i], alignment) > 0
    requires forall t :: k <= t < s ==> Avail(free[t], alignment) == 0
    requires forall j :: 0 <= j < i ==> Usable(free[s][j], alignment) == 0
    ensures FirstUsable(free, k, alignment) == Some((s, i))
    decreases s - k
  {
    hide Usable, Avail;
    if k < s {
      forall j | 0 <= j < |free[k]| ensures Usable(free[k][j], alignment) == 0 {
        AvailAtLeast(free[k], j, alignment);
      }
      FirstInIs(free[k], 0, |free[k]|, alignment);
      FirstUsableIs(free, k + 1, s, i, alignment);
    } else {
      FirstInIs(free[s], 0, i, alignment);
    }
  }

  lemma GreedyDone(free: seq<seq<Block>>, alignment: nat)
    requires alignment > 0
    ensures Greedy(free, 0, alignment) == []
  {
  }

  lemma GreedyStep(free: seq<seq<Block>>, s: nat, i: nat, remaining: nat, alignment: nat, off: nat, n: nat)
    requires alignment > 0 && remaining > 0 && s < |free| && i < |free[s]|
    requires forall t :: 0 <= t < s ==> Avail(free[t], alignment) == 0
    requires forall j :: 0 <= j < i ==> Usable(free[s][j], alignment) == 0
    requires Usable(free[s][i], alignment) > 0 && off == AlignUp(free[s][i].off, alignment)
    requires n == if remaining <= Usable(free[s][i], alignment) then remaining else Usable(free[s][i], alignment)
    requires Holds(free[s][i], off, n)
    ensures Greedy(free, remaining, alignment) ==
            [Extent(s, off, n)] + Greedy(TakeAt(free, s, i, off, n), remaining - n, alignment)
  {
    hide Usable, Avail, AlignUp, Carve, Holds;
    FirstUsableIs(free, 0, s, i, alignment);
  }

  // ----- taking extents -----

  function TakeAt(free: seq<seq<Block>>, s: nat, i: nat, off: nat, n: nat): seq<seq<Block>>
    requires s < |free| && i < |free[s]| && Holds(free[s][i], off, n)
  {
    free[s := Carve(free[s], i, off, n)]
  }

  lemma OneExtent(e: Extent)
    ensures Addrs([e]) == Cells(e) && SizeOf([e]) == e.size
  {
  }

  /** Reserving bytes of one block takes exactly that extent out of the free space. */
  lemma TakeLaw(sizes: seq<nat>, free: seq<seq<Block>>, s: nat, i: nat, off: nat, n: nat)
    requires FreeLists(sizes, free) && s < |free| && i < |free[s]| && Holds(free[s][i], off, n) && n > 0
    ensures FreeLists(sizes, TakeAt(free, s, i, off, n))
    ensures ExtentOk(sizes, Extent(s, off, n))
    ensures TakenFrom(free, TakeAt(free, s, i, off, n), [Extent(s, off, n)])
  {
    var e, rest := Extent(s, off, n), TakeAt(free, s, i, off, n);
    CarveLaw(free[s], i, off, n, sizes[s]);
    hide FreeOk, Bytes, Carve, Holds, Addrs;
    OneExtent(e);
    forall a ensures a in Addrs([e]) ==> FreeAt(free, a)
      ensures FreeAt(rest, a) <==> FreeAt(free, a) && a !in Addrs([e])
    {
      InCells(e, a);
    }
  }

  lemma {:induction false} CellsDistinct(e: Extent)
    ensures NoDup(Cells(e))
  {
  }

  lemma NoDupJoin(a: seq<Addr>, b: seq<Addr>)
    requires NoDup(a) && NoDup(b) && forall x :: x in a ==> x !in b
    ensures NoDup(a + b)
  {
    forall i, j | 0 <= i < j < |a + b| ensures (a + b)[i] != (a + b)[j] {
      if i < |a| <= j {
        assert a[i] in a && b[j - |a|] in b;
      }
    }
  }

  /** Two placements one after the other are one placement of all the extents. */
  lemma TakenSnoc(f: seq<seq<Block>>, g: seq<seq<Block>>, h: seq<seq<Block>>, es: seq<Extent>, e: Extent)
    requires TakenFrom(f, g, es) && NoDup(Addrs(es)) && TakenFrom(g, h, [e])
    ensures TakenFrom(f, h, es + [e]) && NoDup(Addrs(es + [e]))
  {
    hide FreeAt, Addrs, Cells;
    OneExtent(e);
    AddrsSnoc(es, e);
    CellsDistinct(e);
    NoDupJoin(Addrs(es), Cells(e));
  }

  lemma TakenNothing(f: seq<seq<Block>>)
    ensures TakenFrom(f, f, []) && NoDup(Addrs([]))
  {
  }

  /** Taking all that is usable of a block lowers what is available by just that much. */
  lemma TakeCosts(free: seq<seq<Block>>, s: nat, i: nat, alignment: nat)
    requires alignment > 0 && s < |free| && i < |free[s]| && Usable(free[s][i], alignment) > 0
    ensures Holds(free[s][i], AlignUp(free[s][i].off, alignment), Usable(free[s][i], alignment))
    ensures
      SumAvail(TakeAt(free, s, i, AlignUp(free[s][i].off, alignment), Usable(free[s][i], alignment)), alignment) ==
      SumAvail(free, alignment) - Usable(free[s][i], alignment)
  {
    CarveAvail(free[s], i, alignment);
    hide AlignUp, Usable, Carve, Avail;
    SumAvailUpdate(free, s, Carve(free[s], i, AlignUp(free[s][i].off, alignment), Usable(free[s][i], alignment)),
                   alignment);
  }
}

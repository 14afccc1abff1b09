/**
 What the allocator's state means: extents as sequences of byte addresses, the tiling of
 every slab by free blocks and live extents, and the tensors the memory holds.
 */
module Extents {
  import opened Common
  import opened FreeList

  datatype Addr = Addr(slab: nat, off: nat)
  datatype Extent = Extent(slab: nat, off: nat, size: nat)
  datatype Record = Record(handle: int, nbytes: nat, extents: seq<Extent>)

  // ----- extents as address sequences -----

  function Cells(e: Extent): (s: seq<Addr>)
    ensures |s| == e.size
  {
    seq(e.size, i requires 0 <= i < e.size => Addr(e.slab, e.off + i))
  }

  /** The addresses of a tensor's bytes, in tensor order. */
  function Addrs(es: seq<Extent>): seq<Addr>
  {
    if es == [] then [] else Cells(es[0]) + Addrs(es[1..])
  }

  function SizeOf(es: seq<Extent>): nat
  {
    if es == [] then 0 else es[0].size + SizeOf(es[1..])
  }

  predicate InExtent(e: Extent, a: Addr)
  {
    a.slab == e.slab && e.off <= a.off < e.off + e.size
  }

  lemma InCells(e: Extent, a: Addr)
    ensures a in Cells(e) <==> InExtent(e, a)
  {
    if InExtent(e, a) {
      assert Cells(e)[a.off - e.off] == a;
    }
  }

  lemma {:induction false} AddrsConcat(a: seq<Extent>, b: seq<Extent>)
    ensures Addrs(a + b) == Addrs(a) + Addrs(b)
    ensures SizeOf(a + b) == SizeOf(a) + SizeOf(b)
  {
    hide Cells;
    if a == [] {
      assert a + b == b;
    } else {
      assert (a + b)[1..] == a[1..] + b;
      AddrsConcat(a[1..], b);
    }
  }

  lemma AddrsSnoc(a: seq<Extent>, e: Extent)
    ensures Addrs(a + [e]) == Addrs(a) + Cells(e)
    ensures SizeOf(a + [e]) == SizeOf(a) + e.size
  {
    AddrsConcat(a, [e]);
    assert Addrs([e]) == Cells(e);
  }

  lemma {:induction false} AddrsLength(es: seq<Extent>)
    ensures |Addrs(es)| == SizeOf(es)
  {
    if es != [] {
      AddrsLength(es[1..]);
    }
  }

  /** Where extent i sits in the tensor. */
  lemma AddrsAt(es: seq<Extent>, i: nat)
    requires i < |es|
    ensures SizeOf(es[..i]) + es[i].size <= |Addrs(es)|
    ensures Addrs(es)[SizeOf(es[..i])..SizeOf(es[..i]) + es[i].size] == Cells(es[i])
    ensures SizeOf(es[..i + 1]) == SizeOf(es[..i]) + es[i].size
  {
    hide Addrs, SizeOf, Cells;
    var pre, post := es[..i], es[i + 1..];
    assert es == (pre + [es[i]]) + post && es[..i + 1] == pre + [es[i]];
    AddrsConcat(pre + [es[i]], post);
    AddrsSnoc(pre, es[i]);
    AddrsLength(pre);
  }

  /** Extent i holds the whole range. */
  predicate Inside(es: seq<Extent>, i: nat, offset: int, n: int)
    requires i < |es|
  {
    SizeOf(es[..i]) <= offset && offset + n <= SizeOf(es[..i]) + es[i].size
  }

  predicate InOneExtent(es: seq<Extent>, offset: int, n: int)
  {
    exists i :: 0 <= i < |es| && Inside(es, i, offset, n)
  }

  lemma {:induction false} PrefixGrows(es: seq<Extent>, i: nat, j: nat)
    requires i <= j <= |es|
    ensures SizeOf(es[..i]) <= SizeOf(es[..j])
  {
    hide SizeOf, Addrs, Cells;
    if i < j {
      PrefixGrows(es, i, j - 1);
      AddrsAt(es, j - 1);
    }
  }

  // ----- free space as addresses -----

  predicate FreeLists(sizes: seq<nat>, free: seq<seq<Block>>)
  {
    |free| == |sizes| && forall s :: 0 <= s < |sizes| ==> FreeOk(free[s], sizes[s])
  }

  predicate FreeAt(free: seq<seq<Block>>, a: Addr)
  {
    a.slab < |free| && a.off in Bytes(free[a.slab])
  }

  predicate InSlabs(sizes: seq<nat>, a: Addr)
  {
    a.slab < |sizes| && a.off < sizes[a.slab]
  }

  predicate ExtentOk(sizes: seq<nat>, e: Extent)
  {
    e.size > 0 && e.slab < |sizes| && e.off + e.size <= sizes[e.slab]
  }

  predicate ExtentsOk(sizes: seq<nat>, es: seq<Extent>)
  {
    forall i :: 0 <= i < |es| ==> ExtentOk(sizes, es[i])
  }

  /** Every extent names one of n slabs. */
  predicate Placed(n: nat, es: seq<Extent>)
  {
    forall i :: 0 <= i < |es| ==> es[i].slab < n
  }

  function ReleaseOne(free: seq<seq<Block>>, e: Extent): (r: seq<seq<Block>>)
    requires e.slab < |free|
    ensures |r| == |free|
  {
    free[e.slab := Released(free[e.slab], Block(e.off, e.size))]
  }

  /** Releasing a tensor's extents one after the other. */
  function ReleaseAll(free: seq<seq<Block>>, es: seq<Extent>): (r: seq<seq<Block>>)
    requires Placed(|free|, es)
    ensures |r| == |free|
  {
    if es == [] then free
    else ReleaseOne(ReleaseAll(free, es[..|es| - 1]), es[|es| - 1])
  }

  lemma ReleaseOneLaw(sizes: seq<nat>, free: seq<seq<Block>>, e: Extent)
    requires FreeLists(sizes, free) && ExtentOk(sizes, e)
    ensures FreeLists(sizes, ReleaseOne(free, e))
    ensures forall a :: FreeAt(ReleaseOne(free, e), a) <==> FreeAt(free, a) || InExtent(e, a)
  {
    hide FreeOk, Bytes, Released;
    ReleasedLaw(free[e.slab], Block(e.off, e.size), sizes[e.slab]) by { UnhideFreeOk(sizes, free, e.slab); }
  }

  lemma UnhideFreeOk(sizes: seq<nat>, free: seq<seq<Block>>, s: nat)
    requires FreeLists(sizes, free) && s < |sizes|
    ensures FreeOk(free[s], sizes[s])
  {
  }

  /** Releasing extents frees exactly their addresses. */
  lemma {:induction false} ReleaseAllLaw(sizes: seq<nat>, free: seq<seq<Block>>, es: seq<Extent>)
    requires FreeLists(sizes, free) && ExtentsOk(sizes, es)
    ensures Placed(|free|, es)
    ensures FreeLists(sizes, ReleaseAll(free, es))
    ensures forall a :: FreeAt(ReleaseAll(free, es), a) <==> FreeAt(free, a) || a in Addrs(es)
  {
    hide FreeAt, ReleaseOne, Cells, FreeOk;
    if es != [] {
      var front, e := es[..|es| - 1], es[|es| - 1];
      ReleaseAllLaw(sizes, free, front);
      ReleaseOneLaw(sizes, ReleaseAll(free, front), e);
      assert es == front + [e];
      AddrsSnoc(front, e);
      forall a ensures FreeAt(ReleaseAll(free, es), a) <==> FreeAt(free, a) || a in Addrs(es) {
        InCells(e, a);
      }
    }
  }

  /** Free lists are determined by which addresses are free. */
  lemma FreeListsUnique(sizes: seq<nat>, f: seq<seq<Block>>, g: seq<seq<Block>>)
    requires FreeLists(sizes, f) && FreeLists(sizes, g)
    requires forall a :: FreeAt(f, a) <==> FreeAt(g, a)
    ensures f == g
  {
    hide FreeOk, Bytes;
    forall s | 0 <= s < |sizes| ensures f[s] == g[s] {
      forall p: nat ensures p in Bytes(f[s]) <==> p in Bytes(g[s]) {
        assert FreeAt(f, Addr(s, p)) <==> FreeAt(g, Addr(s, p));
      }
      UniqueFree(f[s], g[s], sizes[s]);
    }
  }

  /** Free space after some extents were taken out of it. */
  ghost predicate TakenFrom(free: seq<seq<Block>>, rest: seq<seq<Block>>, es: seq<Extent>)
  {
    && (forall a :: a in Addrs(es) ==> FreeAt(free, a))
    && (forall a :: FreeAt(rest, a) <==> FreeAt(free, a) && a !in Addrs(es))
  }

  /** Rolling back a placement restores every free list block for block. */
  lemma Rollback(sizes: seq<nat>, free: seq<seq<Block>>, rest: seq<seq<Block>>, es: seq<Extent>)
    requires FreeLists(sizes, free) && FreeLists(sizes, rest) && ExtentsOk(sizes, es)
    requires TakenFrom(free, rest, es)
    ensures Placed(|rest|, es)
    ensures ReleaseAll(rest, es) == free
  {
    hide FreeAt, ReleaseAll, FreeLists, Addrs;
    ReleaseAllLaw(sizes, rest, es);
    FreeListsUnique(sizes, ReleaseAll(rest, es), free);
  }

  /** Freeing two tensors in either order leaves the same free lists. */
  lemma FreesCommute(sizes: seq<nat>, free: seq<seq<Block>>, xs: seq<Extent>, ys: seq<Extent>)
    requires FreeLists(sizes, free) && ExtentsOk(sizes, xs) && ExtentsOk(sizes, ys)
    ensures Placed(|free|, xs) && Placed(|free|, ys)
    ensures ReleaseAll(ReleaseAll(free, xs), ys) == ReleaseAll(ReleaseAll(free, ys), xs)
  {
    hide FreeAt, ReleaseAll, FreeLists, Addrs;
    ReleaseAllLaw(sizes, free, xs);
    ReleaseAllLaw(sizes, free, ys);
    ReleaseAllLaw(sizes, ReleaseAll(free, xs), ys);
    ReleaseAllLaw(sizes, ReleaseAll(free, ys), xs);
    FreeListsUnique(sizes, ReleaseAll(ReleaseAll(free, xs), ys), ReleaseAll(ReleaseAll(free, ys), xs));
  }

  // ----- the tiling invariant -----

  predicate NoDup(s: seq<Addr>)
  {
    forall i, j :: 0 <= i < j < |s| ==> s[i] != s[j]
  }

  predicate RecordOk(sizes: seq<nat>, r: Record)
  {
    ExtentsOk(sizes, r.extents) && NoDup(Addrs(r.extents)) && |Addrs(r.extents)| == r.nbytes
  }

  predicate Owns(records: map<int, Record>, h: int, a: Addr)
  {
    h in records && a in Addrs(records[h].extents)
  }

  ghost predicate Owned(records: map<int, Record>, a: Addr)
  {
    exists h :: Owns(records, h, a)
  }

  ghost predicate OwnedBelow(records: map<int, Record>, n: nat, a: Addr)
  {
    exists h :: 0 <= h < n && Owns(records, h, a)
  }

  /** Every slab is tiled exactly by its free blocks and the live extents. */
  ghost predicate Tiles(sizes: seq<nat>, free: seq<seq<Block>>, records: map<int, Record>)
  {
    && FreeLists(sizes, free)
    && (forall h :: h in records ==> RecordOk(sizes, records[h]))
    && (forall h, a :: Owns(records, h, a) ==> !FreeAt(free, a))
    && (forall h, g, a :: Owns(records, h, a) && Owns(records, g, a) ==> h == g)
    && (forall a :: InSlabs(sizes, a) ==> FreeAt(free, a) || Owned(records, a))
  }

  lemma TilesFreeLists(sizes: seq<nat>, free: seq<seq<Block>>, records: map<int, Record>)
    requires Tiles(sizes, free, records)
    ensures FreeLists(sizes, free)
  {
  }

  lemma SameLength(sizes: seq<nat>, free: seq<seq<Block>>)
    requires FreeLists(sizes, free)
    ensures |free| == |sizes|
  {
  }

  /** Free lists are a function of the live extents. */
  lemma FreeDeterminedByLive(
    sizes: seq<nat>, f: seq<seq<Block>>, g: seq<seq<Block>>, rs: map<int, Record>, qs: map<int, Record>)
    requires Tiles(sizes, f, rs) && Tiles(sizes, g, qs)
    requires forall a :: Owned(rs, a) <==> Owned(qs, a)
    ensures f == g
  {
    forall a ensures FreeAt(f, a) <==> FreeAt(g, a) {
      if FreeAt(f, a) {
        FreeInside(sizes, f, a);
        assert !Owned(rs, a);
      }
      if FreeAt(g, a) {
        FreeInside(sizes, g, a);
        assert !Owned(qs, a);
      }
    }
    hide FreeAt, FreeLists;
    FreeListsUnique(sizes, f, g);
  }

  lemma FreeInside(sizes: seq<nat>, free: seq<seq<Block>>, a: Addr)
    requires FreeLists(sizes, free) && FreeAt(free, a)
    ensures InSlabs(sizes, a)
  {
    if sizes[a.slab] == 0 {
      BytesOne(Block(0, 0));
      assert false;
    } else {
      BytesWithin(free[a.slab], sizes[a.slab], a.off);
    }
  }

  /** A new allocator: every slab is one free block and nothing is live. */
  lemma FreshTiles(sizes: seq<nat>, free: seq<seq<Block>>)
    requires |free| == |sizes| && forall s :: 0 <= s < |sizes| ==> free[s] == [Block(0, sizes[s])]
    ensures Tiles(sizes, free, map[])
  {
    forall a | InSlabs(sizes, a) ensures FreeAt(free, a) {
      BytesOne(Block(0, sizes[a.slab]));
    }
  }

  /** Recording extents taken from free space keeps the tiling. */
  lemma TilesAllocate(
    sizes: seq<nat>, free: seq<seq<Block>>, rest: seq<seq<Block>>, records: map<int, Record>, h: int, r: Record)
    requires Tiles(sizes, free, records) && h !in records
    requires RecordOk(sizes, r) && FreeLists(sizes, rest) && TakenFrom(free, rest, r.extents)
    ensures Tiles(sizes, rest, records[h := r])
  {
    hide FreeAt, RecordOk, FreeLists, Addrs, InSlabs;
    var after := records[h := r];
    forall g, a ensures Owns(after, g, a) <==> if g == h then a in Addrs(r.extents) else Owns(records, g, a) {
    }
    forall a | InSlabs(sizes, a) ensures FreeAt(rest, a) || Owned(after, a) {
      if a in Addrs(r.extents) {
        assert Owns(after, h, a);
      } else if !FreeAt(free, a) {
        var g :| Owns(records, g, a);
        assert Owns(after, g, a);
      }
    }
  }

  /** Releasing a live tensor and dropping its record keeps the tiling. */
  lemma TilesFree(sizes: seq<nat>, free: seq<seq<Block>>, records: map<int, Record>, h: int)
    requires Tiles(sizes, free, records) && h in records
    ensures Placed(|free|, records[h].extents)
    ensures Tiles(sizes, ReleaseAll(free, records[h].extents), records - {h})
  {
    ReleaseAllLaw(sizes, free, records[h].extents);
    DropOwns(records, h);
    hide FreeAt, RecordOk, FreeLists, Addrs, InSlabs, ReleaseAll, Owns, Owned;
    var rest := ReleaseAll(free, records[h].extents);
    forall a | InSlabs(sizes, a) ensures FreeAt(rest, a) || Owned(records - {h}, a) {
      if Owned(records, a) {
        DropCovers(records, h, a);
      }
    }
  }

  lemma DropOwns(records: map<int, Record>, h: int)
    requires h in records
    ensures forall g, a :: Owns(records - {h}, g, a) <==> g != h && Owns(records, g, a)
    ensures forall a :: a in Addrs(records[h].extents) <==> Owns(records, h, a)
  {
    hide Addrs;
  }

  lemma DropCovers(records: map<int, Record>, h: int, a: Addr)
    requires h in records && Owned(records, a)
    ensures Owns(records, h, a) || Owned(records - {h}, a)
  {
    DropOwns(records, h);
    hide Owns;
    var g :| Owns(records, g, a);
    assert g != h ==> Owns(records - {h}, g, a);
  }

  // ----- accounting -----

  function SumSizes(sizes: seq<nat>): nat
  {
    if sizes == [] then 0 else SumSizes(sizes[..|sizes| - 1]) + sizes[|sizes| - 1]
  }

  function SumFree(free: seq<seq<Block>>): nat
  {
    if free == [] then 0 else SumFree(free[..|free| - 1]) + Total(free[|free| - 1])
  }

  /** The sizes of the live tensors with handles below n, added up. */
  function SumLive(records: map<int, Record>, n: nat): nat
  {
    if n == 0 then 0 else SumLive(records, n - 1) + if n - 1 in records then records[n - 1].nbytes else 0
  }

  ghost function SlabSet(s: nat, b: set<nat>): set<Addr>
  {
    set p | p in b :: Addr(s, p)
  }

  lemma InSlabSet(s: nat, b: set<nat>)
    ensures forall a :: a in SlabSet(s, b) <==> a.slab == s && a.off in b
  {
  }

  lemma {:induction false} SlabSetSize(s: nat, b: set<nat>)
    ensures |SlabSet(s, b)| == |b|
  {
    if b != {} {
      var p :| p in b;
      SlabSetSize(s, b - {p});
      assert SlabSet(s, b) == SlabSet(s, b - {p}) + {Addr(s, p)};
    }
  }

  ghost function AllSet(sizes: seq<nat>): set<Addr>
  {
    if sizes == [] then {}
    else AllSet(sizes[..|sizes| - 1]) + SlabSet(|sizes| - 1, Range(0, sizes[|sizes| - 1]))
  }

  lemma {:induction false} AllSetLaw(sizes: seq<nat>)
    ensures forall a :: a in AllSet(sizes) <==> InSlabs(sizes, a)
    ensures |AllSet(sizes)| == SumSizes(sizes)
  {
    hide Range, SlabSet;
    if sizes != [] {
      var n := |sizes| - 1;
      AllSetLaw(sizes[..n]);
      SlabSetSize(n, Range(0, sizes[n]));
      InSlabSet(n, Range(0, sizes[n]));
      assert AllSet(sizes[..n]) !! SlabSet(n, Range(0, sizes[n]));
    }
  }

  ghost function FreeSet(free: seq<seq<Block>>): set<Addr>
  {
    if free == [] then {}
    else FreeSet(free[..|free| - 1]) + SlabSet(|free| - 1, Bytes(free[|free| - 1]))
  }

  lemma TotalFree(fs: seq<Block>, n: nat)
    requires FreeOk(fs, n)
    ensures Total(fs) == |Bytes(fs)|
  {
    if n > 0 {
      TotalCounts(fs);
    }
  }

  lemma {:induction false} FreeSetLaw(sizes: seq<nat>, free: seq<seq<Block>>)
    requires FreeLists(sizes, free)
    ensures forall a :: a in FreeSet(free) <==> FreeAt(free, a)
    ensures |FreeSet(free)| == SumFree(free)
  {
    hide FreeOk, Bytes, SlabSet;
    if free != [] {
      var n := |free| - 1;
      FreeSetLaw(sizes[..n], free[..n]);
      SlabSetSize(n, Bytes(free[n]));
      InSlabSet(n, Bytes(free[n]));
      TotalFree(free[n], sizes[n]);
      assert FreeSet(free[..n]) !! SlabSet(n, Bytes(free[n]));
    }
  }

  ghost function Elements(s: seq<Addr>): set<Addr>
  {
    set a | a in s
  }

  lemma {:induction false} ElementsSize(s: seq<Addr>)
    requires NoDup(s)
    ensures |Elements(s)| == |s|
  {
    if s != [] {
      ElementsSize(s[1..]);
      assert Elements(s) == {s[0]} + Elements(s[1..]);
      assert s[0] !in s[1..];
    }
  }

  ghost function LiveSet(records: map<int, Record>, n: nat): set<Addr>
  {
    if n == 0 then {}
    else LiveSet(records, n - 1) + if n - 1 in records then Elements(Addrs(records[n - 1].extents)) else {}
  }

  lemma {:induction false} InLiveSet(records: map<int, Record>, n: nat)
    ensures forall a :: a in LiveSet(records, n) <==> OwnedBelow(records, n, a)
  {
    hide Addrs;
    if n > 0 {
      InLiveSet(records, n - 1);
      forall a ensures a in LiveSet(records, n) <==> OwnedBelow(records, n, a) {
        if OwnedBelow(records, n, a) && !OwnedBelow(records, n - 1, a) {
          assert Owns(records, n - 1, a);
        }
        if n - 1 in records && a in Addrs(records[n - 1].extents) {
          assert Owns(records, n - 1, a);
        }
      }
    }
  }

  lemma {:induction false} LiveSetSize(sizes: seq<nat>, free: seq<seq<Block>>, records: map<int, Record>, n: nat)
    requires Tiles(sizes, free, records)
    ensures |LiveSet(records, n)| == SumLive(records, n)
  {
    hide FreeAt, FreeLists, InSlabs, Addrs, ExtentOk, Elements;
    if n > 0 {
      LiveSetSize(sizes, free, records, n - 1);
      if n - 1 in records {
        ElementsSize(Addrs(records[n - 1].extents));
        LastApart(sizes, free, records, n);
      }
    }
  }

  lemma LastApart(sizes: seq<nat>, free: seq<seq<Block>>, records: map<int, Record>, n: nat)
    requires Tiles(sizes, free, records) && n > 0 && n - 1 in records
    ensures Elements(Addrs(records[n - 1].extents)) !! LiveSet(records, n - 1)
  {
    hide FreeAt, FreeLists, InSlabs, Addrs, RecordOk, LiveSet;
    InLiveSet(records, n - 1);
    var own, live := Elements(Addrs(records[n - 1].extents)), LiveSet(records, n - 1);
    forall a | a in own ensures a !in live {
      assert Owns(records, n - 1, a);
    }
  }

  lemma Partition(all: set<Addr>, x: set<Addr>, y: set<Addr>)
    requires forall a :: a in all <==> a in x || a in y
    requires forall a :: a in x ==> a !in y
    ensures |all| == |x| + |y|
  {
    assert all == x + y && x !! y;
  }

  lemma FreeOrLive(sizes: seq<nat>, free: seq<seq<Block>>, records: map<int, Record>, n: nat, a: Addr)
    requires Tiles(sizes, free, records) && forall h :: h in records ==> 0 <= h < n
    ensures InSlabs(sizes, a) <==> FreeAt(free, a) || OwnedBelow(records, n, a)
    ensures FreeAt(free, a) ==> !OwnedBelow(records, n, a)
  {
    if FreeAt(free, a) {
      FreeInside(sizes, free, a);
    }
    if OwnedBelow(records, n, a) {
      var h :| 0 <= h < n && Owns(records, h, a);
      OwnedInside(sizes, records[h], a);
    }
  }

  /** Bytes in use are exactly the bytes of the live tensors. */
  lemma UsedIsLive(sizes: seq<nat>, free: seq<seq<Block>>, records: map<int, Record>, n: nat)
    requires Tiles(sizes, free, records) && forall h :: h in records ==> 0 <= h < n
    ensures SumSizes(sizes) - SumFree(free) == SumLive(records, n)
  {
    AllSetLaw(sizes);
    FreeSetLaw(sizes, free);
    InLiveSet(records, n);
    LiveSetSize(sizes, free, records, n);
    forall a ensures InSlabs(sizes, a) <==> FreeAt(free, a) || OwnedBelow(records, n, a)
      ensures FreeAt(free, a) ==> !OwnedBelow(records, n, a)
    {
      FreeOrLive(sizes, free, records, n, a);
    }
    hide *;
    Partition(AllSet(sizes), FreeSet(free), LiveSet(records, n));
  }

  lemma OwnedInside(sizes: seq<nat>, r: Record, a: Addr)
    requires RecordOk(sizes, r) && a in Addrs(r.extents)
    ensures InSlabs(sizes, a)
  {
    AddrsInside(sizes, r.extents, a);
  }

  lemma {:induction false} AddrsInside(sizes: seq<nat>, es: seq<Extent>, a: Addr)
    requires ExtentsOk(sizes, es) && a in Addrs(es)
    ensures InSlabs(sizes, a)
  {
    hide Cells;
    InCells(es[0], a);
    if a !in Cells(es[0]) {
      AddrsInside(sizes, es[1..], a);
    }
  }

  // ----- contents -----

  /** The byte at an address; addresses outside memory read as zero. */
  function At(mem: seq<seq<byte>>, a: Addr): byte
  {
    if a.slab < |mem| && a.off < |mem[a.slab]| then mem[a.slab][a.off] else 0
  }

  function Gather(mem: seq<seq<byte>>, s: seq<Addr>): (b: seq<byte>)
    ensures |b| == |s|
  {
    seq(|s|, i requires 0 <= i < |s| => At(mem, s[i]))
  }

  lemma GatherNothing(mem: seq<seq<byte>>)
    ensures Gather(mem, []) == []
  {
  }

  lemma GatherConcat(mem: seq<seq<byte>>, x: seq<Addr>, y: seq<Addr>)
    ensures Gather(mem, x + y) == Gather(mem, x) + Gather(mem, y)
  {
  }

  lemma GatherSlice(mem: seq<seq<byte>>, s: seq<Addr>, i: nat, j: nat)
    requires i <= j <= |s|
    ensures Gather(mem, s[i..j]) == Gather(mem, s)[i..j]
  {
  }

  /** What the allocator stores: each live handle's bytes in order. */
  function Contents(mem: seq<seq<byte>>, records: map<int, Record>): map<int, seq<byte>>
  {
    map h | h in records :: Gather(mem, Addrs(records[h].extents))
  }

  function Patch(b: seq<byte>, at: nat, data: seq<byte>): seq<byte>
    requires at + |data| <= |b|
  {
    b[..at] + data + b[at + |data|..]
  }

  /** Memory where data replaced the bytes at some addresses and nothing else changed. */
  ghost predicate Stored(before: seq<seq<byte>>, after: seq<seq<byte>>, places: seq<Addr>, data: seq<byte>)
  {
    && |places| == |data|
    && (forall i :: 0 <= i < |data| ==> At(after, places[i]) == data[i])
    && (forall a :: a !in places ==> At(after, a) == At(before, a))
  }

  lemma StoredNothing(mem: seq<seq<byte>>)
    ensures Stored(mem, mem, [], [])
  {
  }

  /** Patching one slab stores at the cells of one extent. */
  lemma StoredPatch(before: seq<seq<byte>>, after: seq<seq<byte>>, e: Extent, chunk: seq<byte>)
    requires e.slab < |before| && e.off + e.size <= |before[e.slab]| && |chunk| == e.size
    requires after == before[e.slab := Patch(before[e.slab], e.off, chunk)]
    ensures Stored(before, after, Cells(e), chunk)
  {
    forall a | a !in Cells(e) ensures At(after, a) == At(before, a) {
      InCells(e, a);
    }
  }

  lemma StoredConcat(
    m: seq<seq<byte>>, n: seq<seq<byte>>, o: seq<seq<byte>>,
    x: seq<Addr>, xs: seq<byte>, y: seq<Addr>, ys: seq<byte>)
    requires Stored(m, n, x, xs) && Stored(n, o, y, ys) && forall a :: a in x ==> a !in y
    ensures Stored(m, o, x + y, xs + ys)
  {
    hide At;
    forall i | 0 <= i < |xs + ys| ensures At(o, (x + y)[i]) == (xs + ys)[i] {
      if i < |xs| {
        assert x[i] in x;
      }
    }
  }

  /** Storing at part of one tensor's addresses changes that range of that tensor only. */
  lemma StoreIsPatch(
    sizes: seq<nat>, free: seq<seq<Block>>, records: map<int, Record>,
    before: seq<seq<byte>>, after: seq<seq<byte>>, h: int, offset: nat, data: seq<byte>)
    requires Tiles(sizes, free, records) && h in records && offset + |data| <= |Addrs(records[h].extents)|
    requires Stored(before, after, Addrs(records[h].extents)[offset..offset + |data|], data)
    ensures |Contents(before, records)[h]| == |Addrs(records[h].extents)|
    ensures Contents(after, records) ==
            Contents(before, records)[h := Patch(Contents(before, records)[h], offset, data)]
  {
    hide At, FreeAt, FreeLists, Addrs, InSlabs, ExtentOk;
    var own := Addrs(records[h].extents);
    assert NoDup(own);
    var part := own[offset..offset + |data|];
    forall g | g in records && g != h ensures Contents(after, records)[g] == Contents(before, records)[g] {
      var other := Addrs(records[g].extents);
      forall i | 0 <= i < |other| ensures other[i] !in part {
        assert Owns(records, g, other[i]);
        assert other[i] in part ==> Owns(records, h, other[i]);
      }
    }
    forall i | 0 <= i < |own|
      ensures Gather(after, own)[i] == Patch(Gather(before, own), offset, data)[i]
    {
      if offset <= i < offset + |data| {
        assert own[i] == part[i - offset];
      } else {
        assert own[i] !in part;
      }
    }
    assert Gather(after, own) == Patch(Gather(before, own), offset, data);
  }
}

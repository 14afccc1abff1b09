/**
 Free lists of one slab.

 Carve is the list surgery behind both ways of taking bytes, Released the
 append-sort-coalesce of giving them back. Every list the allocator keeps is gap
 separated, and such a list is determined by the bytes it covers (Unique), so taking
 and then releasing restores the very same list and releases commute.
 */
module FreeList {
  datatype Block = Block(off: nat, size: nat)
  {
    function End(): nat
    {
      off + size
    }
  }

  function Range(off: nat, n: nat): (r: set<nat>)
    ensures forall p: nat :: p in r <==> off <= p < off + n
    ensures |r| == n
  {
    if n == 0 then {} else Range(off, n - 1) + {off + n - 1}
  }

  /** The byte offsets a list covers. */
  function Bytes(fs: seq<Block>): set<nat>
  {
    if fs == [] then {} else Range(fs[0].off, fs[0].size) + Bytes(fs[1..])
  }

  function Total(fs: seq<Block>): nat
  {
    if fs == [] then 0 else fs[0].size + Total(fs[1..])
  }

  lemma {:induction false} TotalSnoc(fs: seq<Block>, b: Block)
    ensures Total(fs + [b]) == Total(fs) + b.size
  {
    if fs != [] {
      TotalSnoc(fs[1..], b);
      assert (fs + [b])[1..] == fs[1..] + [b];
    }
  }

  /** Non-empty blocks in ascending order, never touching. */
  predicate Gapped(fs: seq<Block>)
  {
    && (forall i :: 0 <= i < |fs| ==> fs[i].size > 0)
    && (forall i, j :: 0 <= i < j < |fs| ==> fs[i].End() < fs[j].off)
  }

  predicate Within(fs: seq<Block>, n: int)
  {
    forall i :: 0 <= i < |fs| ==> fs[i].End() <= n
  }

  /** A free list of a slab of n bytes; the empty slab keeps its one inert block. */
  predicate FreeOk(fs: seq<Block>, n: nat)
  {
    if n == 0 then fs == [Block(0, 0)] else Gapped(fs) && Within(fs, n)
  }

  // ----- what a list covers -----

  lemma {:induction false} InBytes(fs: seq<Block>, p: nat)
    ensures p in Bytes(fs) <==> exists i :: 0 <= i < |fs| && fs[i].off <= p < fs[i].End()
  {
    if fs != [] {
      InBytes(fs[1..], p);
      if p in Bytes(fs[1..]) {
        var i :| 0 <= i < |fs[1..]| && fs[1..][i].off <= p < fs[1..][i].End();
        assert fs[i + 1] == fs[1..][i];
      }
      if i :| 0 <= i < |fs| && fs[i].off <= p < fs[i].End() {
        if i > 0 {
          assert fs[1..][i - 1] == fs[i];
        }
      }
    }
  }

  lemma {:induction false} BytesConcat(a: seq<Block>, b: seq<Block>)
    ensures Bytes(a + b) == Bytes(a) + Bytes(b)
  {
    if a == [] {
      assert a + b == b;
    } else {
      assert (a + b)[1..] == a[1..] + b;
      BytesConcat(a[1..], b);
    }
  }

  lemma BytesOne(b: Block)
    ensures Bytes([b]) == Range(b.off, b.size)
  {
  }

  lemma BytesSnoc(a: seq<Block>, b: Block)
    ensures Bytes(a + [b]) == Bytes(a) + Range(b.off, b.size)
  {
    BytesConcat(a, [b]);
    BytesOne(b);
  }

  lemma BytesWithin(fs: seq<Block>, n: nat, p: nat)
    requires Within(fs, n) && p in Bytes(fs)
    ensures p < n
  {
    InBytes(fs, p);
  }

  lemma GappedTail(fs: seq<Block>)
    requires Gapped(fs) && fs != []
    ensures Gapped(fs[1..])
    ensures forall p :: p in Bytes(fs[1..]) ==> fs[0].End() < p
    ensures Range(fs[0].off, fs[0].size) !! Bytes(fs[1..])
  {
    forall p | p in Bytes(fs[1..]) ensures fs[0].End() < p {
      InBytes(fs[1..], p);
    }
  }

  /** The sizes of a gapped list add up to the number of bytes it covers. */
  lemma {:induction false} TotalCounts(fs: seq<Block>)
    requires Gapped(fs)
    ensures Total(fs) == |Bytes(fs)|
  {
    if fs != [] {
      GappedTail(fs);
      TotalCounts(fs[1..]);
    }
  }

  // ----- a list is determined by what it covers -----

  lemma HeadCovered(fs: seq<Block>)
    requires Gapped(fs) && fs != []
    ensures fs[0].off in Bytes(fs) && fs[0].End() !in Bytes(fs)
    ensures forall p: nat :: fs[0].off <= p < fs[0].End() ==> p in Bytes(fs)
    ensures forall p: nat :: p in Bytes(fs) ==> fs[0].off <= p
  {
    GappedTail(fs);
  }

  lemma SameHead(a: seq<Block>, b: seq<Block>)
    requires Gapped(a) && Gapped(b) && a != [] && b != [] && Bytes(a) == Bytes(b)
    ensures a[0] == b[0]
  {
    hide Bytes;
    HeadCovered(a);
    HeadCovered(b);
  }

  /** Gapped lists that cover the same bytes are the same list. */
  lemma {:induction false} Unique(a: seq<Block>, b: seq<Block>)
    requires Gapped(a) && Gapped(b) && Bytes(a) == Bytes(b)
    ensures a == b
  {
    if a != [] {
      HeadCovered(a);
    }
    if b != [] {
      HeadCovered(b);
    }
    if a != [] && b != [] {
      SameHead(a, b);
      GappedTail(a);
      GappedTail(b);
      assert Bytes(a[1..]) == Bytes(a) - Range(a[0].off, a[0].size);
      assert Bytes(b[1..]) == Bytes(b) - Range(b[0].off, b[0].size);
      Unique(a[1..], b[1..]);
      assert a == [a[0]] + a[1..] && b == [b[0]] + b[1..];
    }
  }

  lemma UniqueFree(a: seq<Block>, b: seq<Block>, n: nat)
    requires FreeOk(a, n) && FreeOk(b, n) && Bytes(a) == Bytes(b)
    ensures a == b
  {
    if n > 0 {
      Unique(a, b);
    }
  }

  // ----- taking bytes out of a block -----

  predicate Holds(b: Block, off: nat, n: nat)
  {
    b.off <= off && off + n <= b.End()
  }

  function Maybe(present: bool, b: Block): seq<Block>
  {
    if present then [b] else []
  }

  function PadOf(b: Block, off: nat): Block
    requires b.off <= off
  {
    Block(b.off, off - b.off)
  }

  function TailOf(b: Block, end: nat): Block
    requires end <= b.End()
  {
    Block(end, b.End() - end)
  }

  /** What is left of a block: the padding before the bytes taken, then the tail. */
  function Leftover(b: Block, off: nat, n: nat): seq<Block>
    requires Holds(b, off, n)
  {
    Maybe(off > b.off, PadOf(b, off)) + Maybe(off + n < b.End(), TailOf(b, off + n))
  }

  function Carve(fs: seq<Block>, i: nat, off: nat, n: nat): seq<Block>
    requires i < |fs| && Holds(fs[i], off, n)
  {
    fs[..i] + Leftover(fs[i], off, n) + fs[i + 1..]
  }

  lemma MaybeBytes(present: bool, b: Block)
    requires !present ==> b.size == 0
    ensures Bytes(Maybe(present, b)) == Range(b.off, b.size)
  {
    hide Range;
    BytesOne(b);
  }

  lemma LeftoverRanges(b: Block, off: nat, n: nat)
    requires Holds(b, off, n)
    ensures Bytes(Leftover(b, off, n)) ==
            Range(b.off, off - b.off) + Range(off + n, b.End() - (off + n))
  {
    hide Bytes, Range, Maybe;
    MaybeBytes(off > b.off, PadOf(b, off));
    MaybeBytes(off + n < b.End(), TailOf(b, off + n));
    BytesConcat(Maybe(off > b.off, PadOf(b, off)), Maybe(off + n < b.End(), TailOf(b, off + n)));
  }

  lemma LeftoverBytes(b: Block, off: nat, n: nat)
    requires Holds(b, off, n)
    ensures Bytes(Leftover(b, off, n)) == Range(b.off, b.size) - Range(off, n)
  {
    LeftoverRanges(b, off, n);
    hide Bytes, Range, Leftover;
  }

  predicate Past(fs: seq<Block>, p: int)
  {
    forall i :: 0 <= i < |fs| ==> p < fs[i].off
  }

  lemma GappedJoin(a: seq<Block>, b: seq<Block>)
    requires Gapped(a) && Gapped(b)
    requires forall i, j :: 0 <= i < |a| && 0 <= j < |b| ==> a[i].End() < b[j].off
    ensures Gapped(a + b)
  {
  }

  /** A gapped list up to p and one past p make a gapped list. */
  lemma GappedAcross(a: seq<Block>, b: seq<Block>, p: int, q: int)
    requires Gapped(a) && Gapped(b) && Within(a, p) && Past(b, p) && Within(b, q) && p <= q
    ensures Gapped(a + b) && Within(a + b, q)
  {
    GappedJoin(a, b);
  }

  lemma GappedParts(fs: seq<Block>, i: nat, limit: nat)
    requires Gapped(fs) && Within(fs, limit) && i < |fs|
    ensures Gapped(fs[..i]) && Within(fs[..i], fs[i].off - 1)
    ensures Gapped(fs[i + 1..]) && Past(fs[i + 1..], fs[i].End()) && Within(fs[i + 1..], limit)
  {
  }

  lemma LeftoverInside(b: Block, off: nat, n: nat)
    requires Holds(b, off, n) && n > 0
    ensures Gapped(Leftover(b, off, n)) && Past(Leftover(b, off, n), b.off - 1) && Within(Leftover(b, off, n), b.End())
  {
  }

  lemma CarveGapped(fs: seq<Block>, i: nat, off: nat, n: nat, limit: nat)
    requires Gapped(fs) && Within(fs, limit) && i < |fs| && Holds(fs[i], off, n) && n > 0
    ensures Gapped(Carve(fs, i, off, n)) && Within(Carve(fs, i, off, n), limit)
  {
    assert fs[i].End() <= limit;
    hide Gapped, Within, Past, Leftover;
    var pre, mid, post := fs[..i], Leftover(fs[i], off, n), fs[i + 1..];
    LeftoverInside(fs[i], off, n);
    GappedParts(fs, i, limit);
    GappedAcross(pre, mid, fs[i].off - 1, fs[i].End());
    GappedAcross(pre + mid, post, fs[i].End(), limit);
  }

  lemma Around(fs: seq<Block>, i: nat, p: nat)
    requires Gapped(fs) && i < |fs| && fs[i].off <= p < fs[i].End()
    ensures p !in Bytes(fs[..i]) && p !in Bytes(fs[i + 1..])
  {
    hide Bytes;
    InBytes(fs[..i], p);
    InBytes(fs[i + 1..], p);
  }

  lemma SplitAt(fs: seq<Block>, i: nat)
    requires i < |fs|
    ensures Bytes(fs) == Bytes(fs[..i]) + Range(fs[i].off, fs[i].size) + Bytes(fs[i + 1..])
  {
    hide *;
    var pre, post := fs[..i], fs[i + 1..];
    assert fs == (pre + [fs[i]]) + post;
    BytesConcat(pre + [fs[i]], post);
    BytesSnoc(pre, fs[i]);
  }

  lemma CarveBytes(fs: seq<Block>, i: nat, off: nat, n: nat)
    requires Gapped(fs) && i < |fs| && Holds(fs[i], off, n)
    ensures Bytes(Carve(fs, i, off, n)) == Bytes(fs) - Range(off, n)
    ensures Range(off, n) <= Bytes(fs)
  {
    hide Bytes, Leftover, Gapped;
    var pre, mid, post := fs[..i], Leftover(fs[i], off, n), fs[i + 1..];
    LeftoverBytes(fs[i], off, n);
    BytesConcat(pre + mid, post);
    BytesConcat(pre, mid);
    SplitAt(fs, i);
    forall p | p in Range(off, n) ensures p !in Bytes(pre) && p !in Bytes(post) {
      Around(fs, i, p);
    }
  }

  /** Taking n bytes out of block i removes exactly those bytes and keeps the shape. */
  lemma CarveLaw(fs: seq<Block>, i: nat, off: nat, n: nat, limit: nat)
    requires FreeOk(fs, limit) && i < |fs| && Holds(fs[i], off, n) && n > 0
    ensures FreeOk(Carve(fs, i, off, n), limit)
    ensures Bytes(Carve(fs, i, off, n)) == Bytes(fs) - Range(off, n)
    ensures Range(off, n) <= Bytes(fs)
    ensures off + n <= limit
  {
    hide Bytes, Carve, Gapped;
    CarveGapped(fs, i, off, n, limit);
    CarveBytes(fs, i, off, n);
  }

  // ----- giving bytes back -----

  predicate Before(a: Block, b: Block)
  {
    a.off < b.off || (a.off == b.off && a.size < b.size)
  }

  predicate Sorted(fs: seq<Block>)
  {
    forall i, j :: 0 <= i < j < |fs| ==> !Before(fs[j], fs[i])
  }

  predicate Solid(fs: seq<Block>)
  {
    forall i :: 0 <= i < |fs| ==> fs[i].size > 0
  }

  function Insert(fs: seq<Block>, b: Block): seq<Block>
  {
    if fs == [] then [b]
    else if Before(b, fs[|fs| - 1]) then Insert(fs[..|fs| - 1], b) + [fs[|fs| - 1]]
    else fs + [b]
  }

  /** The library sort on (offset, size) pairs. */
  function Sort(xs: seq<Block>): seq<Block>
  {
    if xs == [] then [] else Insert(Sort(xs[..|xs| - 1]), xs[|xs| - 1])
  }

  lemma {:induction false} InsertLaw(fs: seq<Block>, b: Block)
    requires Sorted(fs)
    ensures Sorted(Insert(fs, b))
    ensures multiset(Insert(fs, b)) == multiset(fs) + multiset{b}
  {
    if fs == [] {
    } else if Before(b, fs[|fs| - 1]) {
      var front, last := fs[..|fs| - 1], fs[|fs| - 1];
      InsertLaw(front, b);
      assert fs == front + [last];
      var s := Insert(front, b);
      forall k | 0 <= k < |s| ensures !Before(last, s[k]) {
        assert s[k] in multiset(s);
      }
    } else {
      assert Sorted(fs + [b]);
    }
  }

  /** Sort returns a sorted rearrangement of its input. */
  lemma {:induction false} SortLaw(xs: seq<Block>)
    ensures Sorted(Sort(xs))
    ensures multiset(Sort(xs)) == multiset(xs)
  {
    if xs != [] {
      var front := xs[..|xs| - 1];
      SortLaw(front);
      InsertLaw(Sort(front), xs[|xs| - 1]);
      assert xs == front + [xs[|xs| - 1]];
    }
  }

  lemma SameBlocks(a: seq<Block>, b: seq<Block>)
    requires multiset(a) == multiset(b)
    ensures Bytes(a) <= Bytes(b)
  {
    forall p | p in Bytes(a) ensures p in Bytes(b) {
      InBytes(a, p);
      var i :| 0 <= i < |a| && a[i].off <= p < a[i].End();
      assert a[i] in multiset(b);
      InBytes(b, p);
    }
  }

  /** One block from the start of a to the later of the two ends. */
  function Span(a: Block, b: Block): Block
  {
    Block(a.off, (if a.End() >= b.End() then a.End() else b.End()) - a.off)
  }

  /** Glue the next block of a sorted list onto the merged ones. */
  function Glue(m: seq<Block>, b: Block): seq<Block>
  {
    if m != [] && b.off <= m[|m| - 1].End()
    then m[..|m| - 1] + [Span(m[|m| - 1], b)]
    else m + [b]
  }

  function Merge(xs: seq<Block>): seq<Block>
  {
    if xs == [] then [] else Glue(Merge(xs[..|xs| - 1]), xs[|xs| - 1])
  }

  lemma SpanBytes(a: Block, b: Block)
    requires a.off <= b.off <= a.End()
    ensures Range(Span(a, b).off, Span(a, b).size) == Range(a.off, a.size) + Range(b.off, b.size)
  {
    hide Range;
  }

  lemma Widen(front: seq<Block>, a: Block, b: Block)
    requires a.off <= b.off <= a.End()
    ensures Bytes(front + [Span(a, b)]) == Bytes(front + [a]) + Range(b.off, b.size)
  {
    hide Bytes, Range, Span;
    BytesSnoc(front, a);
    BytesSnoc(front, Span(a, b));
    SpanBytes(a, b);
  }

  lemma GlueBytes(m: seq<Block>, b: Block)
    requires m != [] ==> m[|m| - 1].off <= b.off
    ensures Bytes(Glue(m, b)) == Bytes(m) + Range(b.off, b.size)
  {
    hide Bytes, Range, Span;
    if m != [] && b.off <= m[|m| - 1].End() {
      assert m == m[..|m| - 1] + [m[|m| - 1]];
      Widen(m[..|m| - 1], m[|m| - 1], b);
    } else {
      BytesSnoc(m, b);
    }
  }

  lemma GlueGapped(m: seq<Block>, b: Block, limit: nat)
    requires Gapped(m) && Within(m, limit) && b.size > 0 && b.End() <= limit
    requires m != [] ==> m[|m| - 1].off <= b.off
    ensures Gapped(Glue(m, b)) && Within(Glue(m, b), limit)
    ensures Glue(m, b) != [] && Glue(m, b)[|Glue(m, b)| - 1].off <= b.off
  {
    if m != [] {
      var front, last := m[..|m| - 1], m[|m| - 1];
      if b.off <= last.End() {
        GappedJoin(front, [Span(last, b)]);
      } else {
        forall i | 0 <= i < |m| ensures m[i].End() < b.off {
          assert i < |m| - 1 ==> m[i].End() < last.off;
        }
        GappedJoin(m, [b]);
      }
    }
  }

  /** Coalescing any sorted list of non-empty blocks, overlapping or not. */
  lemma {:induction false} MergeLaw(xs: seq<Block>, limit: nat)
    requires Sorted(xs) && Solid(xs) && Within(xs, limit)
    ensures Gapped(Merge(xs)) && Within(Merge(xs), limit)
    ensures Bytes(Merge(xs)) == Bytes(xs)
    ensures xs != [] ==> Merge(xs) != [] && Merge(xs)[|Merge(xs)| - 1].off <= xs[|xs| - 1].off
  {
    hide Bytes, Glue;
    if xs != [] {
      var front, last := xs[..|xs| - 1], xs[|xs| - 1];
      MergeLaw(front, limit);
      assert front != [] ==> !Before(last, xs[|xs| - 2]);
      GlueGapped(Merge(front), last, limit);
      GlueBytes(Merge(front), last);
      assert xs == front + [last];
      BytesSnoc(front, last);
    }
  }

  function Released(fs: seq<Block>, b: Block): seq<Block>
  {
    Merge(Sort(fs + [b]))
  }

  /** Releasing adds exactly the released bytes and keeps the shape. */
  lemma ReleasedLaw(fs: seq<Block>, b: Block, limit: nat)
    requires FreeOk(fs, limit) && b.size > 0 && b.End() <= limit
    ensures FreeOk(Released(fs, b), limit)
    ensures Bytes(Released(fs, b)) == Bytes(fs) + Range(b.off, b.size)
  {
    var xs := fs + [b];
    SortLaw(xs);
    var s := Sort(xs);
    forall i | 0 <= i < |s| ensures s[i].size > 0 && s[i].End() <= limit {
      assert s[i] in multiset(xs);
    }
    SameBlocks(s, xs);
    SameBlocks(xs, s);
    MergeLaw(s, limit);
    BytesSnoc(fs, b);
  }

  /** Taking bytes and releasing them gives back the very same list. */
  lemma ReleasedUndoesCarve(fs: seq<Block>, i: nat, off: nat, n: nat, limit: nat)
    requires FreeOk(fs, limit) && i < |fs| && Holds(fs[i], off, n) && n > 0
    ensures Released(Carve(fs, i, off, n), Block(off, n)) == fs
  {
    hide Bytes, Range, Carve, Released, FreeOk, Gapped;
    CarveLaw(fs, i, off, n, limit);
    var c := Carve(fs, i, off, n);
    ReleasedLaw(c, Block(off, n), limit);
    assert Bytes(Released(c, Block(off, n))) == Bytes(fs);
    UniqueFree(Released(c, Block(off, n)), fs, limit);
  }

  /** The order of two releases does not matter. */
  lemma ReleasesCommute(fs: seq<Block>, a: Block, b: Block, limit: nat)
    requires FreeOk(fs, limit) && a.size > 0 && a.End() <= limit && b.size > 0 && b.End() <= limit
    ensures Released(Released(fs, a), b) == Released(Released(fs, b), a)
  {
    hide Bytes, Range, Released, FreeOk, Gapped;
    ReleasedLaw(fs, a, limit);
    ReleasedLaw(fs, b, limit);
    ReleasedLaw(Released(fs, a), b, limit);
    ReleasedLaw(Released(fs, b), a, limit);
    UniqueFree(Released(Released(fs, a), b), Released(Released(fs, b), a), limit);
  }

  // ----- alignment -----

  function AlignUp(value: nat, alignment: nat): nat
    requires alignment > 0
  {
    ((value + alignment - 1) / alignment) * alignment
  }

  lemma MulAtLeast(d: int, a: nat)
    requires d >= 1
    ensures d * a >= a
  {
  }

  lemma Distribute(q: int, p: int, a: int)
    ensures (q - p) * a == q * a - p * a
  {
  }

  lemma DivMod(x: nat, a: nat)
    requires a > 0
    ensures x == (x / a) * a + x % a
  {
  }

  lemma RemainderUnique(a: nat, q: int, r: nat, p: int, t: nat)
    requires r < a && t < a && q * a + r == p * a + t
    ensures r == t
  {
    Distribute(q, p, a);
    Distribute(p, q, a);
    if q > p {
      MulAtLeast(q - p, a);
    } else if q < p {
      MulAtLeast(p - q, a);
    }
  }

  lemma Multiple(k: nat, a: nat)
    requires a > 0
    ensures (k * a) % a == 0
  {
    DivMod(k * a, a);
    RemainderUnique(a, k, 0, (k * a) / a, (k * a) % a);
  }

  lemma LeastMultiple(q: nat, a: nat, value: nat, m: nat)
    requires a > 0 && q * a < value + a && value <= m && m % a == 0
    ensures q * a <= m
  {
    var k := m / a;
    DivMod(m, a);
    Distribute(q, k, a);
    if q > k {
      MulAtLeast(q - k, a);
    } else if q < k {
      Distribute(k, q, a);
      MulAtLeast(k - q, a);
    }
  }

  /** AlignUp is the least multiple of the alignment that is not below the value. */
  lemma AlignUpLaw(value: nat, alignment: nat)
    requires alignment > 0
    ensures AlignUp(value, alignment) % alignment == 0
    ensures value <= AlignUp(value, alignment) < value + alignment
    ensures forall m: nat :: m >= value && m % alignment == 0 ==> AlignUp(value, alignment) <= m
  {
    var q := (value + alignment - 1) / alignment;
    DivMod(value + alignment - 1, alignment);
    Multiple(q, alignment);
    forall m: nat | m >= value && m % alignment == 0 ensures q * alignment <= m {
      LeastMultiple(q, alignment, value, m);
    }
  }

  /** Bytes of a block usable after aligning its start. */
  function Usable(b: Block, alignment: nat): nat
    requires alignment > 0
  {
    var at := AlignUp(b.off, alignment);
    if at < b.End() then b.End() - at else 0
  }

  function Avail(fs: seq<Block>, alignment: nat): nat
    requires alignment > 0
  {
    if fs == [] then 0 else Usable(fs[0], alignment) + Avail(fs[1..], alignment)
  }

  lemma {:induction false} AvailConcat(a: seq<Block>, b: seq<Block>, alignment: nat)
    requires alignment > 0
    ensures Avail(a + b, alignment) == Avail(a, alignment) + Avail(b, alignment)
  {
    hide AlignUp, Usable;
    if a == [] {
      assert a + b == b;
    } else {
      assert (a + b)[1..] == a[1..] + b;
      AvailConcat(a[1..], b, alignment);
    }
  }

  lemma {:induction false} AvailAtLeast(fs: seq<Block>, i: nat, alignment: nat)
    requires alignment > 0 && i < |fs|
    ensures Usable(fs[i], alignment) <= Avail(fs, alignment)
  {
    hide AlignUp, Usable;
    if i > 0 {
      AvailAtLeast(fs[1..], i - 1, alignment);
    }
  }

  lemma {:induction false} AvailNone(fs: seq<Block>, alignment: nat)
    requires alignment > 0 && forall i :: 0 <= i < |fs| ==> Usable(fs[i], alignment) == 0
    ensures Avail(fs, alignment) == 0
  {
    hide AlignUp, Usable;
    if fs != [] {
      AvailNone(fs[1..], alignment);
    }
  }

  /** Taking everything usable from a block leaves nothing usable in what remains of it. */
  lemma CarveAvail(fs: seq<Block>, i: nat, alignment: nat)
    requires alignment > 0 && i < |fs| && Usable(fs[i], alignment) > 0
    ensures Holds(fs[i], AlignUp(fs[i].off, alignment), Usable(fs[i], alignment))
    ensures Avail(Carve(fs, i, AlignUp(fs[i].off, alignment), Usable(fs[i], alignment)), alignment) ==
            Avail(fs, alignment) - Usable(fs[i], alignment)
  {
    AlignUpLaw(fs[i].off, alignment);
    var at, n := AlignUp(fs[i].off, alignment), Usable(fs[i], alignment);
    var pre, mid, post := fs[..i], Leftover(fs[i], at, n), fs[i + 1..];
    AvailConcat(pre + mid, post, alignment);
    AvailConcat(pre, mid, alignment);
    assert fs == (pre + [fs[i]]) + post;
    AvailConcat(pre + [fs[i]], post, alignment);
    AvailConcat(pre, [fs[i]], alignment);
    LeftoverUnusable(fs[i], alignment);
  }

  lemma LeftoverUnusable(b: Block, alignment: nat)
    requires alignment > 0 && Usable(b, alignment) > 0
    ensures Holds(b, AlignUp(b.off, alignment), Usable(b, alignment))
    ensures Avail(Leftover(b, AlignUp(b.off, alignment), Usable(b, alignment)), alignment) == 0
  {
    AlignUpLaw(b.off, alignment);
    hide AlignUp;
    var pad := Block(b.off, AlignUp(b.off, alignment) - b.off);
    assert Usable(pad, alignment) == 0;
  }
}

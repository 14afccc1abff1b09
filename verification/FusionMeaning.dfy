/**
 What the lowering emits, spelled out: which MULs it accepts and which element of each operand
 the kernel then multiplies (MulReads), when a graph lowers at all (LowersIff), and that an
 emitted op's value depends on nothing but what it is said to read (ReadsSuffice).
 */
module FusionMeaning {
  import opened Common
  import opened Fusion

  // ----- one MUL -----

  /** A non-empty contiguous F32 tensor. */
  predicate Plain(g: Graph, t: nat)
    requires t < |g.tensors|
  {
    g.tensors[t].f32 && g.tensors[t].contiguous && forall d :: 0 <= d < |g.tensors[t].ne| ==> g.tensors[t].ne[d] != 0
  }

  /** One row of the given width. */
  predicate RowOf(ne: seq<nat>, full: seq<nat>)
    requires |ne| == |full| == 4
  {
    ne[0] == full[0] && ne[1] == 1 && ne[2] == 1 && ne[3] == 1
  }

  predicate Fits(ne: seq<nat>, full: seq<nat>)
    requires |ne| == |full| == 4
  {
    ne == full || RowOf(ne, full)
  }

  /** A MUL lowers just when all three tensors are plain and one operand is whole, the other whole or a row. */
  lemma MulLowersIff(g: Graph, t: nat)
    requires g.Valid() && t < |g.tensors|
    ensures g.BinaryLowering(t).Some? <==>
      && g.tensors[t].kind == Mul && Plain(g, t) && g.tensors[t].srcs[0].Some? && g.tensors[t].srcs[1].Some?
      && var x, y := g.tensors[t].srcs[0].value, g.tensors[t].srcs[1].value;
         && Plain(g, x) && Plain(g, y)
         && var full, a, b := g.tensors[t].ne, g.tensors[x].ne, g.tensors[y].ne;
            (a == full && Fits(b, full)) || (b == full && Fits(a, full))
  {
  }

  /** Where element (i0, i1, i2, i3) of a contiguous tensor of the given shape stands. */
  function Flat(ne: seq<nat>, i: seq<nat>): nat
    requires |ne| == |i| == 4
  {
    i[0] + ne[0] * (i[1] + ne[1] * (i[2] + ne[2] * i[3]))
  }

  /** The element of an operand that broadcasting pairs with an element of the result. */
  function Wrapped(ne: seq<nat>, i: seq<nat>): (w: seq<nat>)
    requires |ne| == |i| == 4 && forall d :: 0 <= d < 4 ==> ne[d] != 0
    ensures |w| == 4
  {
    [i[0] % ne[0], i[1] % ne[1], i[2] % ne[2], i[3] % ne[3]]
  }

  lemma WrapsInside(ne: seq<nat>, i: seq<nat>)
    requires |ne| == |i| == 4 && forall d :: 0 <= d < 4 ==> i[d] < ne[d]
    ensures Wrapped(ne, i) == i
  {
    forall d | 0 <= d < 4 ensures Wrapped(ne, i)[d] == i[d] {
      SmallMod(i[d], ne[d]);
    }
  }

  lemma RowIndex(n: nat, i: nat, m: nat)
    requires i < n
    ensures (i + n * m) % n == i
  {
    assert n * m == m * n;
    QuotientIs(i + n * m, n, m);
  }

  /**
   The elements a lowered MUL multiplies at each position are those that broadcasting pairs:
   the whole operand at the position itself, a row at its remainder by the row's width.
   */
  lemma MulReads(g: Graph, t: nat, i: seq<nat>)
    requires g.Valid() && t < |g.tensors| && g.BinaryLowering(t).Some?
    requires |i| == 4 && forall d :: 0 <= d < 4 ==> i[d] < g.tensors[t].ne[d]
    ensures var (x, y, row) := g.BinaryLowering(t).value;
      var at, full := Flat(g.tensors[t].ne, i), g.tensors[t].ne;
      && x < |g.tensors| && y < |g.tensors| && Plain(g, x) && Plain(g, y)
      && multiset{Some(x), Some(y)} == multiset{g.tensors[t].srcs[0], g.tensors[t].srcs[1]}
      && at == Flat(g.tensors[x].ne, Wrapped(g.tensors[x].ne, i))
      && (if row then at % full[0] else at) == Flat(g.tensors[y].ne, Wrapped(g.tensors[y].ne, i))
  {
    hide Flat, Wrapped;
    var (x, y, row) := g.BinaryLowering(t).value;
    var full := g.tensors[t].ne;
    WrapsInside(full, i);
    if row {
      RowReads(full, g.tensors[y].ne, i);
    }
  }

  lemma RowReads(full: seq<nat>, ne: seq<nat>, i: seq<nat>)
    requires |full| == |ne| == |i| == 4 && RowOf(ne, full) && ne[0] > 0 && i[0] < full[0]
    ensures Flat(full, i) % full[0] == Flat(ne, Wrapped(ne, i))
  {
    RowIndex(full[0], i[0], i[1] + full[1] * (i[2] + full[2] * i[3]));
    SmallMod(i[0], full[0]);
    RowFlat(ne, Wrapped(ne, i));
    hide Flat;
  }

  lemma RowFlat(ne: seq<nat>, w: seq<nat>)
    requires |ne| == |w| == 4 && w[1] == 0 && w[2] == 0 && w[3] == 0
    ensures Flat(ne, w) == w[0]
  {
    assert ne[2] * w[3] == 0;
    assert ne[1] * (w[2] + ne[2] * w[3]) == 0;
  }

  // ----- a whole graph -----

  predicate HasBinding(g: Graph, s: Option<nat>)
  {
    s.Some? && s.value < |g.tensors| && g.tensors[s.value].bound
  }

  /** A compute MUL or RMS_NORM that is not absorbed lowers, and its result and operands have bindings. */
  predicate Placed(g: Graph, n: nat)
    requires g.Valid() && n < |g.tensors|
  {
    && g.Lowers(n) && g.tensors[n].bound
    && (g.tensors[n].kind == Mul ==> HasBinding(g, g.tensors[n].srcs[1]))
    && (g.tensors[n].kind == RmsNorm ==> HasBinding(g, g.tensors[n].srcs[0]))
    && (g.tensors[n].kind == Mul ==>
         if g.FusedRmsFor(n).Some? then HasBinding(g, g.tensors[g.FusedRmsFor(n).value].srcs[0])
         else HasBinding(g, g.tensors[n].srcs[0]))
  }

  /** A compute node that no other node absorbs. */
  predicate IsKept(g: Graph, n: nat)
    requires g.Valid() && n < |g.tensors|
  {
    g.tensors[n].compute && g.tensors[n].kind != Meta && !g.Absorbed(n)
  }

  lemma DecideFails(g: Graph, i: nat)
    requires g.Valid() && i < |g.nodes|
    ensures g.Decide(i) == Fail <==>
      IsKept(g, g.nodes[i]) && !Placed(g, g.nodes[i])
  {
    hide Graph.Absorbed, Graph.Uses;
    if g.FusedRmsFor(g.nodes[i]).Some? {
      g.FiresOnlyWhereBothLower(g.nodes[i]);
    }
  }

  /** A graph lowers just when every compute node that is not absorbed does. */
  lemma {:induction false} LowersIff(g: Graph, k: nat)
    requires g.Valid() && k <= |g.nodes|
    ensures g.Emission(k).Some? <==>
      forall i :: 0 <= i < k && IsKept(g, g.nodes[i]) ==> Placed(g, g.nodes[i])
  {
    hide IsKept, Graph.Decide, Placed, Graph.Valid;
    if k > 0 {
      LowersIff(g, k - 1);
      DecideFails(g, k - 1);
    }
  }

  /** What an emitted op writes depends only on the tensors it is said to read. */
  lemma ReadsSuffice<V>(g: Graph, f: Interp<V>, a: seq<V>, b: seq<V>, e: Emitted)
    requires g.Valid() && |a| == |b| == |g.tensors| && e.node < |g.tensors|
    requires e.Fused? ==> e.rms < |g.tensors| && g.Src(e.rms, 0).Some? && g.Src(e.node, 1).Some?
    requires forall t :: t in g.Reads(e) ==> t < |g.tensors| && a[t] == b[t]
    ensures g.RunEmitted(f, a, e)[e.node] == g.RunEmitted(f, b, e)[e.node]
  {
    if e.Single? {
      forall s | 0 <= s < MAX_SRC && g.Src(e.node, s).Some?
        ensures a[g.Src(e.node, s).value] == b[g.Src(e.node, s).value]
      {
        assert g.Src(e.node, s).value in g.Reads(e);
      }
      g.SameOperands(f, a, b, e.node);
    }
  }
}

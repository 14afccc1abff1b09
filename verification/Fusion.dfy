/**
 RMS_NORM + MUL fusion while lowering a graph to board ops.

 Lower follows the pre-pass (use counts, then anchors) and the emission loop. Fusion
 fires only where both ops lower alone, every compute node is emitted or absorbed exactly
 once, and no emitted op reads an absorbed node. It keeps every value exactly when each
 absorbed RMS_NORM is itself a compute node of the graph, which the anchor test does not
 check (FusionKeepsValues, FusionNeedsComputed).
 */
module Fusion {
  import opened Common

  const MAX_SRC: nat := 10
  const MAX_DIMS: nat := 4

  /** Other stands for every op kind fusion does not look at. */
  datatype Kind = RmsNorm | Mul | Meta | Other

  datatype Tensor = Tensor(
    kind: Kind, compute: bool, output: bool, f32: bool, contiguous: bool,
    ne: seq<nat>, srcs: seq<Option<nat>>, bound: bool, otherOk: bool)

  datatype Emitted = Single(node: nat) | Fused(node: nat, rms: nat)

  datatype Graph = Graph(tensors: seq<Tensor>, nodes: seq<nat>)
  {
    /** Nodes are distinct and sources come first. */
    predicate Valid()
    {
      && (forall i :: 0 <= i < |nodes| ==> nodes[i] < |tensors|)
      && (forall i, j :: 0 <= i < j < |nodes| ==> nodes[i] != nodes[j])
      && (forall t :: 0 <= t < |tensors| ==> |tensors[t].ne| == MAX_DIMS && |tensors[t].srcs| == MAX_SRC)
      && (forall t, s :: 0 <= t < |tensors| && 0 <= s < MAX_SRC && tensors[t].srcs[s].Some? ==>
            tensors[t].srcs[s].value < |tensors|)
      && (forall i, j, s ::
        (0 <= i < |nodes| && 0 <= j < |nodes| && 0 <= s < MAX_SRC && tensors[nodes[i]].srcs[s] == Some(nodes[j]))
        ==> j < i)
    }

    function Src(t: nat, s: nat): Option<nat>
      requires t < |tensors|
    {
      if s < |tensors[t].srcs| then tensors[t].srcs[s] else None
    }

    predicate NonEmpty(t: nat)
      requires t < |tensors|
    {
      forall d :: 0 <= d < |tensors[t].ne| ==> tensors[t].ne[d] > 0
    }

    predicate ContiguousF32(t: nat)
      requires t < |tensors|
    {
      tensors[t].f32 && NonEmpty(t) && tensors[t].contiguous
    }

    predicate SameShape(a: nat, b: nat)
      requires a < |tensors| && b < |tensors|
    {
      tensors[a].ne == tensors[b].ne
    }

    predicate RowBroadcastFor(w: nat, t: nat)
      requires Valid() && w < |tensors| && t < |tensors|
    {
      && ContiguousF32(w) && ContiguousF32(t)
      && tensors[w].ne[0] == tensors[t].ne[0]
      && forall d :: 1 <= d < MAX_DIMS ==> tensors[w].ne[d] == 1
    }

    // ----- lowering one op alone -----

    /** The operands of a lowered MUL and whether the second is a broadcast row. */
    function BinaryLowering(t: nat): Option<(nat, nat, bool)>
      requires Valid() && t < |tensors|
    {
      if tensors[t].kind != Mul || !ContiguousF32(t) || Src(t, 0).None? || Src(t, 1).None? then None
      else
        var a, b := Src(t, 0).value, Src(t, 1).value;
        if !ContiguousF32(a) || !ContiguousF32(b) then None
        else if SameShape(a, t) && SameShape(b, t) then Some((a, b, false))
        else if SameShape(a, t) && RowBroadcastFor(b, t) then Some((a, b, true))
        else if SameShape(b, t) && RowBroadcastFor(a, t) then Some((b, a, true))
        else None
    }

    predicate SupportsRmsNorm(t: nat)
      requires Valid() && t < |tensors|
    {
      && tensors[t].kind == RmsNorm
      && ContiguousF32(t)
      && Src(t, 0).Some?
      && ContiguousF32(Src(t, 0).value)
      && SameShape(t, Src(t, 0).value)
    }

    /** Some entry of the lowering table matches. */
    predicate Lowers(t: nat)
      requires Valid() && t < |tensors|
    {
      NonEmpty(t) &&
      match tensors[t].kind
      case Mul => BinaryLowering(t).Some?
      case RmsNorm => SupportsRmsNorm(t)
      case Meta => false
      case Other => tensors[t].otherOk
    }

    predicate Bound(s: Option<nat>)
    {
      s.Some? && s.value < |tensors| && tensors[s.value].bound
    }

    /** Emitting the op finds bindings for its destination and operands. */
    predicate Appends(t: nat)
      requires Valid() && t < |tensors|
    {
      tensors[t].bound &&
      match tensors[t].kind
      case Mul => Bound(Src(t, 0)) && Bound(Src(t, 1))
      case RmsNorm => Bound(Src(t, 0))
      case Meta => true
      case Other => true
    }

    predicate AppendsFused(mul: nat, rms: nat)
      requires Valid() && mul < |tensors| && rms < |tensors|
    {
      tensors[mul].bound && Bound(Src(rms, 0)) && Bound(Src(mul, 1))
    }

    // ----- use counts -----

    /** How many of the first s slots of a tensor name t. */
    function SlotUses(n: nat, s: nat, t: nat): nat
      requires n < |tensors|
    {
      if s == 0 then 0 else SlotUses(n, s - 1, t) + if Src(n, s - 1) == Some(t) then 1 else 0
    }

    /** How many source slots of the first k nodes name t. */
    function Uses(k: nat, t: nat): nat
      requires k <= |nodes| && forall i :: 0 <= i < |nodes| ==> nodes[i] < |tensors|
    {
      if k == 0 then 0 else Uses(k - 1, t) + SlotUses(nodes[k - 1], MAX_SRC, t)
    }

    lemma {:induction false} SlotUsed(n: nat, s: nat, t: nat, u: nat)
      requires n < |tensors| && u < s && Src(n, u) == Some(t)
      ensures SlotUses(n, s, t) >= 1
    {
      if u < s - 1 {
        SlotUsed(n, s - 1, t, u);
      }
    }

    lemma {:induction false} TwoSlots(n: nat, s: nat, t: nat, u: nat, v: nat)
      requires n < |tensors| && u < v < s && Src(n, u) == Some(t) && Src(n, v) == Some(t)
      ensures SlotUses(n, s, t) >= 2
    {
      if v < s - 1 {
        TwoSlots(n, s - 1, t, u, v);
      } else {
        SlotUsed(n, s - 1, t, u);
      }
    }

    lemma {:induction false} UsedOnce(k: nat, t: nat, i: nat)
      requires Valid() && i < k <= |nodes|
      ensures Uses(k, t) >= SlotUses(nodes[i], MAX_SRC, t)
    {
      hide SlotUses;
      if i < k - 1 {
        UsedOnce(k - 1, t, i);
      }
    }

    lemma {:induction false} UsedTwice(k: nat, t: nat, i: nat, j: nat)
      requires Valid() && i < j < k <= |nodes|
      ensures Uses(k, t) >= SlotUses(nodes[i], MAX_SRC, t) + SlotUses(nodes[j], MAX_SRC, t)
    {
      hide SlotUses;
      if j < k - 1 {
        UsedTwice(k - 1, t, i, j);
      } else {
        UsedOnce(k - 1, t, i);
      }
    }

    /** A tensor with use count one is named by one slot of one node. */
    lemma SoleUse(t: nat, i: nat, u: nat, j: nat, v: nat)
      requires Valid() && Uses(|nodes|, t) == 1
      requires i < |nodes| && u < MAX_SRC && Src(nodes[i], u) == Some(t)
      requires j < |nodes| && v < MAX_SRC && Src(nodes[j], v) == Some(t)
      ensures i == j && u == v
    {
      hide SlotUses, Uses;
      SlotUsed(nodes[i], MAX_SRC, t, u);
      SlotUsed(nodes[j], MAX_SRC, t, v);
      if i < j {
        UsedTwice(|nodes|, t, i, j);
      } else if j < i {
        UsedTwice(|nodes|, t, j, i);
      } else {
        UsedOnce(|nodes|, t, i);
        if u < v {
          TwoSlots(nodes[i], MAX_SRC, t, u, v);
        } else if v < u {
          TwoSlots(nodes[i], MAX_SRC, t, v, u);
        }
      }
    }

    // ----- the anchor test -----

    /** The RMS_NORM a MUL absorbs, given how often that RMS_NORM is used. */
    function FusedRmsFor(t: nat): (r: Option<nat>)
      requires Valid() && t < |tensors|
      ensures r.Some? ==> r.value < |tensors| && Src(t, 0) == r
    {
      if tensors[t].kind != Mul || Src(t, 0).None? || Src(t, 1).None? then None
      else
        var rms, weight := Src(t, 0).value, Src(t, 1).value;
        if tensors[rms].kind != RmsNorm || tensors[rms].output || Uses(|nodes|, rms) != 1 then None
        else if !ContiguousF32(t) || !ContiguousF32(rms) then None
        else if Src(rms, 0).None? || !ContiguousF32(Src(rms, 0).value) then None
        else if !SameShape(t, rms) || !SameShape(rms, Src(rms, 0).value) then None
        else if !RowBroadcastFor(weight, t) then None
        else Some(rms)
    }

    /** Fusion fires only where both ops lower alone, to these very operands. */
    lemma FiresOnlyWhereBothLower(t: nat)
      requires Valid() && t < |tensors| && FusedRmsFor(t).Some?
      ensures Lowers(t) && Lowers(FusedRmsFor(t).value)
      ensures BinaryLowering(t).Some?
      ensures
        var low := BinaryLowering(t).value;
        low.0 == FusedRmsFor(t).value && Some(low.1) == Src(t, 1) &&
        (low.2 || SameShape(low.1, t))
    {
    }

    /** Node i is a compute MUL that absorbs r. */
    predicate Anchors(i: nat, r: nat)
      requires Valid() && i < |nodes|
    {
      tensors[nodes[i]].compute && FusedRmsFor(nodes[i]) == Some(r)
    }

    predicate Absorbed(r: nat)
      requires Valid()
    {
      exists i :: 0 <= i < |nodes| && Anchors(i, r)
    }

    /** Who reads an absorbed node: its anchor's first slot and nobody else. */
    lemma AbsorbedRead(i: nat, r: nat, j: nat, s: nat)
      requires Valid() && i < |nodes| && Anchors(i, r)
      requires j < |nodes| && s < MAX_SRC && Src(nodes[j], s) == Some(r)
      ensures j == i && s == 0
    {
      SoleUse(r, i, 0, j, s);
    }

    lemma OneAnchor(i: nat, j: nat, r: nat)
      requires Valid() && i < |nodes| && j < |nodes| && Anchors(i, r) && Anchors(j, r)
      ensures i == j
    {
      SoleUse(r, i, 0, j, 0);
    }

    // ----- what is emitted -----

    predicate IsWork(n: nat)
      requires n < |tensors|
    {
      tensors[n].compute && tensors[n].kind != Meta
    }

    /** The op a node becomes, fused or alone. */
    function Choice(n: nat): Emitted
      requires Valid() && n < |tensors|
    {
      if FusedRmsFor(n).Some? then Fused(n, FusedRmsFor(n).value) else Single(n)
    }

    /** What the loop does at node i. */
    function Decide(i: nat): Outcome
      requires Valid() && i < |nodes|
    {
      var n := nodes[i];
      if !IsWork(n) || Absorbed(n) then Skip
      else if FusedRmsFor(n).Some? then
        if AppendsFused(n, FusedRmsFor(n).value) then Emit(Choice(n)) else Fail
      else if Lowers(n) && Appends(n) then Emit(Choice(n))
      else Fail
    }

    /** The same loop without fusion. */
    function DecideAlone(i: nat): Outcome
      requires Valid() && i < |nodes|
    {
      var n := nodes[i];
      if !IsWork(n) then Skip else if Lowers(n) && Appends(n) then Emit(Single(n)) else Fail
    }

    function Emission(k: nat): Option<seq<Emitted>>
      requires Valid() && k <= |nodes|
    {
      if k == 0 then Some([]) else Then(Emission(k - 1), Decide(k - 1))
    }

    function EmissionAlone(k: nat): Option<seq<Emitted>>
      requires Valid() && k <= |nodes|
    {
      if k == 0 then Some([]) else Then(EmissionAlone(k - 1), DecideAlone(k - 1))
    }

    /** The compute nodes among the first k that are not absorbed, in order. */
    function Kept(k: nat): seq<nat>
      requires Valid() && k <= |nodes|
    {
      if k == 0 then []
      else Kept(k - 1) + if IsWork(nodes[k - 1]) && !Absorbed(nodes[k - 1]) then [nodes[k - 1]] else []
    }

    /** The ops emitted are, in order, one for each compute node that is not absorbed. */
    lemma {:induction false} EmitsEachKeptOnce(k: nat)
      requires Valid() && k <= |nodes| && Emission(k).Some?
      ensures Heads(Emission(k).value) == Kept(k)
    {
      hide Absorbed, FusedRmsFor, Lowers, Appends, AppendsFused;
      if k > 0 {
        EmitsEachKeptOnce(k - 1);
        HeadsSnoc(Emission(k - 1).value, Single(nodes[k - 1]));
        if Decide(k - 1).Emit? {
          HeadsSnoc(Emission(k - 1).value, Decide(k - 1).op);
        }
      }
    }

    lemma {:induction false} EmittedAt(k: nat, i: nat)
      requires Valid() && i < k <= |nodes| && Emission(k).Some? && Decide(i).Emit?
      ensures Decide(i).op in Emission(k).value
    {
      hide Decide;
      if i < k - 1 {
        EmittedAt(k - 1, i);
      }
    }

    lemma {:induction false} EmittedFrom(k: nat, e: Emitted) returns (i: nat)
      requires Valid() && k <= |nodes| && Emission(k).Some? && e in Emission(k).value
      ensures i < k && Decide(i) == Emit(e)
    {
      hide Decide;
      i := k - 1;
      if Decide(k - 1) != Emit(e) {
        i := EmittedFrom(k - 1, e);
      }
    }

    lemma AnchorDecides(i: nat, r: nat)
      requires Valid() && i < |nodes| && Anchors(i, r)
      ensures Decide(i) == if AppendsFused(nodes[i], r) then Emit(Fused(nodes[i], r)) else Fail
    {
      assert !Absorbed(nodes[i]);
    }

    /** Each absorbed node is carried by exactly one emitted op. */
    lemma AbsorbedOnce(r: nat)
      requires Valid() && Emission(|nodes|).Some? && Absorbed(r)
      ensures exists e :: e in Emission(|nodes|).value && Carries(e, r)
      ensures forall e, d :: e in Emission(|nodes|).value && d in Emission(|nodes|).value ==>
        (Carries(e, r) && Carries(d, r) ==> e == d)
    {
      hide Decide, Emission;
      var i :| 0 <= i < |nodes| && Anchors(i, r);
      AnchorDecides(i, r);
      NeverFails(|nodes|, i);
      EmittedAt(|nodes|, i);
      assert Decide(i) == Emit(Fused(nodes[i], r));
      assert Carries(Fused(nodes[i], r), r);
      forall e | e in Emission(|nodes|).value && Carries(e, r) ensures e == Fused(nodes[i], r) {
        var j := EmittedFrom(|nodes|, e);
        FusedIsAnchor(j, e);
        OneAnchor(i, j, r);
      }
    }

    lemma FusedIsAnchor(j: nat, e: Emitted)
      requires Valid() && j < |nodes| && Decide(j) == Emit(e) && e.Fused?
      ensures Anchors(j, e.rms) && e.node == nodes[j]
    {
    }

    lemma {:induction false} NeverFails(k: nat, i: nat)
      requires Valid() && i < k <= |nodes| && Emission(k).Some?
      ensures Decide(i) != Fail
    {
      hide Decide;
      if i < k - 1 {
        NeverFails(k - 1, i);
      }
    }

    /** Every absorbed RMS_NORM is itself a compute node of this graph. */
    predicate AbsorbedAreComputed()
      requires Valid()
    {
      forall i :: 0 <= i < |nodes| && tensors[nodes[i]].compute && FusedRmsFor(nodes[i]).Some? ==>
        IsComputed(FusedRmsFor(nodes[i]).value)
    }

    predicate IsComputed(r: nat)
      requires r < |tensors|
    {
      r in nodes && tensors[r].compute
    }

    /** The tensors an emitted op reads on the board. */
    function Reads(e: Emitted): set<nat>
      requires e.node < |tensors| && (e.Fused? ==> e.rms < |tensors|)
    {
      match e
      case Single(n) => set s | 0 <= s < MAX_SRC && Src(n, s).Some? :: Src(n, s).value
      case Fused(m, r) =>
        (if Src(r, 0).Some? then {Src(r, 0).value} else {}) + (if Src(m, 1).Some? then {Src(m, 1).value} else {})
    }

    /** No emitted op reads an absorbed node. */
    lemma NoEmittedReadsAbsorbed(j: nat, r: nat)
      requires Valid() && AbsorbedAreComputed() && j < |nodes| && Decide(j).Emit? && Absorbed(r)
      ensures Decide(j).op.node < |tensors| && (Decide(j).op.Fused? ==> Decide(j).op.rms < |tensors|)
      ensures r !in Reads(Decide(j).op)
    {
      var i :| 0 <= i < |nodes| && Anchors(i, r);
      var e := Decide(j).op;
      if e.Single? {
        if s :| 0 <= s < MAX_SRC && Src(nodes[j], s) == Some(r) {
          AbsorbedRead(i, r, j, s);
          assert false;
        }
      } else {
        FusedIsAnchor(j, e);
        hide Decide, FusedRmsFor, Absorbed;
        if Src(e.node, 1) == Some(r) {
          AbsorbedRead(i, r, j, 1);
          assert false;
        }
        if Src(e.rms, 0) == Some(r) {
          var q := NodeOf(j, e.rms);
          AbsorbedRead(i, r, q, 0);
          assert false;
        }
      }
    }

    lemma NodeOf(j: nat, r: nat) returns (q: nat)
      requires Valid() && AbsorbedAreComputed() && j < |nodes| && Anchors(j, r)
      ensures q < j && nodes[q] == r && tensors[r].compute && tensors[r].kind == RmsNorm
    {
      assert IsComputed(r);
      q :| 0 <= q < |nodes| && nodes[q] == r;
      assert tensors[nodes[j]].srcs[0] == Some(nodes[q]);
    }

    /** If every op could be emitted alone, so can the fused graph. */
    lemma {:induction false} FusionNeverFailsMore(k: nat)
      requires Valid() && AbsorbedAreComputed() && k <= |nodes|
      requires EmissionAlone(|nodes|).Some? && EmissionAlone(k).Some?
      ensures Emission(k).Some?
    {
      hide Decide, DecideAlone, AbsorbedAreComputed;
      if k > 0 {
        FusionNeverFailsMore(k - 1);
        DecidesWithin(k - 1);
      }
    }

    lemma {:induction false} AloneAt(k: nat, i: nat)
      requires Valid() && i < k <= |nodes| && EmissionAlone(k).Some?
      ensures DecideAlone(i) != Fail
    {
      hide DecideAlone;
      if i < k - 1 {
        AloneAt(k - 1, i);
      }
    }

    lemma DecidesWithin(i: nat)
      requires Valid() && AbsorbedAreComputed() && i < |nodes| && EmissionAlone(|nodes|).Some?
      ensures Decide(i) != Fail
    {
      hide Lowers, Emission, EmissionAlone, Absorbed;
      AloneAt(|nodes|, i);
      if IsWork(nodes[i]) && FusedRmsFor(nodes[i]).Some? {
        var q := NodeOf(i, FusedRmsFor(nodes[i]).value);
        AloneAt(|nodes|, q);
      }
    }

    // ----- values -----

    function Operands<V>(env: seq<V>, n: nat): seq<Option<V>>
      requires Valid() && |env| == |tensors| && n < |tensors|
    {
      seq(MAX_SRC, s requires 0 <= s < MAX_SRC => if Src(n, s).Some? then Some(env[Src(n, s).value]) else None)
    }

    /** What an op writes, from the values of its sources. */
    function OpValue<V>(f: Interp<V>, env: seq<V>, n: nat): V
      requires Valid() && |env| == |tensors| && n < |tensors|
    {
      if tensors[n].kind == RmsNorm && Src(n, 0).Some? then f.rms(n, env[Src(n, 0).value])
      else if tensors[n].kind == Mul && Src(n, 0).Some? && Src(n, 1).Some?
      then f.mul(env[Src(n, 0).value], env[Src(n, 1).value])
      else f.other(n, Operands(env, n))
    }

    /** Every tensor's value after the first k nodes ran as they stand. */
    function Eval<V>(f: Interp<V>, env: seq<V>, k: nat): (r: seq<V>)
      requires Valid() && |env| == |tensors| && k <= |nodes|
      ensures |r| == |tensors|
    {
      if k == 0 then env
      else
        var e, n := Eval(f, env, k - 1), nodes[k - 1];
        if IsWork(n) || tensors[n].kind == Meta then e[n := OpValue(f, e, n)] else e
    }

    /** What running one emitted op does on the board. */
    function RunEmitted<V>(f: Interp<V>, env: seq<V>, e: Emitted): (r: seq<V>)
      requires Valid() && |env| == |tensors| && e.node < |tensors|
      requires e.Fused? ==> e.rms < |tensors| && Src(e.rms, 0).Some? && Src(e.node, 1).Some?
      ensures |r| == |tensors|
    {
      match e
      case Single(n) => env[n := OpValue(f, env, n)]
      case Fused(m, r) => env[m := f.mul(f.rms(r, env[Src(r, 0).value]), env[Src(m, 1).value])]
    }

    /** Every tensor's value after the emitted ops of the first k nodes ran. */
    function EvalFused<V>(f: Interp<V>, env: seq<V>, k: nat): (r: seq<V>)
      requires Valid() && |env| == |tensors| && k <= |nodes|
      ensures |r| == |tensors|
    {
      if k == 0 then env
      else
        var e, n := EvalFused(f, env, k - 1), nodes[k - 1];
        if tensors[n].kind == Meta then e[n := OpValue(f, e, n)]
        else if !IsWork(n) || Absorbed(n) then e
        else RunEmitted(f, e, Choice(n))
    }

    lemma SameOperands<V>(f: Interp<V>, a: seq<V>, b: seq<V>, n: nat)
      requires Valid() && |a| == |b| == |tensors| && n < |tensors|
      requires forall s :: 0 <= s < MAX_SRC && Src(n, s).Some? ==> a[Src(n, s).value] == b[Src(n, s).value]
      ensures OpValue(f, a, n) == OpValue(f, b, n)
    {
      assert Operands(a, n) == Operands(b, n);
    }

    /** Once a node has run, its operands and so its value stay. */
    lemma {:induction false} RmsStays<V>(f: Interp<V>, env: seq<V>, k: nat, q: nat)
      requires Valid() && |env| == |tensors| && q < k <= |nodes|
      requires tensors[nodes[q]].compute && tensors[nodes[q]].kind == RmsNorm && Src(nodes[q], 0).Some?
      ensures Eval(f, env, k)[nodes[q]] == f.rms(nodes[q], Eval(f, env, k)[Src(nodes[q], 0).value])
    {
      var x := Src(nodes[q], 0).value;
      assert tensors[nodes[q]].srcs[0] == Some(x);
      if q < k - 1 {
        RmsStays(f, env, k - 1, q);
      }
      assert nodes[k - 1] != x;
    }

    /** The fused run agrees with the plain one off the absorbed nodes. */
    predicate Agree<V(==)>(f: Interp<V>, env: seq<V>, k: nat)
      requires Valid() && |env| == |tensors| && k <= |nodes|
    {
      forall t :: 0 <= t < |tensors| && !Absorbed(t) ==> EvalFused(f, env, k)[t] == Eval(f, env, k)[t]
    }

    /** A node that is no anchor reads no absorbed node. */
    lemma PlainReads(j: nat, s: nat)
      requires Valid() && j < |nodes| && s < MAX_SRC && Src(nodes[j], s).Some?
      requires s > 0 || !tensors[nodes[j]].compute || FusedRmsFor(nodes[j]).None?
      ensures !Absorbed(Src(nodes[j], s).value)
    {
      var r := Src(nodes[j], s).value;
      if i :| 0 <= i < |nodes| && Anchors(i, r) {
        AbsorbedRead(i, r, j, s);
        assert false;
      }
    }

    /** Fusion keeps the value of every tensor that is not absorbed. */
    lemma {:induction false} FusionKeepsValues<V>(f: Interp<V>, env: seq<V>, k: nat)
      requires Valid() && AbsorbedAreComputed() && |env| == |tensors| && k <= |nodes|
      ensures Agree(f, env, k)
    {
      if k > 0 {
        FusionKeepsValues(f, env, k - 1);
        var n := nodes[k - 1];
        if IsWork(n) && FusedRmsFor(n).Some? {
          AnchorStep(f, env, k);
        } else if tensors[n].kind == Meta || (IsWork(n) && !Absorbed(n)) {
          PlainStep(f, env, k);
        }
      }
    }

    lemma PlainStep<V>(f: Interp<V>, env: seq<V>, k: nat)
      requires Valid() && |env| == |tensors| && 0 < k <= |nodes| && Agree(f, env, k - 1)
      requires tensors[nodes[k - 1]].kind == Meta || (IsWork(nodes[k - 1]) && !Absorbed(nodes[k - 1]))
      requires !IsWork(nodes[k - 1]) || FusedRmsFor(nodes[k - 1]).None?
      ensures Agree(f, env, k)
    {
      var a, b, n := EvalFused(f, env, k - 1), Eval(f, env, k - 1), nodes[k - 1];
      forall s | 0 <= s < MAX_SRC && Src(n, s).Some? ensures a[Src(n, s).value] == b[Src(n, s).value] {
        PlainReads(k - 1, s);
      }
      SameOperands(f, a, b, n);
    }

    lemma AnchorStep<V>(f: Interp<V>, env: seq<V>, k: nat)
      requires Valid() && AbsorbedAreComputed() && |env| == |tensors| && 0 < k <= |nodes| && Agree(f, env, k - 1)
      requires IsWork(nodes[k - 1]) && FusedRmsFor(nodes[k - 1]).Some?
      ensures Agree(f, env, k)
    {
      var n := nodes[k - 1];
      var r := FusedRmsFor(n).value;
      var q := NodeOf(k - 1, r);
      assert Src(r, 0).Some? && Src(n, 1).Some? && FusedRmsFor(r).None?;
      RmsStays(f, env, k - 1, q);
      PlainReads(q, 0);
      PlainReads(k - 1, 1);
      assert !Absorbed(n);
    }

    lemma {:induction false} Untouched<V>(f: Interp<V>, env: seq<V>, k: nat, t: nat)
      requires Valid() && |env| == |tensors| && k <= |nodes| && t < |tensors|
      requires forall i :: 0 <= i < k ==> nodes[i] != t || !(IsWork(t) || tensors[t].kind == Meta)
      ensures Eval(f, env, k)[t] == env[t]
    {
      if k > 0 {
        Untouched(f, env, k - 1, t);
      }
    }

    lemma {:induction false} Settled<V>(f: Interp<V>, env: seq<V>, k: nat, j: nat)
      requires Valid() && |env| == |tensors| && j < k <= |nodes|
      ensures Eval(f, env, k)[nodes[j]] == Eval(f, env, j + 1)[nodes[j]]
      ensures EvalFused(f, env, k)[nodes[j]] == EvalFused(f, env, j + 1)[nodes[j]]
    {
      if j + 1 < k {
        Settled(f, env, k - 1, j);
      }
    }

    /** An interpretation that tells a recomputed RMS_NORM from one never run. */
    lemma Distinguishes(env: seq<int>, i: nat, r: nat)
      requires Valid() && i < |nodes| && Anchors(i, r) && !IsComputed(r)
      requires |env| == |tensors| && forall t :: 0 <= t < |env| ==> env[t] == 0
      ensures !Agree(OneOrZero(), env, |nodes|)
    {
      hide Uses, SlotUses;
      var f := OneOrZero();
      var m := nodes[i];
      AnchorDecides(i, r);
      Untouched(f, env, i, r);
      var x, w := Src(r, 0).value, Src(m, 1).value;
      var e, d := Eval(f, env, i), EvalFused(f, env, i);
      assert Eval(f, env, i + 1)[m] == f.mul(e[r], e[w]) == 0;
      assert f.rms(r, d[x]) == 1;
      assert EvalFused(f, env, i + 1)[m] == f.mul(f.rms(r, d[x]), d[w]) == f.rms(r, d[x]);
      Settled(f, env, |nodes|, i);
    }

    /** If some absorbed RMS_NORM is not computed here, fusion changes a value of some run. */
    lemma FusionNeedsComputed()
      requires Valid() && !AbsorbedAreComputed()
      ensures exists f: Interp<int>, env: seq<int> :: |env| == |tensors| && !Agree(f, env, |nodes|)
    {
      hide Uses, SlotUses, Agree;
      var i :| 0 <= i < |nodes| && tensors[nodes[i]].compute && FusedRmsFor(nodes[i]).Some? &&
        !IsComputed(FusedRmsFor(nodes[i]).value);
      var env := seq(|tensors|, t => 0);
      Distinguishes(env, i, FusedRmsFor(nodes[i]).value);
    }

    /** Fusion keeps every value of every run exactly when each absorbed node is computed here. */
    lemma FusionExact()
      requires Valid()
      ensures AbsorbedAreComputed() <==>
              forall f: Interp<int>, env: seq<int> :: |env| == |tensors| ==> Agree(f, env, |nodes|)
    {
      hide Uses, SlotUses, Agree, AbsorbedAreComputed;
      if AbsorbedAreComputed() {
        forall f: Interp<int>, env: seq<int> | |env| == |tensors| ensures Agree(f, env, |nodes|) {
          FusionKeepsValues(f, env, |nodes|);
        }
      } else {
        FusionNeedsComputed();
      }
    }
  }

  // ----- a graph that meets it -----

  function NoSources(n: nat): (s: seq<Option<nat>>)
    ensures |s| == n
  {
    seq(n, i => None)
  }

  function RowOf4(kind: Kind, compute: bool, srcs: seq<Option<nat>>): Tensor
  {
    Tensor(kind, compute, false, true, true, [4, 1, 1, 1], srcs, true, true)
  }

  /**
   A split that holds only the MUL: x (0), the RMS_NORM of x (1), which an earlier graph
   computed, the weight (2) and the MUL of the two (3), the graph's one node.
   */
  function MulOnlySplit(): Graph
  {
    Graph([RowOf4(Other, false, NoSources(MAX_SRC)),
           RowOf4(RmsNorm, false, [Some(0)] + NoSources(MAX_SRC - 1)),
           RowOf4(Other, false, NoSources(MAX_SRC)),
           RowOf4(Mul, true, [Some(1), Some(2)] + NoSources(MAX_SRC - 2))], [3])
  }

  /**
   The MUL absorbs the RMS_NORM of the earlier graph: the emitted op recomputes it from
   what x holds now, and in some run leaves another value than the MUL alone.
   */
  lemma SplitFusesAcross()
    ensures MulOnlySplit().Valid() && !MulOnlySplit().AbsorbedAreComputed()
    ensures MulOnlySplit().FusedRmsFor(3) == Some(1)
    ensures MulOnlySplit().Decide(0) == Emit(Fused(3, 1))
    ensures exists f: Interp<int>, env: seq<int> :: |env| == 4 && !MulOnlySplit().Agree(f, env, 1)
  {
    var g := MulOnlySplit();
    SplitValid();
    SplitUses();
    hide Graph.Uses, Graph.SlotUses, Graph.Agree, NoSources;
    assert g.FusedRmsFor(3) == Some(1) && g.nodes[0] == 3 && !g.IsComputed(1);
    g.FusionNeedsComputed();
  }

  lemma SplitValid()
    ensures MulOnlySplit().Valid()
    ensures MulOnlySplit().Src(3, 0) == Some(1) && MulOnlySplit().Src(3, 1) == Some(2)
    ensures MulOnlySplit().Src(1, 0) == Some(0)
  {
  }

  lemma SplitUses()
    requires MulOnlySplit().Valid()
    ensures MulOnlySplit().Uses(1, 1) == 1
  {
    var g := MulOnlySplit();
    SplitSlots(MAX_SRC);
    hide Graph.SlotUses;
    assert g.Uses(0, 1) == 0 && g.nodes[0] == 3;
  }

  lemma {:induction false} SplitSlots(s: nat)
    ensures MulOnlySplit().SlotUses(3, s, 1) == if s == 0 then 0 else 1
  {
    if s > 0 {
      SplitSlots(s - 1);
    }
  }

  /** RMS_NORM gives one, MUL its first operand, everything else zero. */
  function OneOrZero(): Interp<int>
  {
    Interp((n, v) => 1, (a, b) => a, (n, vs) => 0)
  }

  /** Meanings for the kernels: RMS_NORM by node (its eps), MUL, and everything else. */
  datatype Interp<!V> = Interp(rms: (nat, V) -> V, mul: (V, V) -> V, other: (nat, seq<Option<V>>) -> V)

  // ----- the lowering pass -----

  /** How often each tensor is named as a source. */
  method CountUses(g: Graph) returns (counts: map<nat, nat>)
    requires g.Valid()
    ensures forall t :: (if t in counts then counts[t] else 0) == g.Uses(|g.nodes|, t)
  {
    counts := map[];
    for i := 0 to |g.nodes|
      invariant forall t :: (if t in counts then counts[t] else 0) == g.Uses(i, t)
    {
      var n := g.nodes[i];
      for s := 0 to MAX_SRC
        invariant forall t :: (if t in counts then counts[t] else 0) == g.Uses(i, t) + g.SlotUses(n, s, t)
      {
        var src := g.Src(n, s);
        if src.Some? {
          counts := counts[src.value := 1 + if src.value in counts then counts[src.value] else 0];
        }
      }
    }
  }

  /** The anchor test against a table of use counts. */
  method FindRms(g: Graph, counts: map<nat, nat>, t: nat) returns (r: Option<nat>)
    requires g.Valid() && t < |g.tensors|
    requires forall u :: (if u in counts then counts[u] else 0) == g.Uses(|g.nodes|, u)
    ensures r == g.FusedRmsFor(t)
  {
    hide Graph.Uses;
    if g.tensors[t].kind != Mul {
      return None;
    }
    var rms, weight := g.Src(t, 0), g.Src(t, 1);
    if rms.None? || weight.None? || g.tensors[rms.value].kind != RmsNorm || g.tensors[rms.value].output {
      return None;
    }
    if rms.value !in counts || counts[rms.value] != 1 {
      assert g.Uses(|g.nodes|, rms.value) != 1;
      return None;
    }
    if !g.ContiguousF32(t) || !g.ContiguousF32(rms.value) {
      return None;
    }
    var input := g.Src(rms.value, 0);
    if input.None? || !g.ContiguousF32(input.value) {
      return None;
    }
    if !g.SameShape(t, rms.value) || !g.SameShape(rms.value, input.value) || !g.RowBroadcastFor(weight.value, t) {
      return None;
    }
    return rms;
  }

  /** The pre-pass: each compute MUL that absorbs an RMS_NORM, and the absorbed nodes. */
  method FindAnchors(g: Graph) returns (mulToRms: map<nat, nat>, fusedRms: set<nat>)
    requires g.Valid()
    ensures forall i :: 0 <= i < |g.nodes| ==> AnchorRecorded(g, i, mulToRms)
    ensures forall r :: r in fusedRms <==> g.Absorbed(r)
  {
    hide Graph.Uses, Graph.FusedRmsFor;
    var counts := CountUses(g);
    mulToRms, fusedRms := map[], {};
    for i := 0 to |g.nodes|
      invariant forall j :: 0 <= j < i ==> AnchorRecorded(g, j, mulToRms)
      invariant forall n :: n in mulToRms ==> exists j :: 0 <= j < i && g.nodes[j] == n
      invariant forall r :: r in fusedRms <==> exists j :: 0 <= j < i && g.Anchors(j, r)
    {
      var node := g.nodes[i];
      ghost var before := mulToRms;
      if g.tensors[node].compute {
        var rms := FindRms(g, counts, node);
        if rms.Some? {
          mulToRms := mulToRms[node := rms.value];
          fusedRms := fusedRms + {rms.value};
          assert g.Anchors(i, rms.value);
        }
      }
      forall j | 0 <= j < i ensures AnchorRecorded(g, j, mulToRms) {
        assert AnchorRecorded(g, j, before) && g.nodes[j] != node;
      }
    }
  }

  /** The table holds node i's absorbed RMS_NORM exactly when node i is an anchor. */
  predicate AnchorRecorded(g: Graph, i: nat, mulToRms: map<nat, nat>)
    requires g.Valid() && i < |g.nodes|
  {
    var n := g.nodes[i];
    if g.tensors[n].compute && g.FusedRmsFor(n).Some?
    then n in mulToRms && mulToRms[n] == g.FusedRmsFor(n).value
    else n !in mulToRms
  }

  /** Build the board ops of a graph, or fail. */
  method Lower(g: Graph) returns (ops: Option<seq<Emitted>>)
    requires g.Valid()
    ensures ops == g.Emission(|g.nodes|)
  {
    hide Graph.Uses, Graph.FusedRmsFor, Graph.Lowers, Graph.Appends, Graph.AppendsFused, Graph.Absorbed;
    var mulToRms, fusedRms := FindAnchors(g);
    var emitted: seq<Emitted> := [];
    for i := 0 to |g.nodes|
      invariant g.Emission(i) == Some(emitted)
    {
      var node := g.nodes[i];
      assert AnchorRecorded(g, i, mulToRms);
      if !g.tensors[node].compute || g.tensors[node].kind == Meta || node in fusedRms {
        continue;
      }
      if node in mulToRms {
        if !g.AppendsFused(node, mulToRms[node]) {
          FailStays(g, i + 1, |g.nodes|);
          return None;
        }
        emitted := emitted + [Fused(node, mulToRms[node])];
        continue;
      }
      if !g.Lowers(node) || !g.Appends(node) {
        FailStays(g, i + 1, |g.nodes|);
        return None;
      }
      emitted := emitted + [Single(node)];
    }
    return Some(emitted);
  }

  lemma {:induction false} FailStays(g: Graph, i: nat, k: nat)
    requires g.Valid() && i <= k <= |g.nodes| && g.Emission(i).None?
    ensures g.Emission(k).None?
  {
    hide Graph.Decide;
    if i < k {
      FailStays(g, i, k - 1);
    }
  }

  predicate Carries(e: Emitted, r: nat)
  {
    e.Fused? && e.rms == r
  }

  datatype Outcome = Skip | Emit(op: Emitted) | Fail

  function Then(es: Option<seq<Emitted>>, o: Outcome): Option<seq<Emitted>>
  {
    if es.None? || o.Fail? then None
    else if o.Skip? then es
    else Some(es.value + [o.op])
  }

  function Heads(es: seq<Emitted>): seq<nat>
  {
    if es == [] then [] else Heads(es[..|es| - 1]) + [es[|es| - 1].node]
  }

  lemma HeadsSnoc(es: seq<Emitted>, e: Emitted)
    ensures Heads(es + [e]) == Heads(es) + [e.node]
  {
    assert (es + [e])[..|es|] == es;
  }
}

/**
 Q8_0 quantization of activations, block by block of 32: the scale is that of the block's
 largest finite magnitude, a quant is the nearest step, and what is not finite is zero.
 Floats are reals or not finite; FP16 rounding of a scale is the parameter `fp16`.
 */
module Quantize {
  const ACT_BLOCK: nat := 32

  function Min(a: int, b: int): int { if a < b then a else b }
  function Abs(x: real): real { if x < 0.0 then -x else x }

  /** A float input: finite, or one of the values isfinite rejects. */
  datatype Float = Finite(x: real) | NonFinite

  function Blocks(n: nat): nat
  {
    (n + ACT_BLOCK - 1) / ACT_BLOCK
  }

  lemma BlockBounds(n: nat, b: nat)
    requires b < Blocks(n)
    ensures ACT_BLOCK * b < n
  {
  }

  /** The largest finite magnitude in a[lo..hi]. */
  function AbsMax(a: seq<Float>, lo: nat, hi: nat): (m: real)
    requires lo <= hi <= |a|
    ensures m >= 0.0
  {
    if lo == hi then 0.0
    else
      var m := AbsMax(a, lo, hi - 1);
      if a[hi - 1].Finite? && Abs(a[hi - 1].x) > m then Abs(a[hi - 1].x) else m
  }

  lemma {:induction false} AbsMaxBounds(a: seq<Float>, lo: nat, hi: nat, i: nat)
    requires lo <= i < hi <= |a| && a[i].Finite?
    ensures Abs(a[i].x) <= AbsMax(a, lo, hi)
  {
    if i < hi - 1 {
      AbsMaxBounds(a, lo, hi - 1, i);
    }
  }

  /** Nearest integer, halves away from zero. */
  function Lround(x: real): int
  {
    if x >= 0.0 then (x + 0.5).Floor else -((0.5 - x).Floor)
  }

  function Clamp8(q: int): (r: int)
    ensures -128 <= r < 128
  {
    if q < -128 then -128 else if q > 127 then 127 else q
  }

  function BlockMax(a: seq<Float>, b: nat): (m: real)
    requires b < Blocks(|a|)
    ensures m >= 0.0
  {
    BlockBounds(|a|, b);
    AbsMax(a, ACT_BLOCK * b, Min(ACT_BLOCK * b + ACT_BLOCK, |a|))
  }

  function Quant(a: seq<Float>, i: nat): (q: int)
    requires i < |a|
    ensures -128 <= q < 128
  {
    QuantOf(a[i], BlockMax(a, i / ACT_BLOCK))
  }

  /** The quantization step of a block with largest magnitude m. */
  function Delta(m: real): real
  {
    m / 127.0
  }

  /** A value in units of its block's step, as the code forms it. */
  function InSteps(x: real, m: real): real
    requires m != 0.0
  {
    x * (1.0 / Delta(m))
  }

  /** One value against its block's largest magnitude. */
  function QuantOf(v: Float, m: real): (q: int)
    ensures -128 <= q < 128
  {
    if m == 0.0 || v.NonFinite? then 0 else Clamp8(Lround(InSteps(v.x, m)))
  }

  function ScaleOf(m: real, fp16: real -> real): real
  {
    if m == 0.0 then 0.0 else fp16(Delta(m))
  }

  function Scale(a: seq<Float>, b: nat, fp16: real -> real): real
    requires b < Blocks(|a|)
  {
    ScaleOf(BlockMax(a, b), fp16)
  }

  /** How far q steps of size d are from x. */
  function Loss(x: real, d: real, q: int): real
  {
    Abs(x - d * q as real)
  }

  /** Rounding a quotient loses at most half a step, and the clamp never bites. */
  lemma QuantError(a: seq<Float>, i: nat)
    requires i < |a| && a[i].Finite? && BlockMax(a, i / ACT_BLOCK) > 0.0
    ensures var d := Delta(BlockMax(a, i / ACT_BLOCK));
            Loss(a[i].x, d, Quant(a, i)) <= d / 2.0 && -127 <= Quant(a, i) <= 127
  {
    hide QuantOf, Abs, Delta, Loss;
    var b := i / ACT_BLOCK;
    AbsMaxBounds(a, ACT_BLOCK * b, Min(ACT_BLOCK * b + ACT_BLOCK, |a|), i);
    QuantOfError(a[i].x, BlockMax(a, b));
    assert a[i] == Finite(a[i].x) && Quant(a, i) == QuantOf(Finite(a[i].x), BlockMax(a, b));
  }

  lemma QuantOfError(x: real, m: real)
    requires m > 0.0 && Abs(x) <= m
    ensures var d, q := Delta(m), QuantOf(Finite(x), m);
            Loss(x, d, q) <= d / 2.0 && -127 <= q <= 127
  {
    hide Lround, Abs, InSteps, Delta, Loss;
    var d, y := Delta(m), InSteps(x, m);
    ScaledRange(x, m);
    RoundingError(y);
    StepError(x, d, y, Lround(y));
    assert QuantOf(Finite(x), m) == Clamp8(Lround(y)) == Lround(y);
  }

  lemma ScaledRange(x: real, m: real)
    requires m > 0.0 && Abs(x) <= m
    ensures Delta(m) > 0.0 && -127.0 <= InSteps(x, m) <= 127.0 && InSteps(x, m) * Delta(m) == x
  {
    var d := Delta(m);
    var inv := 1.0 / d;
    assert inv * d == 1.0;
    assert x * inv * d == x * (inv * d);
    assert m * inv == 127.0 * (d * inv);
    NonNegativeProduct(m - x, inv);
    NonNegativeProduct(m + x, inv);
    assert (m - x) * inv == m * inv - x * inv;
    assert (m + x) * inv == m * inv + x * inv;
  }

  lemma RoundingError(y: real)
    ensures Abs(y - Lround(y) as real) <= 0.5
    ensures -127.0 <= y <= 127.0 ==> -127 <= Lround(y) <= 127
  {
  }

  lemma NonNegativeProduct(a: real, b: real)
    requires a >= 0.0 && b >= 0.0
    ensures a * b >= 0.0
  {
  }

  lemma StepError(x: real, d: real, y: real, q: int)
    requires d > 0.0 && y * d == x && Abs(y - q as real) <= 0.5
    ensures Loss(x, d, q) <= d / 2.0
  {
    var e := y - q as real;
    assert e * d == y * d - q as real * d;
    NonNegativeProduct(0.5 - e, d);
    NonNegativeProduct(0.5 + e, d);
    assert (0.5 - e) * d == 0.5 * d - e * d && (0.5 + e) * d == 0.5 * d + e * d;
  }

  /** No finite value of block b exceeds m. */
  predicate AtMost(a: seq<Float>, b: nat, m: real)
  {
    forall j :: 0 <= j < |a| && j / ACT_BLOCK == b && a[j].Finite? ==> -m <= a[j].x <= m
  }

  ghost predicate Identity(fp16: real -> real)
  {
    forall x :: fp16(x) == x
  }

  lemma {:induction false} AbsMaxAtMost(a: seq<Float>, lo: nat, hi: nat, m: real)
    requires lo <= hi <= |a| && m >= 0.0
    requires forall j :: lo <= j < hi && a[j].Finite? ==> -m <= a[j].x <= m
    ensures AbsMax(a, lo, hi) <= m
  {
    if lo < hi {
      AbsMaxAtMost(a, lo, hi - 1, m);
    }
  }

  /** q times the scale d is x to within half a step of a block whose values are at most m. */
  predicate Near(x: real, d: real, q: int, m: real)
  {
    -m / 254.0 <= x - d * q as real <= m / 254.0
  }

  /** What a stored scale times a quant loses, for any bound on the block's values. */
  lemma StoredError(a: seq<Float>, i: nat, fp16: real -> real, m: real)
    requires i < |a| && a[i].Finite? && Identity(fp16) && AtMost(a, i / ACT_BLOCK, m)
    ensures Near(a[i].x, Scale(a, i / ACT_BLOCK, fp16), Quant(a, i), m)
  {
    var b := i / ACT_BLOCK;
    hide *;
    BlockAtMost(a, i, m);
    if BlockMax(a, b) > 0.0 {
      QuantError(a, i);
      StoredScale(a, b, fp16);
      FromLoss(a[i].x, Scale(a, b, fp16), Quant(a, i), m);
    } else {
      NoScale(a, b, fp16, Quant(a, i), m);
    }
  }

  lemma BlockAtMost(a: seq<Float>, i: nat, m: real)
    requires i < |a| && a[i].Finite? && AtMost(a, i / ACT_BLOCK, m)
    ensures i / ACT_BLOCK < Blocks(|a|)
    ensures var mx := BlockMax(a, i / ACT_BLOCK); -mx <= a[i].x <= mx <= m
  {
    var b := i / ACT_BLOCK;
    var lo, hi := ACT_BLOCK * b, Min(ACT_BLOCK * b + ACT_BLOCK, |a|);
    AbsMaxBounds(a, lo, hi, i);
    forall j | lo <= j < hi && a[j].Finite? ensures -m <= a[j].x <= m {
      assert j / ACT_BLOCK == b;
    }
    AbsMaxAtMost(a, lo, hi, m);
    hide AbsMax;
  }

  lemma StoredScale(a: seq<Float>, b: nat, fp16: real -> real)
    requires b < Blocks(|a|) && Identity(fp16) && BlockMax(a, b) > 0.0
    ensures Scale(a, b, fp16) == Delta(BlockMax(a, b)) == BlockMax(a, b) / 127.0
  {
    hide AbsMax;
  }

  lemma NoScale(a: seq<Float>, b: nat, fp16: real -> real, q: int, m: real)
    requires b < Blocks(|a|) && BlockMax(a, b) == 0.0 && m >= 0.0
    ensures Near(0.0, Scale(a, b, fp16), q, m)
  {
    hide AbsMax;
  }

  lemma FromLoss(x: real, d: real, q: int, m: real)
    requires Loss(x, d, q) <= d / 2.0 && d <= m / 127.0
    ensures Near(x, d, q, m)
  {
  }

  lemma AllStoredErrors(a: seq<Float>, fp16: real -> real)
    ensures forall i :: 0 <= i < |a| && a[i].NonFinite? ==> Quant(a, i) == 0
    ensures Identity(fp16) ==> forall i, m :: 0 <= i < |a| && a[i].Finite? && AtMost(a, i / ACT_BLOCK, m) ==>
      Near(a[i].x, Scale(a, i / ACT_BLOCK, fp16), Quant(a, i), m)
  {
    hide AtMost, Identity, Scale, Near;
    if Identity(fp16) {
      forall i, m | 0 <= i < |a| && a[i].Finite? && AtMost(a, i / ACT_BLOCK, m)
        ensures Near(a[i].x, Scale(a, i / ACT_BLOCK, fp16), Quant(a, i), m)
      {
        StoredError(a, i, fp16, m);
      }
    }
  }

  /** Negating the activations negates the quants: halves are rounded away from zero. */
  lemma Symmetric(x: real, m: real)
    requires m > 0.0 && -m <= x <= m
    ensures QuantOf(Finite(-x), m) == -QuantOf(Finite(x), m)
  {
    hide Lround, InSteps, Clamp8;
    ScaledRange(x, m);
    ScaledRange(-x, m);
    NegatedSteps(x, m);
    RoundingError(InSteps(x, m));
    RoundingError(-InSteps(x, m));
    NegatedRounding(InSteps(x, m));
    InByte(Lround(InSteps(x, m)));
  }

  /** A value halfway between two steps takes the larger one. */
  lemma HalfwayUp(x: real, m: real, n: nat)
    requires m > 0.0 && n < 127 && InSteps(x, m) == n as real + 0.5
    ensures QuantOf(Finite(x), m) == n + 1
  {
    hide InSteps, Delta;
  }

  lemma NegatedSteps(x: real, m: real)
    requires m > 0.0
    ensures InSteps(-x, m) == -InSteps(x, m)
  {
    var inv := 1.0 / Delta(m);
    assert -x * inv == -(x * inv);
  }

  lemma NegatedRounding(y: real)
    ensures Lround(-y) == -Lround(y)
  {
  }

  lemma InByte(q: int)
    requires -127 <= q <= 127
    ensures Clamp8(q) == q && Clamp8(-q) == -q
  {
  }

  method QuantizeActs(a: seq<Float>, fp16: real -> real) returns (q: seq<int>, scales: seq<real>)
    ensures |q| == |a| && |scales| == Blocks(|a|)
    ensures forall i :: 0 <= i < |q| ==> q[i] == Quant(a, i)
    ensures forall b :: 0 <= b < |scales| ==> scales[b] == Scale(a, b, fp16)
    ensures forall i :: 0 <= i < |a| && a[i].NonFinite? ==> q[i] == 0
    ensures Identity(fp16) ==> forall i, m :: 0 <= i < |a| && a[i].Finite? && AtMost(a, i / ACT_BLOCK, m) ==>
      Near(a[i].x, scales[i / ACT_BLOCK], q[i], m)
  {
    AllStoredErrors(a, fp16);
    hide AbsMax, QuantOf, ScaleOf, AtMost, Identity, Near;
    q, scales := [], [];
    for b := 0 to Blocks(|a|)
      invariant |scales| == b && |q| == Min(ACT_BLOCK * b, |a|)
      invariant forall i :: 0 <= i < |q| ==> q[i] == Quant(a, i)
      invariant forall j :: 0 <= j < b ==> scales[j] == Scale(a, j, fp16)
    {
      BlockBounds(|a|, b);
      var start, end := ACT_BLOCK * b, Min(ACT_BLOCK * b + ACT_BLOCK, |a|);
      var amax := Amax(a, start, end);
      scales := scales + [ScaleOf(amax, fp16)];
      var block := QuantizeBlock(a, start, end, amax);
      forall i | start <= i < end
        ensures block[i - start] == Quant(a, i)
      {
        assert i / ACT_BLOCK == b;
      }
      q := q + block;
    }
  }

  method Amax(a: seq<Float>, start: nat, end: nat) returns (amax: real)
    requires start <= end <= |a|
    ensures amax == AbsMax(a, start, end)
  {
    amax := 0.0;
    for i := start to end
      invariant amax == AbsMax(a, start, i)
    {
      if a[i].Finite? && Abs(a[i].x) > amax {
        amax := Abs(a[i].x);
      }
    }
  }

  method QuantizeBlock(a: seq<Float>, start: nat, end: nat, amax: real) returns (q: seq<int>)
    requires start <= end <= |a|
    ensures |q| == end - start
    ensures forall i :: start <= i < end ==> q[i - start] == QuantOf(a[i], amax)
  {
    q := [];
    for i := start to end
      invariant |q| == i - start
      invariant forall j :: start <= j < i ==> q[j - start] == QuantOf(a[j], amax)
    {
      q := q + [QuantOf(a[i], amax)];
    }
  }

  predicate Int8s(q: seq<int>)
  {
    forall i :: 0 <= i < |q| ==> -128 <= q[i] < 128
  }

  function Quants(a: seq<Float>): (q: seq<int>)
    ensures |q| == |a| && Int8s(q)
  {
    seq(|a|, i requires 0 <= i < |a| => Quant(a, i))
  }

  function Scales(a: seq<Float>, fp16: real -> real): (s: seq<real>)
    ensures |s| == Blocks(|a|)
  {
    seq(Blocks(|a|), b requires 0 <= b < Blocks(|a|) => Scale(a, b, fp16))
  }
}

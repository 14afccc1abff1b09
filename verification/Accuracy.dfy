/**
 What a matmul over quantized activations means: the dot product with the dequantized
 activations, and, if scales are stored exactly, the dot product with the activations
 themselves to within m/254 for each unit of weight, when none exceeds m.
 */
module Accuracy {
  import opened DotProduct
  import opened Quantize

  /** All activations are finite and at most m. */
  predicate FiniteAtMost(x: seq<Float>, m: real)
  {
    forall i :: 0 <= i < |x| ==> x[i].Finite? && -m <= x[i].x <= m
  }

  function Values(x: seq<Float>): (v: seq<real>)
    requires forall i :: 0 <= i < |x| ==> x[i].Finite?
    ensures |v| == |x|
  {
    seq(|x|, i requires 0 <= i < |x| => x[i].x)
  }

  ghost predicate MeansDot(w: seq<real>, x: seq<Float>, fp16: real -> real, v: real)
    requires |w| == |x|
  {
    && v == DequantizedDot(w, Quants(x), Scales(x, fp16), |w|)
    && (Identity(fp16) ==> forall m :: FiniteAtMost(x, m) ==>
         Magnitude(v - ExactDot(w, Values(x), |w|)) <= Product(TotalMagnitude(w, |w|), m / 254.0))
  }

  lemma DotMeans(w: seq<real>, x: seq<Float>, fp16: real -> real)
    requires |w| == |x|
    ensures MeansDot(w, x, fp16, DequantizedDot(w, Quants(x), Scales(x, fp16), |w|))
  {
    hide DequantizedDot, ExactDot, TotalMagnitude, Magnitude, Identity, Scales, Quants, Product;
    if Identity(fp16) {
      forall m | FiniteAtMost(x, m)
        ensures Magnitude(DequantizedDot(w, Quants(x), Scales(x, fp16), |w|) - ExactDot(w, Values(x), |w|)) <=
                Product(TotalMagnitude(w, |w|), m / 254.0)
      {
        NearExact(w, x, fp16, m);
      }
    }
  }

  lemma NearExact(w: seq<real>, x: seq<Float>, fp16: real -> real, m: real)
    requires |w| == |x| && Identity(fp16) && FiniteAtMost(x, m)
    ensures Magnitude(DequantizedDot(w, Quants(x), Scales(x, fp16), |w|) - ExactDot(w, Values(x), |w|)) <=
            Product(TotalMagnitude(w, |w|), m / 254.0)
  {
    AllNear(x, fp16, m);
    hide Quants, Scales, Identity, Magnitude, Product, DequantizedDot, ExactDot, TotalMagnitude, FiniteAtMost;
    DotNear(w, Quants(x), Scales(x, fp16), Values(x), m / 254.0, |w|);
  }

  lemma AllNear(x: seq<Float>, fp16: real -> real, m: real)
    requires Identity(fp16) && FiniteAtMost(x, m)
    ensures forall i :: 0 <= i < |x| ==>
      Magnitude(Product(Scales(x, fp16)[i / 32], Quants(x)[i] as real) - Values(x)[i]) <= m / 254.0
  {
    forall i | 0 <= i < |x|
      ensures Magnitude(Product(Scales(x, fp16)[i / 32], Quants(x)[i] as real) - Values(x)[i]) <= m / 254.0
    {
      OneNear(x, fp16, m, i);
    }
  }

  lemma OneNear(x: seq<Float>, fp16: real -> real, m: real, i: nat)
    requires Identity(fp16) && FiniteAtMost(x, m) && i < |x|
    ensures Magnitude(Product(Scales(x, fp16)[i / 32], Quants(x)[i] as real) - Values(x)[i]) <= m / 254.0
  {
    assert x[i].Finite? && AtMost(x, i / ACT_BLOCK, m);
    hide AtMost, FiniteAtMost, Scale, Quant, Near, Magnitude, Product;
    StoredError(x, i, fp16, m);
    hide Identity;
    NearMagnitude(x[i].x, Scale(x, i / ACT_BLOCK, fp16), Quant(x, i), m);
  }

  lemma NearMagnitude(x: real, d: real, q: int, m: real)
    requires Near(x, d, q, m)
    ensures Magnitude(Product(d, q as real) - x) <= m / 254.0
  {
  }
}

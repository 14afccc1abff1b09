/**
 What a matmul cell means for the rows the lowering is built for: rows of sign bits, each
 weight plus or minus its group's scale. The sums here are written out on their own, and
 share no definition with the plan builder or the quantizer.
 */
module DotProduct {
  /** Within every group of 128 the weights have one magnitude. */
  predicate SignRow(w: seq<real>)
  {
    forall i, j :: 0 <= i < |w| && 0 <= j < |w| && i / 128 == j / 128 ==> w[i] == w[j] || w[i] == -w[j]
  }

  function Product(a: real, b: real): real { a * b }

  /** The first n terms of weight times dequantized activation, 32 activations to a scale. */
  function DequantizedDot(w: seq<real>, q: seq<int>, scales: seq<real>, n: nat): real
    requires n <= |w| == |q| && |w| <= 32 * |scales|
  {
    if n == 0 then 0.0
    else DequantizedDot(w, q, scales, n - 1) + Product(w[n - 1], Product(scales[(n - 1) / 32], q[n - 1] as real))
  }

  /** The first n terms of weight times activation. */
  function ExactDot(w: seq<real>, x: seq<real>, n: nat): real
    requires n <= |w| == |x|
  {
    if n == 0 then 0.0 else ExactDot(w, x, n - 1) + Product(w[n - 1], x[n - 1])
  }

  function Magnitude(x: real): (m: real)
    ensures m >= 0.0
  {
    if x >= 0.0 then x else -x
  }

  /** The first n weights' magnitudes added up. */
  function TotalMagnitude(w: seq<real>, n: nat): (t: real)
    requires n <= |w|
    ensures t >= 0.0
  {
    if n == 0 then 0.0 else TotalMagnitude(w, n - 1) + Magnitude(w[n - 1])
  }

  lemma MagnitudeOfProduct(a: real, b: real)
    ensures Magnitude(a * b) == Magnitude(a) * Magnitude(b)
  {
    ProductSign(a, b);
    ProductSign(a, -b);
    ProductSign(-a, b);
    Negated(a, b);
  }

  lemma Negated(a: real, b: real)
    ensures a * -b == -(a * b) && -a * b == -(a * b) && -a * -b == a * b
  {
  }

  lemma ProductSign(a: real, b: real)
    ensures a >= 0.0 && b >= 0.0 ==> a * b >= 0.0
    ensures a <= 0.0 && b <= 0.0 ==> a * b >= 0.0
  {
  }

  lemma Distribute(a: real, b: real, c: real)
    ensures (a + b) * c == a * c + b * c && c * (a + b) == c * a + c * b && c * (a - b) == c * a - c * b
  {
  }

  /** If every activation is known to within e, the dot product is known to within the total magnitude times e. */
  lemma {:induction false} DotNear(w: seq<real>, q: seq<int>, scales: seq<real>, x: seq<real>, e: real, n: nat)
    requires n <= |w| == |q| == |x| && |w| <= 32 * |scales|
    requires forall i :: 0 <= i < |x| ==> Magnitude(Product(scales[i / 32], q[i] as real) - x[i]) <= e
    ensures Magnitude(DequantizedDot(w, q, scales, n) - ExactDot(w, x, n)) <= Product(TotalMagnitude(w, n), e)
  {
    hide Magnitude, Product;
    if n == 0 {
      NoMagnitude(e);
    } else {
      var i := n - 1;
      DotNear(w, q, scales, x, e, i);
      var y := Product(scales[i / 32], q[i] as real);
      TermNear(w[i], y, x[i], e);
      Gather(DequantizedDot(w, q, scales, i), ExactDot(w, x, i), Product(w[i], y), Product(w[i], x[i]),
             TotalMagnitude(w, i), Magnitude(w[i]), e);
    }
  }

  lemma Gather(a: real, b: real, c: real, d: real, t: real, m: real, e: real)
    requires Magnitude(a - b) <= Product(t, e) && Magnitude(c - d) <= Product(m, e)
    ensures Magnitude((a + c) - (b + d)) <= Product(t + m, e)
  {
    Distribute(t, m, e);
  }

  lemma NoMagnitude(e: real)
    ensures Magnitude(0.0) == 0.0 && Product(0.0, e) == 0.0
  {
  }

  lemma TermNear(w: real, y: real, x: real, e: real)
    requires Magnitude(y - x) <= e
    ensures Magnitude(Product(w, y) - Product(w, x)) <= Product(Magnitude(w), e)
  {
    var d := y - x;
    var m := Magnitude(d);
    Distribute(y, x, w);
    assert w * y - w * x == w * d;
    MagnitudeOfProduct(w, d);
    Monotone(Magnitude(w), m, e);
  }

  lemma Monotone(a: real, b: real, c: real)
    requires a >= 0.0 && b <= c
    ensures a * b <= a * c
  {
    ProductSign(a, c - b);
    Distribute(c, b, a);
  }
}

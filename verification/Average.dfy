/**
 What attention is to compute, written out as the textbook has it: a key weighs the
 exponential of its scaled inner product with the query plus its bias, nothing if it is
 masked out, and the output is the weighted average of the values. No maximum is taken out,
 and no definition is shared with the kernel.
 */
module Average {
  import opened Common

  function Inner(q: seq<real>, k: seq<real>): real
    requires |q| == |k|
  {
    if q == [] then 0.0 else q[0] * k[0] + Inner(q[1..], k[1..])
  }

  /** The weight of one key; a bias of None masks it out. */
  function Weight(e: real -> real, q: seq<real>, k: seq<real>, scale: real, bias: Option<real>): real
    requires |q| == |k|
  {
    match bias
    case None => 0.0
    case Some(b) => e(scale * Inner(q, k) + b)
  }

  /** The keys' weights added up, each times its value. */
  function Moment(e: real -> real, q: seq<real>, ks: seq<seq<real>>, scale: real, bias: seq<Option<real>>,
                  x: seq<real>): real
    requires |ks| == |bias| == |x| && forall k <- ks :: |k| == |q|
  {
    if ks == [] then 0.0
    else
      var n := |ks| - 1;
      Moment(e, q, ks[..n], scale, bias[..n], x[..n]) + Weight(e, q, ks[n], scale, bias[n]) * x[n]
  }

  function Mass(e: real -> real, q: seq<real>, ks: seq<seq<real>>, scale: real, bias: seq<Option<real>>): real
    requires |ks| == |bias| && forall k <- ks :: |k| == |q|
  {
    Moment(e, q, ks, scale, bias, seq(|ks|, _ => 1.0))
  }

  /** The weighted average of the values, and zero if every key is masked out. */
  function Mean(e: real -> real, q: seq<real>, ks: seq<seq<real>>, scale: real, bias: seq<Option<real>>,
                x: seq<real>): real
    requires |ks| == |bias| == |x| && forall k <- ks :: |k| == |q|
  {
    if forall b <- bias :: b.None? then 0.0
    else
      var mass := Mass(e, q, ks, scale, bias);
      if mass == 0.0 then 0.0 else Moment(e, q, ks, scale, bias, x) / mass
  }

  function Scaled(q: seq<real>, c: real): (r: seq<real>)
    ensures |r| == |q|
  {
    seq(|q|, i requires 0 <= i < |q| => q[i] * c)
  }

  /** The i-th coordinate vector. */
  function Unit(n: nat, i: nat): (u: seq<real>)
    requires i < n
    ensures |u| == n
  {
    seq(n, j => if j == i then 1.0 else 0.0)
  }

  function Plus(a: seq<real>, b: seq<real>): (s: seq<real>)
    requires |a| == |b|
    ensures |s| == |a|
  {
    seq(|a|, i requires 0 <= i < |a| => a[i] + b[i])
  }
}

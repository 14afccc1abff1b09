/** Names several models share. */
module Common {
  type byte = x: int | 0 <= x < 256

  datatype Option<T> = None | Some(value: T)

  /** The n low bytes of v, lowest first. */
  function LeBytes(v: nat, n: nat): (b: seq<byte>)
    ensures |b| == n
    decreases n
  {
    if n == 0 then [] else [v % 256] + LeBytes(v / 256, n - 1)
  }

  /** An integer sum under a weight scale and an activation scale. */
  function Share(dw: real, da: real, sum: int): real
  {
    dw * da * sum as real
  }

  lemma SmallMod(x: nat, m: nat)
    requires x < m
    ensures x % m == x
  {
  }

  lemma MulMonotone(a: nat, b: nat, r: nat)
    requires a <= b
    ensures a * r <= b * r
  {
  }

  /** A quotient from its bounds. */
  lemma QuotientIs(n: nat, m: nat, g: nat)
    requires m > 0 && g * m <= n < g * m + m
    ensures n / m == g
  {
    var x := n / m;
    assert x * m <= n < x * m + m;
    if x < g {
      MulMonotone(x + 1, g, m);
    } else if x > g {
      MulMonotone(g + 1, x, m);
    }
  }
}

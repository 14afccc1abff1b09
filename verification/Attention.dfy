/**
 Flash attention: one pass over the keys with a running maximum, rescaling what has
 been accumulated whenever the maximum grows and skipping keys masked with -inf.

 FlashAttention is proved to return, for every token, head and value column, exactly
 the two-pass softmax average of the unmasked value rows (Softmax), or zero when all
 keys are masked. SoftmaxShift shows that this average does not depend on the shift
 at all. Arithmetic is over the reals; the exponential is any positive function with
 the exponential law.
 */
module Attention {
  import Average
  import opened Common

  const MAX_HEAD_DIM: nat := 256

  /** A mask entry: -inf, which skips the key, or a finite bias. */
  datatype Mask = NegInf | Bias(x: real)

  predicate Adds(e: real -> real, x: real, y: real)
  {
    e(x + y) == Times(e(x), e(y))
  }

  ghost predicate ExpLaw(e: real -> real)
  {
    (forall x, y :: Adds(e, x, y)) && (forall x :: e(x) > 0.0)
  }

  lemma Idempotent(z: real)
    requires Times(z, z) == z && z > 0.0
    ensures z == 1.0
  {
    assert z * (z - 1.0) == 0.0;
  }

  lemma ExpZero(e: real -> real)
    requires ExpLaw(e)
    ensures e(0.0) == 1.0
  {
    hide Times;
    assert Adds(e, 0.0, 0.0);
    assert 0.0 + 0.0 == 0.0 && e(0.0 + 0.0) == e(0.0);
    Idempotent(e(0.0));
  }

  /** Moving the shift from m to m' multiplies by a common factor. */
  lemma ExpShift(e: real -> real, s: real, m: real, m': real)
    requires ExpLaw(e)
    ensures e(s - m') == Times(e(m - m'), e(s - m))
  {
    assert Adds(e, m - m', s - m);
    assert (m - m') + (s - m) == s - m';
  }

  // ----- the two-pass definition -----

  /** The score of key j, if it is not masked out. */
  type Scores = seq<Option<real>>

  /** The largest unmasked score among the first n. */
  function MaxScore(sc: Scores, n: nat): Option<real>
    requires n <= |sc|
  {
    if n == 0 then None
    else
      var m := MaxScore(sc, n - 1);
      if sc[n - 1].None? then m
      else if m.None? || sc[n - 1].value > m.value then sc[n - 1] else m
  }

  lemma {:induction false} MaxScoreIsMax(sc: Scores, n: nat)
    requires n <= |sc|
    ensures MaxScore(sc, n).None? <==> forall j :: 0 <= j < n ==> sc[j].None?
    ensures MaxScore(sc, n).Some? ==>
              (exists j :: 0 <= j < n && sc[j] == MaxScore(sc, n))
              && forall j :: 0 <= j < n && sc[j].Some? ==> sc[j].value <= MaxScore(sc, n).value
  {
    if n > 0 {
      MaxScoreIsMax(sc, n - 1);
      var m := MaxScore(sc, n - 1);
      assert sc[n - 1].Some? ==> MaxScore(sc, n) == sc[n - 1] || MaxScore(sc, n) == m;
    }
  }

  function Times(a: real, b: real): real { a * b }

  /** Sum of e(s - m) * x over the unmasked keys; x is 1 for the denominator. */
  function Weighted(e: real -> real, sc: Scores, x: seq<real>, m: real, n: nat): real
    requires n <= |sc| && |x| == |sc|
  {
    if n == 0 then 0.0
    else
      Weighted(e, sc, x, m, n - 1)
      + if sc[n - 1].None? then 0.0 else Times(e(sc[n - 1].value - m), x[n - 1])
  }

  function Ones(n: nat): (s: seq<real>)
    ensures |s| == n
  {
    seq(n, _ => 1.0)
  }

  /** Two passes: find the maximum, then average with the shifted weights. */
  function Softmax(e: real -> real, sc: Scores, x: seq<real>): real
    requires |x| == |sc|
  {
    match MaxScore(sc, |sc|)
    case None => 0.0
    case Some(m) => Quotient(Weighted(e, sc, x, m, |sc|), Weighted(e, sc, Ones(|sc|), m, |sc|))
  }

  /** The kernel's guarded division. */
  function Quotient(num: real, den: real): real
  {
    num * (if den == 0.0 then 0.0 else 1.0 / den)
  }

  lemma Distribute(c: real, a: real, b: real)
    ensures Times(c, a + b) == Times(c, a) + Times(c, b)
  {
  }

  lemma Reassociate(c: real, a: real, b: real)
    ensures Times(Times(c, a), b) == Times(c, Times(a, b))
  {
  }

  lemma {:induction false} WeightedShift(e: real -> real, sc: Scores, x: seq<real>, m: real, m': real, n: nat)
    requires ExpLaw(e) && n <= |sc| && |x| == |sc|
    ensures Weighted(e, sc, x, m', n) == Times(e(m - m'), Weighted(e, sc, x, m, n))
  {
    if n == 0 {
      assert Times(e(m - m'), 0.0) == 0.0;
    } else {
      WeightedShift(e, sc, x, m, m', n - 1);
      if sc[n - 1].Some? {
        var s := sc[n - 1].value;
        ExpShift(e, s, m, m');
        ShiftedTerm(e(m - m'), e(s - m), e(s - m'), x[n - 1], Weighted(e, sc, x, m, n - 1));
      }
    }
  }

  lemma ShiftedTerm(f: real, a: real, b: real, x: real, w: real)
    requires b == Times(f, a)
    ensures Times(f, w) + Times(b, x) == Times(f, w + Times(a, x))
  {
    Distribute(f, w, Times(a, x));
    Reassociate(f, a, x);
  }

  lemma {:induction false} DenominatorPositive(e: real -> real, sc: Scores, m: real, n: nat)
    requires ExpLaw(e) && n <= |sc|
    ensures Weighted(e, sc, Ones(|sc|), m, n) >= 0.0
    ensures MaxScore(sc, n).Some? ==> Weighted(e, sc, Ones(|sc|), m, n) > 0.0
  {
    if n > 0 {
      DenominatorPositive(e, sc, m, n - 1);
    }
  }

  lemma QuotientScales(f: real, num: real, den: real)
    requires f > 0.0 && den > 0.0
    ensures Quotient(Times(f, num), Times(f, den)) == Quotient(num, den)
  {
    var i, j := 1.0 / den, 1.0 / (f * den);
    assert f * den > 0.0;
    assert i * den == 1.0 && j * (f * den) == 1.0;
    assert (f * j) * den == j * (f * den);
    assert f * j == (f * j) * den * i;
    assert f * j == i;
    assert (f * num) * j == num * (f * j);
  }

  /** The softmax average is the same whatever shift is used. */
  lemma SoftmaxShift(e: real -> real, sc: Scores, x: seq<real>, m': real)
    requires ExpLaw(e) && |x| == |sc|
    ensures MaxScore(sc, |sc|).Some? ==>
              Softmax(e, sc, x) == Quotient(Weighted(e, sc, x, m', |sc|), Weighted(e, sc, Ones(|sc|), m', |sc|))
  {
    match MaxScore(sc, |sc|)
    case None =>
    case Some(m) =>
      WeightedShift(e, sc, x, m, m', |sc|);
      WeightedShift(e, sc, Ones(|sc|), m, m', |sc|);
      DenominatorPositive(e, sc, m, |sc|);
      QuotientScales(e(m - m'), Weighted(e, sc, x, m, |sc|), Weighted(e, sc, Ones(|sc|), m, |sc|));
  }

  // ----- the one-pass kernel -----

  function Dot(q: seq<real>, k: seq<real>, n: nat): real
    requires n <= |q| && n <= |k|
  {
    if n == 0 then 0.0 else Dot(q, k, n - 1) + q[n - 1] * k[n - 1]
  }

  method DotLoop(q: seq<real>, k: seq<real>, n: nat) returns (s: real)
    requires n <= |q| && n <= |k|
    ensures s == Dot(q, k, n)
  {
    s := 0.0;
    for d := 0 to n
      invariant s == Dot(q, k, d)
    {
      s := s + q[d] * k[d];
    }
  }

  function Biased(dot: real, scale: real, mv: real): real
  {
    dot * scale + mv
  }

  /** Key ic's score for one query row: None if masked out. */
  function Score(q: seq<real>, k: seq<seq<real>>, mask: Option<seq<Mask>>, scale: real, hd: nat, ic: nat): Option<real>
    requires hd <= |q| && ic < |k| && hd <= |k[ic]| && (mask.Some? ==> ic < |mask.value|)
  {
    if mask.None? then Some(Biased(Dot(q, k[ic], hd), scale, 0.0))
    else match mask.value[ic]
      case NegInf => None
      case Bias(mv) => Some(Biased(Dot(q, k[ic], hd), scale, mv))
  }

  function RowScores(q: seq<real>, k: seq<seq<real>>, mask: Option<seq<Mask>>, scale: real, hd: nat): (sc: Scores)
    requires hd <= |q| && (forall ic :: 0 <= ic < |k| ==> hd <= |k[ic]|) && (mask.Some? ==> |mask.value| == |k|)
    ensures |sc| == |k|
  {
    seq(|k|, ic requires 0 <= ic < |k| => Score(q, k, mask, scale, hd, ic))
  }

  function Column(v: seq<seq<real>>, d: nat): (x: seq<real>)
    requires forall ic :: 0 <= ic < |v| ==> d < |v[ic]|
    ensures |x| == |v|
  {
    seq(|v|, ic requires 0 <= ic < |v| => v[ic][d])
  }

  /** What the accumulators hold after n keys: the two-pass sums at the current maximum. */
  ghost predicate Holds(e: real -> real, sc: Scores, v: seq<seq<real>>, n: nat,
                        M: Option<real>, S: real, vkq: seq<real>)
    requires n <= |sc| && |v| == |sc| && forall ic :: 0 <= ic < |v| ==> |v[ic]| == |vkq|
  {
    M == MaxScore(sc, n)
    && S == (if M.None? then 0.0 else Weighted(e, sc, Ones(|sc|), M.value, n))
    && forall d :: 0 <= d < |vkq| ==>
         vkq[d] == if M.None? then 0.0 else Weighted(e, sc, Column(v, d), M.value, n)
  }

  lemma {:induction false} AllMasked(e: real -> real, sc: Scores, x: seq<real>, m: real, n: nat)
    requires n <= |sc| && |x| == |sc| && MaxScore(sc, n).None?
    ensures Weighted(e, sc, x, m, n) == 0.0
  {
    if n > 0 {
      AllMasked(e, sc, x, m, n - 1);
    }
  }

  /** One key: the new accumulator is the two-pass sum at the new maximum. */
  lemma UpdateLaw(e: real -> real, sc: Scores, x: seq<real>, n: nat, acc: real, ms: real, vs: real)
    requires ExpLaw(e) && n < |sc| && |x| == |sc| && sc[n].Some?
    requires var M := MaxScore(sc, n); acc == if M.None? then 0.0 else Weighted(e, sc, x, M.value, n)
    requires var M, s := MaxScore(sc, n), sc[n].value;
             if M.None? then ms == 0.0 && vs == 1.0
             else if s > M.value then ms == e(M.value - s) && vs == 1.0
             else ms == 1.0 && vs == e(s - M.value)
    ensures MaxScore(sc, n + 1).Some?
    ensures Times(acc, ms) + Times(vs, x[n]) == Weighted(e, sc, x, MaxScore(sc, n + 1).value, n + 1)
  {
    var M, s := MaxScore(sc, n), sc[n].value;
    ExpZero(e);
    assert s - s == 0.0;
    if M.None? {
      AllMasked(e, sc, x, s, n);
      assert Times(acc, ms) == 0.0;
    } else if s > M.value {
      WeightedShift(e, sc, x, M.value, s, n);
      assert Times(acc, ms) == Times(ms, acc);
    } else {
      assert Times(acc, 1.0) == acc;
    }
  }

  method Rescale(vkq: array<real>, ms: real)
    modifies vkq
    ensures forall d :: 0 <= d < vkq.Length ==> vkq[d] == Times(old(vkq[d]), ms)
  {
    for d := 0 to vkq.Length
      invariant forall i :: 0 <= i < d ==> vkq[i] == Times(old(vkq[i]), ms)
      invariant forall i :: d <= i < vkq.Length ==> vkq[i] == old(vkq[i])
    {
      vkq[d] := Times(vkq[d], ms);
    }
  }

  method Axpy(vkq: array<real>, vs: real, v: seq<real>)
    requires |v| == vkq.Length
    modifies vkq
    ensures forall d :: 0 <= d < vkq.Length ==> vkq[d] == old(vkq[d]) + Times(vs, v[d])
  {
    for d := 0 to vkq.Length
      invariant forall i :: 0 <= i < d ==> vkq[i] == old(vkq[i]) + Times(vs, v[i])
      invariant forall i :: d <= i < vkq.Length ==> vkq[i] == old(vkq[i])
    {
      vkq[d] := vkq[d] + Times(vs, v[d]);
    }
  }

  /** One token and head: the online loop over all keys, then the normalization. */
  method AttendRow(e: real -> real, q: seq<real>, k: seq<seq<real>>, v: seq<seq<real>>, mask: Option<seq<Mask>>,
                   scale: real, hd: nat, hv: nat) returns (row: seq<real>)
    requires ExpLaw(e) && hd <= |q| && |v| == |k| && (mask.Some? ==> |mask.value| == |k|)
    requires forall ic :: 0 <= ic < |k| ==> hd <= |k[ic]| && |v[ic]| == hv
    ensures |row| == hv
    ensures forall d :: 0 <= d < hv ==> row[d] == Softmax(e, RowScores(q, k, mask, scale, hd), Column(v, d))
  {
    hide Weighted, Times, Quotient, Dot, ExpLaw, Biased;
    ghost var sc := RowScores(q, k, mask, scale, hd);
    var M: Option<real> := None;
    var S := 0.0;
    var vkq := new real[hv](_ => 0.0);
    for ic := 0 to |k|
      invariant fresh(vkq) && vkq.Length == hv
      invariant Holds(e, sc, v, ic, M, S, vkq[..])
    {
      if mask.Some? && mask.value[ic].NegInf? {
        MaskedKey(e, sc, v, ic, M, S, vkq[..]);
        continue;
      }
      var dot := DotLoop(q, k[ic], hd);
      var s := Biased(dot, scale, if mask.Some? then mask.value[ic].x else 0.0);
      assert sc[ic] == Some(s);
      var Mold := M;
      var ms, vs := 1.0, 1.0;
      ghost var before := vkq[..];
      if M.None? || s > M.value {
        M := Some(s);
        ms := if Mold.None? then 0.0 else e(Mold.value - s);
        Rescale(vkq, ms);
      } else {
        vs := e(s - M.value);
        TimesOne(vkq[..]);
      }
      assert forall d :: 0 <= d < hv ==> vkq[d] == Times(before[d], ms);
      Axpy(vkq, vs, v[ic]);
      KeyStep(e, sc, v, ic, Mold, S, before, ms, vs, M, vkq[..]);
      S := Times(S, ms) + vs;
    }
    row := Normalize(vkq, S);
    DenominatorWhole(e, sc, v, M, S, vkq[..]);
  }

  lemma TimesOne(v: seq<real>)
    ensures forall d :: 0 <= d < |v| ==> v[d] == Times(v[d], 1.0)
  {
  }

  method Normalize(vkq: array<real>, S: real) returns (row: seq<real>)
    ensures |row| == vkq.Length && forall d :: 0 <= d < |row| ==> row[d] == Quotient(vkq[d], S)
  {
    row := [];
    for d := 0 to vkq.Length
      invariant |row| == d && forall i :: 0 <= i < d ==> row[i] == Quotient(vkq[i], S)
    {
      row := row + [Quotient(vkq[d], S)];
    }
  }

  lemma MaskedKey(e: real -> real, sc: Scores, v: seq<seq<real>>, n: nat, M: Option<real>, S: real, vkq: seq<real>)
    requires n < |sc| && |v| == |sc| && forall ic :: 0 <= ic < |v| ==> |v[ic]| == |vkq|
    requires Holds(e, sc, v, n, M, S, vkq) && sc[n].None?
    ensures Holds(e, sc, v, n + 1, M, S, vkq)
  {
    hide Times;
  }

  lemma KeyStep(e: real -> real, sc: Scores, v: seq<seq<real>>, n: nat, M: Option<real>, S: real, vkq: seq<real>,
                ms: real, vs: real, M': Option<real>, vkq': seq<real>)
    requires ExpLaw(e) && n < |sc| && |v| == |sc| && |vkq'| == |vkq| && forall ic :: 0 <= ic < |v| ==> |v[ic]| == |vkq|
    requires Holds(e, sc, v, n, M, S, vkq) && sc[n].Some?
    requires var s := sc[n].value;
             if M.None? then ms == 0.0 && vs == 1.0
             else if s > M.value then ms == e(M.value - s) && vs == 1.0
             else ms == 1.0 && vs == e(s - M.value)
    requires M' == if M.None? || sc[n].value > M.value then sc[n] else M
    requires forall d :: 0 <= d < |vkq| ==> vkq'[d] == Times(vkq[d], ms) + Times(vs, v[n][d])
    ensures Holds(e, sc, v, n + 1, M', Times(S, ms) + vs, vkq')
  {
    hide Times, Weighted, ExpLaw;
    UpdateLaw(e, sc, Ones(|sc|), n, S, ms, vs);
    TimesRightOne(vs);
    forall d | 0 <= d < |vkq'|
      ensures vkq'[d] == Weighted(e, sc, Column(v, d), M'.value, n + 1)
    {
      UpdateLaw(e, sc, Column(v, d), n, vkq[d], ms, vs);
    }
  }

  lemma TimesRightOne(a: real)
    ensures Times(a, 1.0) == a
  {
  }

  lemma DenominatorWhole(e: real -> real, sc: Scores, v: seq<seq<real>>, M: Option<real>, S: real, vkq: seq<real>)
    requires |v| == |sc| && forall ic :: 0 <= ic < |v| ==> |v[ic]| == |vkq|
    requires Holds(e, sc, v, |sc|, M, S, vkq)
    ensures forall d :: 0 <= d < |vkq| ==> Quotient(vkq[d], S) == Softmax(e, sc, Column(v, d))
  {
    hide Weighted;
  }

  // ----- all tokens and heads -----

  predicate Rows(m: seq<seq<real>>, n: nat, width: nat)
  {
    |m| == n && forall i :: 0 <= i < n ==> |m[i]| == width
  }

  /** q by token and head, k and v by KV head and position, mask by token. */
  datatype Inputs = Inputs(q: seq<seq<seq<real>>>, k: seq<seq<seq<real>>>, v: seq<seq<seq<real>>>,
                           mask: Option<seq<seq<Mask>>>)
  {
    predicate Valid(hd: nat, hv: nat, heads: nat, kvHeads: nat, nKv: nat, tokens: nat)
    {
      |q| == tokens && |k| == kvHeads && |v| == kvHeads
      && (forall t :: 0 <= t < tokens ==> |q[t]| == heads && forall h :: 0 <= h < heads ==> |q[t][h]| == hd)
      && (forall h :: 0 <= h < kvHeads ==> Rows(k[h], nKv, hd) && Rows(v[h], nKv, hv))
      && (mask.Some? ==> |mask.value| == tokens && forall t :: 0 <= t < tokens ==> |mask.value[t]| == nKv)
    }

    function MaskRow(t: nat): Option<seq<Mask>>
      requires mask.Some? ==> t < |mask.value|
    {
      if mask.None? then None else Some(mask.value[t])
    }
  }

  lemma HeadInRange(h: nat, heads: nat, kvHeads: nat)
    requires 0 < kvHeads && heads % kvHeads == 0 && h < heads
    ensures heads / kvHeads > 0 && h / (heads / kvHeads) < kvHeads
  {
    var r := heads / kvHeads;
    assert heads == kvHeads * r;
    assert r > 0;
    var g := h / r;
    assert g * r <= h;
    if g >= kvHeads {
      MulMonotone(kvHeads, g, r);
      assert false;
    }
  }

  /** The promise for one output element, grouped-query head mapping included. */
  function Promised(e: real -> real, i: Inputs, scale: real, hd: nat, hv: nat, heads: nat, kvHeads: nat,
                    nKv: nat, tokens: nat, t: nat, h: nat, d: nat): real
    requires 0 < kvHeads && heads % kvHeads == 0 && i.Valid(hd, hv, heads, kvHeads, nKv, tokens)
    requires t < tokens && h < heads && d < hv
  {
    HeadInRange(h, heads, kvHeads);
    var g := h / (heads / kvHeads);
    Softmax(e, RowScores(i.q[t][h], i.k[g], i.MaskRow(t), scale, hd), Column(i.v[g], d))
  }

  /** One token's output: every head, every column as promised. */
  predicate TokenDone(e: real -> real, i: Inputs, scale: real, hd: nat, hv: nat, heads: nat, kvHeads: nat,
                      nKv: nat, tokens: nat, t: nat, out: seq<seq<real>>, n: nat)
    requires 0 < kvHeads && heads % kvHeads == 0 && i.Valid(hd, hv, heads, kvHeads, nKv, tokens)
    requires t < tokens && n <= heads
  {
    |out| == n
    && forall h :: 0 <= h < n ==>
         |out[h]| == hv
         && forall d :: 0 <= d < hv ==>
              out[h][d] == Promised(e, i, scale, hd, hv, heads, kvHeads, nKv, tokens, t, h, d)
  }

  // ----- what is promised -----

  /** A mask row as the biases of the keys: no mask is no bias. */
  function Biases(mask: Option<seq<Mask>>, n: nat): (b: seq<Option<real>>)
    requires mask.Some? ==> |mask.value| == n
    ensures |b| == n
  {
    seq(n, ic requires 0 <= ic < n =>
      if mask.None? then Some(0.0) else if mask.value[ic].NegInf? then None else Some(mask.value[ic].x))
  }

  lemma {:induction false} DotIsInner(q: seq<real>, k: seq<real>)
    requires |q| == |k|
    ensures Dot(q, k, |q|) == Average.Inner(q, k)
  {
    if q != [] {
      DotIsInner(q[1..], k[1..]);
      DotFront(q, k, |q|);
    }
  }

  lemma {:induction false} DotFront(q: seq<real>, k: seq<real>, n: nat)
    requires 0 < n <= |q| == |k|
    ensures Dot(q, k, n) == q[0] * k[0] + Dot(q[1..], k[1..], n - 1)
  {
    if n > 1 {
      DotFront(q, k, n - 1);
    }
  }

  lemma ScoreWeighs(e: real -> real, q: seq<real>, k: seq<seq<real>>, mask: Option<seq<Mask>>, scale: real, ic: nat)
    requires ic < |k| && |k[ic]| == |q| && (mask.Some? ==> |mask.value| == |k|)
    ensures var s := Score(q, k, mask, scale, |q|, ic);
      Average.Weight(e, q, k[ic], scale, Biases(mask, |k|)[ic]) == if s.None? then 0.0 else e(s.value - 0.0)
    ensures Score(q, k, mask, scale, |q|, ic).None? == Biases(mask, |k|)[ic].None?
  {
    DotIsInner(q, k[ic]);
    hide Dot, Average.Inner;
    var d, b := Dot(q, k[ic], |q|), Biases(mask, |k|)[ic];
    var s := Score(q, k, mask, scale, |q|, ic);
    if b.Some? {
      assert s == Some(Biased(d, scale, b.value));
      var w := scale * Average.Inner(q, k[ic]) + b.value;
      assert s.value - 0.0 == w;
      assert Average.Weight(e, q, k[ic], scale, b) == e(w);
    } else {
      assert s.None?;
    }
  }

  lemma {:induction false} WeightedIsMoment(e: real -> real, q: seq<real>, k: seq<seq<real>>, mask: Option<seq<Mask>>,
                                            scale: real, x: seq<real>, n: nat)
    requires n <= |k| == |x| && (mask.Some? ==> |mask.value| == |k|) && forall r <- k :: |r| == |q|
    ensures forall r <- k[..n] :: |r| == |q|
    ensures Weighted(e, RowScores(q, k, mask, scale, |q|), x, 0.0, n) ==
            Average.Moment(e, q, k[..n], scale, Biases(mask, |k|)[..n], x[..n])
  {
    hide Score, Biases, Average.Weight;
    if n > 0 {
      var i := n - 1;
      WeightedIsMoment(e, q, k, mask, scale, x, i);
      ScoreWeighs(e, q, k, mask, scale, i);
      assert k[..n][..i] == k[..i] && x[..n][..i] == x[..i] && Biases(mask, |k|)[..n][..i] == Biases(mask, |k|)[..i];
      assert 0.0 * x[i] == 0.0;
    }
  }

  lemma {:induction false} NoneUnmasked(sc: Scores, n: nat)
    requires n <= |sc|
    ensures MaxScore(sc, n).None? <==> forall i :: 0 <= i < n ==> sc[i].None?
  {
    if n > 0 {
      NoneUnmasked(sc, n - 1);
    }
  }

  lemma MomentWhole(e: real -> real, q: seq<real>, k: seq<seq<real>>, mask: Option<seq<Mask>>, scale: real,
                    x: seq<real>)
    requires |k| == |x| && (mask.Some? ==> |mask.value| == |k|) && forall r <- k :: |r| == |q|
    ensures Weighted(e, RowScores(q, k, mask, scale, |q|), x, 0.0, |k|) ==
            Average.Moment(e, q, k, scale, Biases(mask, |k|), x)
  {
    hide Weighted, Average.Moment, Score, Biases;
    var n := |k|;
    assert k[..n] == k && Biases(mask, n)[..n] == Biases(mask, n) && x[..n] == x;
    WeightedIsMoment(e, q, k, mask, scale, x, n);
  }

  lemma MassWhole(e: real -> real, q: seq<real>, k: seq<seq<real>>, mask: Option<seq<Mask>>, scale: real)
    requires (mask.Some? ==> |mask.value| == |k|) && forall r <- k :: |r| == |q|
    ensures Weighted(e, RowScores(q, k, mask, scale, |q|), Ones(|k|), 0.0, |k|) ==
            Average.Mass(e, q, k, scale, Biases(mask, |k|))
  {
    hide Weighted, Average.Moment, Score, Biases;
    MomentWhole(e, q, k, mask, scale, Ones(|k|));
    assert Ones(|k|) == seq(|k|, _ => 1.0);
  }

  lemma MaskedAlike(e: real -> real, q: seq<real>, k: seq<seq<real>>, mask: Option<seq<Mask>>, scale: real)
    requires (mask.Some? ==> |mask.value| == |k|) && forall r <- k :: |r| == |q|
    ensures MaxScore(RowScores(q, k, mask, scale, |q|), |k|).None? <==> forall b <- Biases(mask, |k|) :: b.None?
  {
    var sc, bias := RowScores(q, k, mask, scale, |q|), Biases(mask, |k|);
    NoneUnmasked(sc, |k|);
    forall i | 0 <= i < |k| ensures sc[i].None? == bias[i].None? {
      ScoreWeighs(e, q, k, mask, scale, i);
    }
    hide MaxScore, Biases, Score;
    assert (forall b <- bias :: b.None?) ==> forall i :: 0 <= i < |k| ==> bias[i] in bias;
  }

  lemma QuotientDivides(num: real, den: real)
    requires den > 0.0
    ensures Quotient(num, den) == num / den
  {
  }

  /** The softmax of the kernel's scores is the weighted average. */
  lemma SoftmaxIsMean(e: real -> real, q: seq<real>, k: seq<seq<real>>, mask: Option<seq<Mask>>, scale: real,
                      x: seq<real>)
    requires ExpLaw(e) && |k| == |x| && (mask.Some? ==> |mask.value| == |k|) && forall r <- k :: |r| == |q|
    ensures Softmax(e, RowScores(q, k, mask, scale, |q|), x) == Average.Mean(e, q, k, scale, Biases(mask, |k|), x)
  {
    hide Weighted, Average.Moment, Average.Mass, Biases, MaxScore, ExpLaw, Quotient, RowScores;
    var sc := RowScores(q, k, mask, scale, |q|);
    MaskedAlike(e, q, k, mask, scale);
    if MaxScore(sc, |k|).Some? {
      MomentWhole(e, q, k, mask, scale, x);
      MassWhole(e, q, k, mask, scale);
      SoftmaxShift(e, sc, x, 0.0);
      DenominatorPositive(e, sc, 0.0, |k|);
      QuotientDivides(Average.Moment(e, q, k, scale, Biases(mask, |k|), x),
                      Average.Mass(e, q, k, scale, Biases(mask, |k|)));
    }
  }

  /** Grouped queries: heads / kvHeads consecutive heads share a K/V head. */
  lemma SharedHead(h: nat, heads: nat, kvHeads: nat)
    requires 0 < kvHeads && heads % kvHeads == 0 && h < heads
    ensures h / (heads / kvHeads) == h * kvHeads / heads < kvHeads
  {
    HeadInRange(h, heads, kvHeads);
    var r := heads / kvHeads;
    assert heads == kvHeads * r;
    DivideBoth(h, kvHeads, r);
  }

  lemma DivideBoth(h: nat, c: nat, r: nat)
    requires c > 0 && r > 0
    ensures c * r > 0 && h * c / (c * r) == h / r
  {
    var g := h / r;
    assert h == g * r + h % r;
    assert h * c == g * (c * r) + h % r * c;
    MulBelow(h % r, r, c);
    QuotientIs(h * c, c * r, g);
  }

  lemma MulBelow(a: nat, b: nat, c: nat)
    requires a < b && c > 0
    ensures 0 <= a * c < c * b && c * b > 0
  {
    assert (b - a) * c > 0;
  }

  /** Every output element is the weighted average over its head's keys and its token's mask. */
  ghost predicate Means(e: real -> real, i: Inputs, scale: real, hd: nat, hv: nat, heads: nat, kvHeads: nat,
                        nKv: nat, tokens: nat, dst: seq<seq<seq<real>>>)
    requires 0 < kvHeads && heads % kvHeads == 0 && i.Valid(hd, hv, heads, kvHeads, nKv, tokens)
  {
    && |dst| == tokens && (forall t :: 0 <= t < tokens ==> |dst[t]| == heads)
    && forall t, h :: 0 <= t < tokens && 0 <= h < heads ==>
         HeadMeans(e, i, scale, hd, hv, heads, kvHeads, nKv, tokens, t, h, dst[t][h])
  }

  ghost predicate HeadMeans(e: real -> real, i: Inputs, scale: real, hd: nat, hv: nat, heads: nat, kvHeads: nat,
                            nKv: nat, tokens: nat, t: nat, h: nat, row: seq<real>)
    requires 0 < kvHeads && heads % kvHeads == 0 && i.Valid(hd, hv, heads, kvHeads, nKv, tokens)
    requires t < tokens && h < heads
  {
    SharedHead(h, heads, kvHeads);
    var g := h * kvHeads / heads;
    && |row| == hv
    && forall d :: 0 <= d < hv ==>
         row[d] == Average.Mean(e, i.q[t][h], i.k[g], scale,
                                Biases(if i.mask.None? then None else Some(i.mask.value[t]), nKv),
                                seq(nKv, j requires 0 <= j < nKv => i.v[g][j][d]))
  }

  lemma PromisedMeans(e: real -> real, i: Inputs, scale: real, hd: nat, hv: nat, heads: nat, kvHeads: nat,
                      nKv: nat, tokens: nat, t: nat, h: nat, row: seq<real>)
    requires 0 < kvHeads && heads % kvHeads == 0 && i.Valid(hd, hv, heads, kvHeads, nKv, tokens) && ExpLaw(e)
    requires t < tokens && h < heads && |row| == hv
    requires forall d :: 0 <= d < hv ==>
      row[d] == Promised(e, i, scale, hd, hv, heads, kvHeads, nKv, tokens, t, h, d)
    ensures HeadMeans(e, i, scale, hd, hv, heads, kvHeads, nKv, tokens, t, h, row)
  {
    hide Softmax, Average.Mean, Biases, RowScores, ExpLaw;
    SharedHead(h, heads, kvHeads);
    var g := h * kvHeads / heads;
    forall d | 0 <= d < hv
      ensures row[d] == Average.Mean(e, i.q[t][h], i.k[g], scale, Biases(i.MaskRow(t), nKv),
                                     seq(nKv, j requires 0 <= j < nKv => i.v[g][j][d]))
    {
      assert Column(i.v[g], d) == seq(nKv, j requires 0 <= j < nKv => i.v[g][j][d]);
      SoftmaxIsMean(e, i.q[t][h], i.k[g], i.MaskRow(t), scale, Column(i.v[g], d));
    }
  }

  lemma AllMean(e: real -> real, i: Inputs, scale: real, hd: nat, hv: nat, heads: nat, kvHeads: nat,
                nKv: nat, tokens: nat, dst: seq<seq<seq<real>>>)
    requires 0 < kvHeads && heads % kvHeads == 0 && i.Valid(hd, hv, heads, kvHeads, nKv, tokens) && ExpLaw(e)
    requires |dst| == tokens && forall t :: 0 <= t < tokens ==>
      TokenDone(e, i, scale, hd, hv, heads, kvHeads, nKv, tokens, t, dst[t], heads)
    ensures Means(e, i, scale, hd, hv, heads, kvHeads, nKv, tokens, dst)
  {
    hide ExpLaw, Promised, HeadMeans;
    forall t, h | 0 <= t < tokens && 0 <= h < heads
      ensures |dst[t]| == heads && HeadMeans(e, i, scale, hd, hv, heads, kvHeads, nKv, tokens, t, h, dst[t][h])
    {
      PromisedMeans(e, i, scale, hd, hv, heads, kvHeads, nKv, tokens, t, h, dst[t][h]);
    }
    forall t | 0 <= t < tokens ensures |dst[t]| == heads {
      assert TokenDone(e, i, scale, hd, hv, heads, kvHeads, nKv, tokens, t, dst[t], heads);
    }
  }

  // ----- laws of the scores -----

  /** The scale may as well be applied to the query; the biases are not scaled. */
  lemma ScaleOnQuery(q: seq<real>, k: seq<seq<real>>, mask: Option<seq<Mask>>, c: real)
    requires (mask.Some? ==> |mask.value| == |k|) && forall r <- k :: |r| == |q|
    ensures RowScores(q, k, mask, c, |q|) == RowScores(Average.Scaled(q, c), k, mask, 1.0, |q|)
  {
    forall ic | 0 <= ic < |k|
      ensures Score(q, k, mask, c, |q|, ic) == Score(Average.Scaled(q, c), k, mask, 1.0, |q|, ic)
    {
      OneScoreScaled(q, k, mask, c, ic);
    }
  }

  lemma OneScoreScaled(q: seq<real>, k: seq<seq<real>>, mask: Option<seq<Mask>>, c: real, ic: nat)
    requires (mask.Some? ==> |mask.value| == |k|) && ic < |k| && |k[ic]| == |q|
    ensures Score(q, k, mask, c, |q|, ic) == Score(Average.Scaled(q, c), k, mask, 1.0, |q|, ic)
  {
    hide Dot, Biased;
    var d, scaled := Dot(q, k[ic], |q|), Dot(Average.Scaled(q, c), k[ic], |q|);
    ScaledDot(q, k[ic], c, |q|);
    var bias := if mask.Some? && mask.value[ic].Bias? then mask.value[ic].x else 0.0;
    ScaleFirst(d, c, bias);
    assert scaled == d * c;
    assert Biased(scaled, 1.0, bias) == Biased(d, c, bias);
  }

  lemma ScaleFirst(dot: real, c: real, mv: real)
    ensures Biased(dot * c, 1.0, mv) == Biased(dot, c, mv)
  {
  }

  lemma {:induction false} ScaledDot(q: seq<real>, k: seq<real>, c: real, n: nat)
    requires n <= |q| == |k|
    ensures Dot(Average.Scaled(q, c), k, n) == Dot(q, k, n) * c
  {
    if n > 0 {
      ScaledDot(q, k, c, n - 1);
      assert (Dot(q, k, n - 1) + q[n - 1] * k[n - 1]) * c == Dot(q, k, n - 1) * c + q[n - 1] * k[n - 1] * c;
      assert q[n - 1] * k[n - 1] * c == q[n - 1] * c * k[n - 1];
    }
  }

  /** Raising a key's bias by x multiplies its weight by e(x). */
  lemma BiasRaises(e: real -> real, q: seq<real>, k: seq<seq<real>>, mask: seq<Mask>, scale: real, j: nat, x: real,
                   m: real)
    requires ExpLaw(e) && |mask| == |k| && j < |k| && |k[j]| == |q| && mask[j].Bias?
    ensures var before := Score(q, k, Some(mask), scale, |q|, j);
      var after := Score(q, k, Some(mask[j := Bias(mask[j].x + x)]), scale, |q|, j);
      before.Some? && after.Some? && e(after.value - m) == e(x) * e(before.value - m)
  {
    hide Dot;
    var s := Score(q, k, Some(mask), scale, |q|, j).value;
    var r := Score(q, k, Some(mask[j := Bias(mask[j].x + x)]), scale, |q|, j).value;
    assert r - m == x + (s - m);
    assert Adds(e, x, s - m);
  }

  /** The dot product picks coordinates, and adds up over keys. */
  lemma {:induction false} DotPicks(q: seq<real>, i: nat, n: nat)
    requires n <= |q| && i < |q|
    ensures Dot(q, Average.Unit(|q|, i), n) == if i < n then q[i] else 0.0
  {
    if n > 0 {
      DotPicks(q, i, n - 1);
      assert q[n - 1] * 0.0 == 0.0;
    }
  }

  lemma {:induction false} DotAdds(q: seq<real>, a: seq<real>, b: seq<real>, n: nat)
    requires n <= |q| == |a| == |b|
    ensures Dot(q, Average.Plus(a, b), n) == Dot(q, a, n) + Dot(q, b, n)
  {
    if n > 0 {
      DotAdds(q, a, b, n - 1);
      assert q[n - 1] * (a[n - 1] + b[n - 1]) == q[n - 1] * a[n - 1] + q[n - 1] * b[n - 1];
    }
  }

  method FlashAttention(e: real -> real, i: Inputs, scale: real, hd: nat, hv: nat, heads: nat, kvHeads: nat,
                        nKv: nat, tokens: nat) returns (rc: int, dst: seq<seq<seq<real>>>)
    requires ExpLaw(e) && i.Valid(hd, hv, heads, kvHeads, nKv, tokens)
    ensures rc == if hd == 0 || hv == 0 || heads == 0 || kvHeads == 0 || nKv == 0 || tokens == 0 then -2
                  else if hd > 256 || hv > 256 then -3
                  else if heads % kvHeads != 0 then -4 else 0
    ensures rc == 0 ==> |dst| == tokens && forall t :: 0 <= t < tokens ==>
              TokenDone(e, i, scale, hd, hv, heads, kvHeads, nKv, tokens, t, dst[t], heads)
    ensures rc == 0 ==> Means(e, i, scale, hd, hv, heads, kvHeads, nKv, tokens, dst)
  {
    hide ExpLaw, TokenDone, Means;
    dst := [];
    if hd == 0 || hv == 0 || heads == 0 || kvHeads == 0 || nKv == 0 || tokens == 0 {
      return -2, dst;
    }
    if hd > MAX_HEAD_DIM || hv > MAX_HEAD_DIM {
      return -3, dst;
    }
    if heads % kvHeads != 0 {
      return -4, dst;
    }
    rc := 0;
    for t := 0 to tokens
      invariant |dst| == t
      invariant forall t' :: 0 <= t' < t ==>
                  TokenDone(e, i, scale, hd, hv, heads, kvHeads, nKv, tokens, t', dst[t'], heads)
    {
      var out := AttendToken(e, i, scale, hd, hv, heads, kvHeads, nKv, tokens, t);
      dst := dst + [out];
    }
    AllMean(e, i, scale, hd, hv, heads, kvHeads, nKv, tokens, dst);
  }

  method AttendToken(e: real -> real, i: Inputs, scale: real, hd: nat, hv: nat, heads: nat, kvHeads: nat,
                     nKv: nat, tokens: nat, t: nat) returns (out: seq<seq<real>>)
    requires ExpLaw(e) && i.Valid(hd, hv, heads, kvHeads, nKv, tokens) && t < tokens
    requires 0 < kvHeads && heads % kvHeads == 0
    ensures TokenDone(e, i, scale, hd, hv, heads, kvHeads, nKv, tokens, t, out, heads)
  {
    hide ExpLaw, Softmax, RowScores;
    out := [];
    for h := 0 to heads
      invariant TokenDone(e, i, scale, hd, hv, heads, kvHeads, nKv, tokens, t, out, h)
    {
      HeadInRange(h, heads, kvHeads);
      var g := h / (heads / kvHeads);
      var row := AttendRow(e, i.q[t][h], i.k[g], i.v[g], i.MaskRow(t), scale, hd, hv);
      assert forall d :: 0 <= d < hv ==>
          row[d] == Promised(e, i, scale, hd, hv, heads, kvHeads, nKv, tokens, t, h, d);
      out := out + [row];
    }
  }
}

/**
 What the norm kernels compute: element by element in any arithmetic (NormAt, ProductAt),
 and over the reals with the inverse root as factor, the column rescaled to a mean square
 of one up to eps (Normalizes).
 */
module NormMeaning {
  import opened NormKernels

  // ----- element by element -----

  /** Element r of column col of the norm: the element itself times its column's factor. */
  lemma NormAt<T>(a: Arith<T>, x: seq<T>, rows: nat, cols: nat, col: nat, r: nat)
    requires col * rows + rows <= cols * rows <= |x| && col < cols && r < rows
    ensures |Norm(a, x, rows, cols)| == cols * rows
    ensures var column := x[col * rows..col * rows + rows];
      Norm(a, x, rows, cols)[col * rows + r] == a.mul(x[col * rows + r], a.scaleOf(SumSquares(a, column, rows), rows))
  {
    hide Norm, SumSquares;
    BaseStep(col, rows);
    BaseMono(col + 1, cols, rows);
    NormPrefix(a, x, rows, col + 1, cols);
    NormNext(a, x, rows, col);
  }

  lemma {:induction false} NormPrefix<T>(a: Arith<T>, x: seq<T>, rows: nat, m: nat, n: nat)
    requires m <= n && Base(m, rows) <= Base(n, rows) <= |x|
    ensures Norm(a, x, rows, m) <= Norm(a, x, rows, n)
  {
    hide NormColumn;
    if m < n {
      BaseMono(m, n - 1, rows);
      BaseStep(n - 1, rows);
      NormPrefix(a, x, rows, m, n - 1);
    }
  }

  /** Element r of column col of the product. */
  lemma ProductAt<T>(a: Arith<T>, x: seq<T>, w: seq<T>, rows: nat, cols: nat, broadcast: bool, col: nat, r: nat)
    requires col * rows + rows <= cols * rows <= |x| && col < cols && r < rows
    requires if broadcast then |w| == rows else cols * rows <= |w|
    ensures |Product(a, x, w, rows, cols, broadcast)| == cols * rows
    ensures Product(a, x, w, rows, cols, broadcast)[col * rows + r] ==
            a.mul(x[col * rows + r], w[if broadcast then r else col * rows + r])
  {
    hide Product;
    BaseStep(col, rows);
    BaseMono(col + 1, cols, rows);
    ProductPrefixes(a, x, w, rows, col + 1, cols, broadcast);
    ProductNext(a, x, w, rows, col, broadcast);
    var at := Base(col, rows);
    hide Base;
    ColumnAt(a, x[at..at + rows], if broadcast then w else w[at..at + rows], r);
  }

  lemma ColumnAt<T>(a: Arith<T>, x: seq<T>, w: seq<T>, r: nat)
    requires r < |x| == |w|
    ensures MulColumn(a, x, w)[r] == a.mul(x[r], w[r])
  {
  }

  lemma {:induction false} ProductPrefixes<T>(a: Arith<T>, x: seq<T>, w: seq<T>, rows: nat, m: nat, n: nat,
                                              broadcast: bool)
    requires m <= n && Base(m, rows) <= Base(n, rows) <= |x|
    requires if broadcast then |w| == rows else Base(n, rows) <= |w|
    ensures Product(a, x, w, rows, m, broadcast) <= Product(a, x, w, rows, n, broadcast)
  {
    hide MulColumn;
    if m < n {
      BaseMono(m, n - 1, rows);
      BaseStep(n - 1, rows);
      ProductPrefixes(a, x, w, rows, m, n - 1, broadcast);
    }
  }

  // ----- over the reals -----

  /** Real arithmetic with a given normalizing factor. */
  function Reals(scaleOf: (real, nat) -> real): Arith<real>
  {
    Arith(0.0, (x, y) => x + y, (x, y) => x * y, scaleOf)
  }

  function Square(x: real): (s: real)
    ensures s >= 0.0
  {
    SquareSign(x);
    x * x
  }

  lemma SquareSign(x: real)
    ensures x * x >= 0.0
  {
    if x < 0.0 {
      assert x * x == -x * -x;
    }
  }

  lemma NonZeroSquare(x: real)
    requires x != 0.0
    ensures Square(x) != 0.0
  {
    var r := 1.0 / x;
    assert x * r == 1.0;
    assert Square(x) * r == x * (x * r);
  }

  /** The squares of a column added up. */
  function Energy(x: seq<real>): (s: real)
    ensures s >= 0.0
  {
    if x == [] then 0.0 else Square(x[0]) + Energy(x[1..])
  }

  lemma {:induction false} EnergySnoc(x: seq<real>, y: real)
    ensures Energy(x + [y]) == Energy(x) + Square(y)
  {
    hide Square;
    if x == [] {
      assert x + [y] == [y];
      assert [y][1..] == [];
    } else {
      EnergySnoc(x[1..], y);
      assert (x + [y])[1..] == x[1..] + [y];
    }
  }

  lemma SquareIs(x: real)
    ensures Square(x) == x * x
  {
  }

  /** The kernels' sum of squares is the column's energy. */
  lemma {:induction false} SumIsEnergy(scaleOf: (real, nat) -> real, x: seq<real>, n: nat)
    requires n <= |x|
    ensures SumSquares(Reals(scaleOf), x, n) == Energy(x[..n])
  {
    hide Square, Energy;
    if n == 0 {
      NoEnergy(x);
    } else {
      SumIsEnergy(scaleOf, x, n - 1);
      EnergySnoc(x[..n - 1], x[n - 1]);
      SquareIs(x[n - 1]);
      assert x[..n] == x[..n - 1] + [x[n - 1]];
    }
  }

  lemma NoEnergy(x: seq<real>)
    ensures Energy(x[..0]) == 0.0
  {
  }

  /** Energy is zero only for a column of zeros. */
  lemma {:induction false} EnergyZero(x: seq<real>)
    ensures Energy(x) == 0.0 <==> forall i :: 0 <= i < |x| ==> x[i] == 0.0
  {
    if x != [] {
      EnergyZero(x[1..]);
      if x[0] != 0.0 {
        NonZeroSquare(x[0]);
      }
      ZeroSquare();
      hide Square;
      assert forall i :: 0 < i < |x| ==> x[i] == x[1..][i - 1];
    }
  }

  lemma ZeroSquare()
    ensures Square(0.0) == 0.0
  {
  }

  function Times(a: real, b: real): real { a * b }

  /** Multiplying a column by c multiplies its energy by the square of c. */
  lemma {:induction false} EnergyScales(x: seq<real>, y: seq<real>, c: real)
    requires |x| == |y| && forall i :: 0 <= i < |x| ==> y[i] == Times(x[i], c)
    ensures Energy(y) == Times(Energy(x), Square(c))
  {
    hide Square, Times;
    if x == [] {
      ZeroTimes(Square(c));
    } else {
      EnergyScales(x[1..], y[1..], c);
      SquareOfProduct(x[0], c);
      TimesSum(Square(x[0]), Energy(x[1..]), Square(c));
    }
  }

  lemma ZeroTimes(a: real)
    ensures Times(0.0, a) == 0.0
  {
  }

  lemma TimesSum(a: real, b: real, c: real)
    ensures Times(a + b, c) == Times(a, c) + Times(b, c)
  {
  }

  lemma SquareOfProduct(a: real, c: real)
    ensures Square(Times(a, c)) == Times(Square(a), Square(c))
  {
    hide Square, Times;
    SquareIs(a);
    SquareIs(c);
    SquareIs(Times(a, c));
    Squares(a, c);
  }

  lemma Squares(a: real, c: real)
    ensures Times(a, c) * Times(a, c) == Times(a * a, c * c)
  {
    assert (a * c) * (a * c) == (a * a) * (c * c);
  }

  /** The factor is the inverse root of the mean square plus eps. */
  ghost predicate InverseRoot(scaleOf: (real, nat) -> real, eps: real)
  {
    forall s, n :: s >= 0.0 && n > 0 ==> Times(Square(scaleOf(s, n)), s / n as real + eps) == 1.0
  }

  /** What normalizing is for: a column of energy E comes out with energy E over its mean square plus eps. */
  lemma Normalizes(scaleOf: (real, nat) -> real, eps: real, x: seq<real>)
    requires InverseRoot(scaleOf, eps) && |x| > 0
    ensures Times(Energy(NormColumn(Reals(scaleOf), x)), Energy(x) / |x| as real + eps) == Energy(x)
  {
    var e, n := Energy(x), |x|;
    FactorIs(scaleOf, x);
    NormElements(scaleOf, x);
    var f := scaleOf(e, n);
    hide Energy, NormColumn, Factor, Square, Times;
    EnergyScales(x, NormColumn(Reals(scaleOf), x), f);
    Regroup(e, Square(f), e / n as real + eps);
  }

  lemma FactorIs(scaleOf: (real, nat) -> real, x: seq<real>)
    ensures Factor(Reals(scaleOf), x) == scaleOf(Energy(x), |x|)
  {
    hide SumSquares, Energy;
    SumIsEnergy(scaleOf, x, |x|);
    assert x[..|x|] == x;
  }

  lemma NormElements(scaleOf: (real, nat) -> real, x: seq<real>)
    ensures forall i :: 0 <= i < |x| ==> NormColumn(Reals(scaleOf), x)[i] == Times(x[i], Factor(Reals(scaleOf), x))
  {
    hide Factor;
  }

  lemma Regroup(e: real, g: real, h: real)
    requires Times(g, h) == 1.0
    ensures Times(Times(e, g), h) == e
  {
    assert e * g * h == e * (g * h);
  }
}

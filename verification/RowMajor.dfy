/**
 The weights a row-major Q1_0 tensor stores, read straight from its bytes: blocks of 128
 weights in 18 bytes, an fp16 scale and then one sign bit for each weight, lowest first.
 */
module RowMajor {
  import opened Common

  /** The j-th bit of a byte. */
  predicate BitOf(b: byte, j: nat)
    requires j < 8
  {
    b / [1, 2, 4, 8, 16, 32, 64, 128][j] % 2 == 1
  }

  /** Weight j of the block that starts at byte `at`: plus the scale if its bit is set, else minus. */
  function WeightAt(w: seq<byte>, half: nat -> real, at: nat, j: nat): real
    requires at + 18 <= |w| && j < 128
  {
    var scale := half(w[at] + 256 * (w[at + 1] as int));
    if BitOf(w[at + 2 + j / 8], j % 8) then scale else -scale
  }

  lemma BlockInside(rows: nat, bpr: nat, row: nat, i: nat, n: nat)
    requires row < rows && i < 128 * bpr && 18 * (rows * bpr) <= n
    ensures 18 * (row * bpr + i / 128) + 18 <= n
  {
    assert rows * bpr == row * bpr + (rows - row) * bpr;
    assert (rows - row) * bpr == bpr + (rows - row - 1) * bpr;
    assert (rows - row - 1) * bpr >= 0;
  }

  /** A row of the tensor, bpr blocks to a row. */
  function Row(w: seq<byte>, rows: nat, bpr: nat, half: nat -> real, row: nat): (r: seq<real>)
    requires row < rows && 18 * (rows * bpr) <= |w|
    ensures |r| == 128 * bpr
  {
    seq(128 * bpr, i requires 0 <= i < 128 * bpr =>
      BlockInside(rows, bpr, row, i, |w|); WeightAt(w, half, 18 * (row * bpr + i / 128), i % 128))
  }
}

/** Per-frame bone transforms: each frame is a flat buffer holding, for bone b, the
    16 scalars of its 4x4 matrix at offsets 16 * b .. 16 * b + 15. */
module Matrices {

  /** Number of scalars in one 4x4 matrix. */
  const MatrixSize: nat := 16

  /** buffer with m copied over the positions offset .. offset + |m| - 1. */
  function WithBlock(buffer: seq<real>, offset: nat, m: seq<real>): (r: seq<real>)
    requires offset + |m| <= |buffer|
    ensures |r| == |buffer|
    ensures r[offset..offset + |m|] == m
    ensures forall k :: 0 <= k < |buffer| && !(offset <= k < offset + |m|) ==> r[k] == buffer[k]
  {
    buffer[..offset] + m + buffer[offset + |m|..]
  }

  /** The 16 scalars of bone b's matrix in a frame buffer. */
  function BoneMatrix(buffer: seq<real>, b: nat): (m: seq<real>)
    requires MatrixSize * b + MatrixSize <= |buffer|
  {
    buffer[MatrixSize * b..MatrixSize * b + MatrixSize]
  }

  /** Writing bone b's matrix and reading it back gives what was written; every
      other bone's matrix is as it was. */
  lemma WriteThenRead(buffer: seq<real>, b: nat, c: nat, m: seq<real>)
    requires |m| == MatrixSize
    requires MatrixSize * b + MatrixSize <= |buffer| && MatrixSize * c + MatrixSize <= |buffer|
    ensures BoneMatrix(WithBlock(buffer, MatrixSize * b, m), b) == m
    ensures c != b ==> BoneMatrix(WithBlock(buffer, MatrixSize * b, m), c) == BoneMatrix(buffer, c)
  {
    var r := WithBlock(buffer, MatrixSize * b, m);
    if c != b {
      forall k | 0 <= k < MatrixSize ensures BoneMatrix(r, c)[k] == BoneMatrix(buffer, c)[k] {
        assert !(MatrixSize * b <= MatrixSize * c + k < MatrixSize * b + MatrixSize);
      }
    }
  }
}

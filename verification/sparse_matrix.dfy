/**
  A sparse matrix of fixed dimensions whose absent entries read as zero.
  Pasting a dense row or column overwrites the entries it covers and
  leaves every other entry as it was.
 */
module SparseMatrices {

  datatype SparseMatrix = SparseMatrix(rows: nat, cols: nat, entries: map<(nat, nat), real>)

  /** An all-zero matrix of the given size. */
  function Empty(rows: nat, cols: nat): (m: SparseMatrix)
    ensures m.rows == rows && m.cols == cols
    ensures forall i: nat, j: nat :: Get(m, i, j) == 0.0
  {
    SparseMatrix(rows, cols, map[])
  }

  /** The entry at row `i`, column `j`. */
  function Get(m: SparseMatrix, i: nat, j: nat): (r: real)
  {
    if (i, j) in m.entries then m.entries[(i, j)] else 0.0
  }

  /** Paste the row vector `w` with its first entry at `(row, col)`. */
  function PasteRow(m: SparseMatrix, w: seq<real>, row: nat, col: nat): (r: SparseMatrix)
    requires row < m.rows && col + |w| <= m.cols
    ensures r.rows == m.rows && r.cols == m.cols
    ensures forall i: nat, j: nat :: Get(r, i, j) == if i == row && col <= j < col + |w| then w[j - col] else Get(m, i, j)
  {
    var pasted := map j: nat | col <= j < col + |w| :: (row, j) := w[j - col];
    SparseMatrix(m.rows, m.cols, m.entries + pasted)
  }

  /** Paste the transpose of the row vector `w`, a column, with its first entry at `(row, col)`. */
  function PasteColumn(m: SparseMatrix, w: seq<real>, row: nat, col: nat): (r: SparseMatrix)
    requires row + |w| <= m.rows && col < m.cols
    ensures r.rows == m.rows && r.cols == m.cols
    ensures forall i: nat, j: nat :: Get(r, i, j) == if j == col && row <= i < row + |w| then w[i - row] else Get(m, i, j)
  {
    var pasted := map i: nat | row <= i < row + |w| :: (i, col) := w[i - row];
    SparseMatrix(m.rows, m.cols, m.entries + pasted)
  }
}

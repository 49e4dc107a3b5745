/**
 * Row-major mapping between a linear cell index and a (row, col) pair on a
 * board that is `cols` cells wide (js/modules/utils/GridUtils.mjs).
 */
module GridUtils {

  datatype Pos = Pos(row: int, col: int)

  /** `getLinearIdx`: the linear index of (row, col) in row-major order. */
  function LinearIdx(cols: int, row: int, col: int): int {
    row * cols + col
  }

  /**
   * `get2dIdx`: the (row, col) of a linear index. The source computes
   * `idx % cols` and `Math.floor(idx / cols)`; for `idx >= 0` these agree with
   * Dafny's Euclidean `%` and `/`.
   */
  function Get2dIdx(cols: int, idx: int): (p: Pos)
    requires cols > 0 && idx >= 0
    ensures p.row >= 0 && 0 <= p.col < cols
    ensures LinearIdx(cols, p.row, p.col) == idx
  {
    Pos(idx / cols, idx % cols)
  }

  /** Multiplication by a non-negative factor is monotone. */
  lemma MulMonotone(a: int, b: int, k: int)
    requires a <= b && k >= 0
    ensures a * k <= b * k
  {
    assert b * k - a * k == (b - a) * k;
  }

  /** On a board `cols` wide, every cell of an earlier row has a smaller linear index. */
  lemma RowOrder(cols: int, r1: int, c1: int, r2: int, c2: int)
    requires cols > 0 && 0 <= c1 < cols && 0 <= c2 < cols
    ensures r1 < r2 ==> LinearIdx(cols, r1, c1) < LinearIdx(cols, r2, c2)
  {
    if r1 < r2 {
      MulMonotone(r1 + 1, r2, cols);
      assert (r1 + 1) * cols == r1 * cols + cols;
    }
  }

  /** A linear index determines its row and its column. */
  lemma LinearIdxInjective(cols: int, r1: int, c1: int, r2: int, c2: int)
    requires cols > 0 && 0 <= c1 < cols && 0 <= c2 < cols
    requires LinearIdx(cols, r1, c1) == LinearIdx(cols, r2, c2)
    ensures r1 == r2 && c1 == c2
  {
    RowOrder(cols, r1, c1, r2, c2);
    RowOrder(cols, r2, c2, r1, c1);
  }

  /** Mapping an on-board (row, col) to a linear index and back gives (row, col) again. */
  lemma RoundTripFrom2d(cols: int, row: int, col: int)
    requires cols > 0 && row >= 0 && 0 <= col < cols
    ensures LinearIdx(cols, row, col) >= 0
    ensures Get2dIdx(cols, LinearIdx(cols, row, col)) == Pos(row, col)
  {
    MulMonotone(0, row, cols);
    var p := Get2dIdx(cols, LinearIdx(cols, row, col));
    LinearIdxInjective(cols, p.row, p.col, row, col);
  }

  /** A non-negative index lies on a board of `rows` rows exactly when its row does. */
  lemma RowBound(rows: int, cols: int, idx: int)
    requires cols > 0 && idx >= 0
    ensures idx < rows * cols <==> Get2dIdx(cols, idx).row < rows
  {
    var p := Get2dIdx(cols, idx);
    if p.row < rows {
      MulMonotone(p.row + 1, rows, cols);
      assert (p.row + 1) * cols == p.row * cols + cols;
    } else {
      MulMonotone(rows, p.row, cols);
    }
  }

  /** (row, col) lies on a rows-by-cols board exactly when its linear index is in [0, rows*cols). */
  lemma OnBoard(rows: int, cols: int, row: int, col: int)
    requires cols > 0 && 0 <= col < cols
    ensures 0 <= row < rows <==> 0 <= LinearIdx(cols, row, col) < rows * cols
  {
    if row >= 0 {
      RoundTripFrom2d(cols, row, col);
      RowBound(rows, cols, LinearIdx(cols, row, col));
    } else {
      MulMonotone(row, -1, cols);
    }
  }

  /**
   * The worked examples in the source's comments say that (2, 0) maps to 7
   * and 7 maps back to (2, 0) when the board is 3 wide; the formulas give 6
   * and (2, 1).
   */
  lemma CommentExamples()
    ensures LinearIdx(3, 2, 0) == 6 && LinearIdx(3, 2, 0) != 7
    ensures Get2dIdx(3, 7) == Pos(2, 1) && Get2dIdx(3, 7) != Pos(2, 0)
  {
  }
}

/**
 * Food placement (js/modules/Food.mjs): a random cell that is neither a wall
 * of the current level nor part of the snake becomes food, and `id` records
 * the drawn index.
 */
module Foods {
  import opened Blocks
  import opened Grids
  import opened Snakes
  import MathUtils

  /** The indices `generate` avoids: the level's walls and the snake's body. */
  function Reserved(walls: set<int>, body: seq<int>): (r: set<int>)
    ensures forall x :: x in r <==> x in walls || x in body
  {
    walls + set x | x in body
  }

  /** Whether `generate` as written may draw `point`: from 0 to `size` inclusive, not reserved. */
  predicate Candidate(point: int, size: int, reserved: set<int>) {
    0 <= point <= size && point !in reserved
  }

  class Food {
    var id: int
    const grid: Grid
    const snake: Snake

    /** `new Food(grid, snake)`: no food has been drawn yet. */
    constructor (grid: Grid, snake: Snake)
      ensures this.grid == grid && this.snake == snake && id == -1
    {
      this.grid := grid;
      this.snake := snake;
      id := -1;
    }

    /**
     * `generate` as the source has it: the draw ranges over [0, rows * cols],
     * one index past the last cell. A draw that names a cell turns that cell
     * into food; the extra index turns no cell into food. Either way `id` is
     * the draw.
     */
    method Generate()
      requires grid.Valid()
      requires exists x :: Candidate(x, grid.Size(), Reserved(LevelBlocks(grid.level), snake.blocks))
      modifies this`id, grid.Blocks()
      ensures Candidate(id, grid.Size(), Reserved(LevelBlocks(grid.level), snake.blocks))
      ensures forall i :: 0 <= i < grid.Size() ==>
                grid.At(i).kind == (if i == id then Food else old(grid.At(i).kind)) &&
                grid.At(i).isHead == old(grid.At(i).isHead)
    {
      var size := grid.cols * grid.rows;
      var reserved := LevelBlocks(grid.level) + set x | x in snake.blocks;
      assert reserved == Reserved(LevelBlocks(grid.level), snake.blocks);
      var point := MathUtils.RandomWithoutExcluded(0, size, reserved);
      var block := grid.GetBlockByLinearId(point);
      if block != null {
        block.UpdateAsFood();
      }
      id := point;
    }

    /**
     * `generate` with the draw kept on the board, [0, rows * cols - 1]: the
     * drawn cell is free and becomes food, and no other cell changes.
     */
    method GenerateOnBoard()
      requires grid.Valid()
      requires exists x :: 0 <= x < grid.Size() && x !in Reserved(LevelBlocks(grid.level), snake.blocks)
      modifies this`id, grid.Blocks()
      ensures 0 <= id < grid.Size() && id !in LevelBlocks(grid.level) && id !in snake.blocks
      ensures grid.At(id).kind == Food
      ensures forall i :: 0 <= i < grid.Size() ==>
                grid.At(i).kind == (if i == id then Food else old(grid.At(i).kind)) &&
                grid.At(i).isHead == old(grid.At(i).isHead)
    {
      var size := grid.cols * grid.rows;
      var reserved := LevelBlocks(grid.level) + set x | x in snake.blocks;
      assert reserved == Reserved(LevelBlocks(grid.level), snake.blocks);
      var point := MathUtils.RandomWithoutExcluded(0, size - 1, reserved);
      var block := grid.GetBlockByLinearId(point);
      block.UpdateAsFood();
      id := point;
    }
  }

  /**
   * The draw of `generate` as written can be `rows * cols`: whenever that
   * index is not a wall of the level it is a candidate, and it names no cell,
   * so the call places no food while `id` reports one.
   */
  lemma OffBoardDraw(g: Grid, body: seq<int>)
    requires g.Valid() && g.Size() !in LevelBlocks(g.level)
    requires forall k :: 0 <= k < |body| ==> 0 <= body[k] < g.Size()
    ensures Candidate(g.Size(), g.Size(), Reserved(LevelBlocks(g.level), body))
    ensures g.GetBlockByLinearId(g.Size()) == null
  {
  }

  /** Level 1 has no walls, so on level 1 the off-board draw is always possible. */
  lemma OffBoardDrawOnLevel01(g: Grid, body: seq<int>)
    requires g.Valid() && g.level == 0
    requires forall k :: 0 <= k < |body| ==> 0 <= body[k] < g.Size()
    ensures Candidate(g.Size(), g.Size(), Reserved(LevelBlocks(g.level), body))
    ensures g.GetBlockByLinearId(g.Size()) == null
  {
    OffBoardDraw(g, body);
  }
}

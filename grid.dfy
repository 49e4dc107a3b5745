/**
 * The board (js/modules/Grid.mjs): a rows-by-cols array of cells rebuilt from
 * the current level's wall set. The display collaborator (`gameUI`), the
 * pixel size of a cell and the render calls are not modelled.
 */
module Grids {
  import opened GridUtils
  import opened Blocks
  import Levels

  /**
   * `getLevelBlocks`: the wall set of level `level`; an ordinal outside the
   * catalog selects its last level.
   */
  function LevelBlocks(level: int): (walls: set<int>)
    ensures walls in Levels.Catalog()
    ensures 0 <= level < |Levels.Catalog()| ==> walls == Levels.Catalog()[level]
    ensures !(0 <= level < |Levels.Catalog()|) ==> walls == Levels.Level03()
  {
    var catalog := Levels.Catalog();
    if 0 <= level < |catalog| then catalog[level] else catalog[|catalog| - 1]
  }

  class Grid {
    const rows: nat
    const cols: nat
    var level: int
    /** `#grid`; `null` stands for the `0` placeholders of `#populateEmptyGrid`. */
    var cells: array2<Block?>
    /** The cells of the board, as a set. */
    ghost var repr: set<Block>
    /** The wall set the board was last built from. */
    ghost var walls: set<int>

    /** The number of cells, `col * row` in the source. */
    function Size(): nat {
      rows * cols
    }

    /** The board has the configured shape and every cell carries its own linear index. */
    ghost predicate Valid()
      reads this, cells
    {
      && cols > 0
      && cells.Length0 == rows && cells.Length1 == cols
      && forall r, c :: 0 <= r < rows && 0 <= c < cols ==>
           cells[r, c] != null && cells[r, c].index == LinearIdx(cols, r, c) && cells[r, c] in repr
    }

    /** The cells of the board. */
    ghost function Blocks(): set<Block>
      reads this
    {
      repr
    }

    /** `getBlockByXY`: the cell at (row, col), or null off the board. */
    function GetBlockByXY(row: int, col: int): (b: Block?)
      requires Valid()
      reads this, cells
      ensures b == null <==> !(0 <= row < rows && 0 <= col < cols)
      ensures b != null ==> b in Blocks() && b.index == LinearIdx(cols, row, col)
    {
      if 0 <= row < rows && 0 <= col < cols then cells[row, col] else null
    }

    /**
     * `getBlockByLinearId`: the cell with linear index `idx`, or null when
     * there is none. For a negative `idx` the source's row,
     * `Math.floor(idx / cols)`, is negative, so there is no cell.
     */
    function GetBlockByLinearId(idx: int): (b: Block?)
      requires Valid()
      reads this, cells
      ensures b == null <==> !(0 <= idx < Size())
      ensures b != null ==> b in Blocks() && b.index == idx
    {
      if idx < 0 then null
      else
        var p := Get2dIdx(cols, idx);
        RowBound(rows, cols, idx);
        GetBlockByXY(p.row, p.col)
    }

    /** The cell with on-board linear index `i`. */
    ghost function At(i: int): (b: Block)
      requires Valid() && 0 <= i < Size()
      reads this, cells
      ensures b in Blocks() && b.index == i
    {
      GetBlockByLinearId(i)
    }

    /** The kind of every cell, by linear index. */
    ghost function Kinds(): (ks: seq<Kind>)
      requires Valid()
      reads this, cells, Blocks()
      ensures |ks| == Size() && forall i :: 0 <= i < Size() ==> ks[i] == At(i).kind
    {
      seq(Size(), i requires 0 <= i < Size() && Valid() reads this, cells, Blocks() => At(i).kind)
    }

    /** The head flag of every cell, by linear index. */
    ghost function Heads(): (hs: seq<bool>)
      requires Valid()
      reads this, cells, Blocks()
      ensures |hs| == Size() && forall i :: 0 <= i < Size() ==> hs[i] == At(i).isHead
    {
      seq(Size(), i requires 0 <= i < Size() && Valid() reads this, cells, Blocks() => At(i).isHead)
    }

    /**
     * The head flags once `b`'s flag is cleared. `b` need not be a cell of
     * this board: a cell of a board rebuilt since clears nothing here.
     */
    ghost function HeadsWithout(b: Block): (hs: seq<bool>)
      requires Valid()
      reads this, cells, Blocks()
      ensures |hs| == Size() && forall i :: 0 <= i < Size() ==> hs[i] == (At(i) != b && At(i).isHead)
    {
      seq(Size(), i requires 0 <= i < Size() && Valid() reads this, cells, Blocks() => At(i) != b && At(i).isHead)
    }

    /** Every cell is as the last build left it: a wall iff its index is in `walls`, else empty; no head flag. */
    ghost predicate Fresh()
      requires Valid()
      reads this, cells, Blocks()
    {
      forall i | 0 <= i < Size() ::
        At(i).kind == (if i in walls then Wall else Empty) && !At(i).isHead
    }

    /** `#populateEmptyGrid` then `#updateGridWithBlocks`: a new array of new cells for the walls `walls`. */
    static method Populate(rows: nat, cols: nat, walls: set<int>) returns (a: array2<Block?>)
      requires cols > 0
      ensures fresh(a) && a.Length0 == rows && a.Length1 == cols
      ensures forall r, c :: 0 <= r < rows && 0 <= c < cols ==>
                a[r, c] != null && fresh(a[r, c]) && a[r, c].index == LinearIdx(cols, r, c) &&
                a[r, c].kind == (if LinearIdx(cols, r, c) in walls then Wall else Empty) && !a[r, c].isHead
    {
      a := new Block?[rows, cols];
      for r := 0 to rows
        invariant forall i, j :: 0 <= i < r && 0 <= j < cols ==>
                    a[i, j] != null && fresh(a[i, j]) && a[i, j].index == LinearIdx(cols, i, j) &&
                    a[i, j].kind == (if LinearIdx(cols, i, j) in walls then Wall else Empty) && !a[i, j].isHead
      {
        for c := 0 to cols
          invariant forall i, j :: 0 <= i < r && 0 <= j < cols ==>
                      a[i, j] != null && fresh(a[i, j]) && a[i, j].index == LinearIdx(cols, i, j) &&
                      a[i, j].kind == (if LinearIdx(cols, i, j) in walls then Wall else Empty) && !a[i, j].isHead
          invariant forall j :: 0 <= j < c ==>
                      a[r, j] != null && fresh(a[r, j]) && a[r, j].index == LinearIdx(cols, r, j) &&
                      a[r, j].kind == (if LinearIdx(cols, r, j) in walls then Wall else Empty) && !a[r, j].isHead
        {
          var index := LinearIdx(cols, r, c);
          var block := new Block(index);
          a[r, c] := block;
          if index in walls {
            block.SetType(Wall);
          } else {
            block.SetType(Empty);
          }
        }
      }
    }

    /** A freshly populated array makes a valid board showing the level's walls. */
    lemma PopulatedIsFresh()
      requires cols > 0 && cells.Length0 == rows && cells.Length1 == cols
      requires forall r, c :: 0 <= r < rows && 0 <= c < cols ==>
                 cells[r, c] != null && cells[r, c].index == LinearIdx(cols, r, c) &&
                 cells[r, c].kind == (if LinearIdx(cols, r, c) in walls then Wall else Empty) &&
                 !cells[r, c].isHead && cells[r, c] in repr
      ensures Valid() && Fresh()
    {
      forall i | 0 <= i < Size()
        ensures At(i).kind == (if i in walls then Wall else Empty) && !At(i).isHead
      {
        var p := Get2dIdx(cols, i);
        RowBound(rows, cols, i);
      }
    }

    /** The constructor: level 0, then a board built from its walls. */
    constructor (rows: nat, cols: nat)
      requires cols > 0
      ensures this.rows == rows && this.cols == cols && level == 0 && walls == LevelBlocks(0)
      ensures Valid() && Fresh() && fresh(cells) && fresh(Blocks())
    {
      this.rows := rows;
      this.cols := cols;
      level := 0;
      walls := LevelBlocks(0);
      var populated := Grid.Populate(rows, cols, LevelBlocks(0));
      cells := populated;
      repr := set r, c | 0 <= r < rows && 0 <= c < cols && populated[r, c] != null :: populated[r, c];
      new;
      PopulatedIsFresh();
    }

    /** `reset`: rebuilds the board from the current level, discarding every previous cell. */
    method Reset()
      requires cols > 0
      modifies this
      ensures level == old(level) && walls == LevelBlocks(level)
      ensures Valid() && Fresh() && fresh(cells) && fresh(Blocks())
    {
      walls := LevelBlocks(level);
      cells := Populate(rows, cols, LevelBlocks(level));
      repr := set r, c | 0 <= r < rows && 0 <= c < cols && cells[r, c] != null :: cells[r, c];
      PopulatedIsFresh();
    }

    /** `setLevel`: records the level and rebuilds the board. */
    method SetLevel(level: int)
      requires cols > 0
      modifies this
      ensures this.level == level && walls == LevelBlocks(level)
      ensures Valid() && Fresh() && fresh(cells) && fresh(Blocks())
    {
      this.level := level;
      Reset();
    }
  }

  /** Clearing the flag of the cell at `j` changes the flags at `j` alone. */
  lemma HeadsWithoutCell(g: Grid, j: int)
    requires g.Valid() && 0 <= j < g.Size()
    ensures g.HeadsWithout(g.At(j)) == g.Heads()[j := false]
  {
    forall i | 0 <= i < g.Size() && i != j
      ensures g.HeadsWithout(g.At(j))[i] == g.Heads()[i]
    {
      DistinctCells(g, i, j);
    }
  }

  /** Clearing the flag of a cell that is not on the board changes no flag. */
  lemma HeadsWithoutStranger(g: Grid, b: Block)
    requires g.Valid() && b !in g.Blocks()
    ensures g.HeadsWithout(b) == g.Heads()
  {
  }

  /** Cells with different linear indices are different objects. */
  lemma DistinctCells(g: Grid, i: int, j: int)
    requires g.Valid() && 0 <= i < g.Size() && 0 <= j < g.Size() && i != j
    ensures g.At(i) != g.At(j)
  {
  }
}

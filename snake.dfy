/**
 * The snake of js/modules/Snake.mjs: its body as an insertion-ordered set of
 * linear cell indices (oldest first, so the head is last), the head index and
 * the head's cell, the direction buffer, the status and the acceleration
 * request.
 */
module Snakes {
  import opened Wrappers
  import opened GridUtils
  import opened Blocks
  import opened Grids
  import opened Directions
  import opened OrderedSets

  /** `Snake.Status`. */
  datatype Status = Active | DeadByWall | DeadByBody | DeadByMapOverflow

  /** The cell one step from `p` towards `d`: a neighbour sharing a row or a column; there is no wraparound at the edges. */
  function Move(p: Pos, d: Dir): (q: Pos)
    ensures (q.row == p.row && (q.col == p.col - 1 || q.col == p.col + 1)) ||
            (q.col == p.col && (q.row == p.row - 1 || q.row == p.row + 1))
  {
    match d
    case Left => Pos(p.row, p.col - 1)
    case Right => Pos(p.row, p.col + 1)
    case Up => Pos(p.row - 1, p.col)
    case Down => Pos(p.row + 1, p.col)
  }

  /** The opposite step undoes a step. */
  lemma MoveOpposite(p: Pos, d: Dir)
    ensures Move(Move(p, d), Opposite(d)) == p
  {
  }

  /** From an on-board cell a step leaves the board exactly when it crosses the edge it faces. */
  lemma MoveOffBoard(rows: int, cols: int, p: Pos, d: Dir)
    requires 0 <= p.row < rows && 0 <= p.col < cols
    ensures (0 <= Move(p, d).row < rows && 0 <= Move(p, d).col < cols) <==>
            match d
            case Left => p.col > 0
            case Right => p.col < cols - 1
            case Up => p.row > 0
            case Down => p.row < rows - 1
  {
  }

  class Snake {
    const initialBlocks: seq<int>
    var blocks: seq<int>
    var direction: Direction?
    const grid: Grid
    var headIdx: int
    var headRef: Block?
    var status: Status
    var accelerate: bool

    /** Every index of `xs` names a cell of the board. */
    ghost predicate OnGrid(xs: seq<int>) {
      forall k :: 0 <= k < |xs| ==> 0 <= xs[k] < grid.Size()
    }

    /**
     * The buffer is valid, the board is valid, the initial body is non-empty and
     * on the board, and the body and head are on the board with no index twice.
     */
    ghost predicate Valid()
      reads this, direction, grid, grid.cells
    {
      && direction != null && direction.Valid()
      && headRef != null
      && grid.Valid()
      && |initialBlocks| > 0 && OnGrid(initialBlocks)
      && Distinct(blocks) && OnGrid(blocks)
      && 0 <= headIdx < grid.Size()
    }

    /**
     * `headRef` is the board's cell at `headIdx`. `reset` and `appendHead`
     * establish this; a rebuild of the board by `Grid.setLevel` leaves
     * `headRef` on a cell of the old board until the next `reset` or move.
     */
    ghost predicate HeadLinked()
      requires Valid()
      reads this, direction, grid, grid.cells
    {
      headRef == grid.At(headIdx)
    }

    /** `new Snake(blocks, grid)`: records the initial body and calls `reset`. */
    constructor (blocks: seq<int>, grid: Grid)
      requires grid.Valid() && |blocks| > 0 && forall k :: 0 <= k < |blocks| ==> 0 <= blocks[k] < grid.Size()
      ensures this.grid == grid && initialBlocks == blocks && Valid()
      ensures this.blocks == FromSeq(blocks) && headIdx == blocks[|blocks| - 1] && headRef == grid.At(headIdx)
      ensures fresh(direction) && direction.directions == [Right]
      ensures status == Active && !accelerate
    {
      this.grid := grid;
      initialBlocks := blocks;
      status := Active;
      new;
      Reset();
    }

    /** `reset`: the initial body, its last index as head, a new buffer, no acceleration; the status stays. */
    method Reset()
      requires grid.Valid() && |initialBlocks| > 0 && OnGrid(initialBlocks)
      modifies this
      ensures Valid()
      ensures blocks == FromSeq(initialBlocks)
      ensures Distinct(initialBlocks) ==> blocks == initialBlocks
      ensures headIdx == initialBlocks[|initialBlocks| - 1] && headRef == grid.At(headIdx)
      ensures fresh(direction) && direction.directions == [Right]
      ensures !accelerate && status == old(status)
      ensures grid.Fresh() == old(grid.Fresh())
    {
      var body := FromSeq(initialBlocks);
      SetOnGrid(initialBlocks);
      blocks := body;
      headIdx := initialBlocks[|initialBlocks| - 1];
      headRef := grid.GetBlockByLinearId(headIdx);
      direction := new Direction();
      accelerate := false;
    }

    /** `new Set(xs)` of on-board indices is on the board and without repetition, and is `xs` itself when `xs` has none. */
    lemma SetOnGrid(xs: seq<int>)
      requires OnGrid(xs)
      ensures OnGrid(FromSeq(xs)) && Distinct(FromSeq(xs))
      ensures Distinct(xs) ==> FromSeq(xs) == xs
    {
      var body := FromSeq(xs);
      forall k | 0 <= k < |body|
        ensures 0 <= body[k] < grid.Size()
      {
        assert body[k] in xs;
      }
      if Distinct(xs) {
        FromDistinct(xs);
      }
    }

    /** `increaseSpeed`: requests acceleration. */
    method IncreaseSpeed()
      requires Valid()
      modifies this`accelerate
      ensures Valid() && accelerate
    {
      accelerate := true;
    }

    /** `decreaseSpeed`: withdraws the request. */
    method DecreaseSpeed()
      requires Valid()
      modifies this`accelerate
      ensures Valid() && !accelerate
    {
      accelerate := false;
    }

    /** `#nextIndex`: the head's cell moved one step in the direction the buffer executes next. */
    function NextIndex(): (p: Pos)
      requires Valid()
      reads this, direction, grid, grid.cells
      ensures Move(p, Opposite(Oldest(direction.directions))) == Get2dIdx(grid.cols, headIdx)
    {
      var head := Get2dIdx(grid.cols, headIdx);
      MoveOpposite(head, Oldest(direction.directions));
      Move(head, direction.Peek().value)
    }

    /** The linear index of the next cell. */
    ghost function NextLinear(): int
      requires Valid()
      reads this, direction, grid, grid.cells
    {
      LinearIdx(grid.cols, NextIndex().row, NextIndex().col)
    }

    /** What `canMove` finds at the next cell: the death it causes, or `None` when the way is free. */
    ghost function Blocked(): Option<Status>
      requires Valid()
      reads this, direction, grid, grid.cells, grid.Blocks()
    {
      var p := NextIndex();
      var b := grid.GetBlockByXY(p.row, p.col);
      if b == null then Some(DeadByMapOverflow)
      else if b.IsWall() then Some(DeadByWall)
      else if b.IsBody() then Some(DeadByBody)
      else None
    }

    /** When the way is free the next cell is on the board. */
    lemma FreeIsOnBoard()
      requires Valid() && Blocked() == None
      ensures 0 <= NextLinear() < grid.Size()
      ensures grid.At(NextLinear()) == grid.GetBlockByXY(NextIndex().row, NextIndex().col)
      ensures grid.At(NextLinear()).kind != Wall && grid.At(NextLinear()).kind != Body
    {
      var p := NextIndex();
      OnBoard(grid.rows, grid.cols, p.row, p.col);
      RoundTripFrom2d(grid.cols, p.row, p.col);
    }

    /** `canMove`: false, with the cause as status, when the next cell is off the board, body or wall. */
    method CanMove() returns (ok: bool)
      requires Valid()
      modifies this`status
      ensures Valid() && NextIndex() == old(NextIndex()) && Blocked() == old(Blocked())
      ensures ok <==> old(Blocked()) == None
      ensures status == if ok then old(status) else old(Blocked()).value
    {
      var next := NextIndex();
      var nextBlock := grid.GetBlockByXY(next.row, next.col);
      if nextBlock == null {
        status := DeadByMapOverflow;
        return false;
      }
      if nextBlock.IsBody() {
        status := DeadByBody;
      }
      if nextBlock.IsWall() {
        status := DeadByWall;
      }
      BodyExcludesWall(nextBlock);
      return !(nextBlock.IsBody() || nextBlock.IsWall());
    }

    /** `removeTail`: forgets the oldest body index and empties its cell. */
    method RemoveTail()
      requires Valid() && |blocks| > 0
      modifies this`blocks, grid.At(blocks[0])
      ensures Valid() && NextIndex() == old(NextIndex())
      ensures blocks == old(blocks)[1..]
      ensures grid.Kinds() == old(grid.Kinds())[old(blocks)[0] := Empty]
      ensures grid.Heads() == old(grid.Heads())
      ensures old(Blocked()) == None ==> Blocked() == None
    {
      var tailIndex := blocks[0];
      blocks := blocks[1..];
      var block := grid.GetBlockByLinearId(tailIndex);
      block.UpdateAsEmpty();
    }

    /**
     * `appendHead`: when `canMove` allows it, the next index joins the body as
     * its newest element and becomes the head, the head flag moves to its cell,
     * and the buffer drops its oldest entry. Otherwise only the status changes.
     */
    method AppendHead()
      requires Valid()
      modifies this, direction, headRef, grid.Blocks()
      ensures Valid() && direction == old(direction) && accelerate == old(accelerate)
      ensures grid.Kinds() == old(grid.Kinds())
      ensures old(Blocked()).Some? ==>
                && blocks == old(blocks) && headIdx == old(headIdx) && headRef == old(headRef)
                && direction.directions == old(direction.directions)
                && status == old(Blocked()).value
                && grid.Heads() == old(grid.Heads())
      ensures old(Blocked()) == None ==>
                && 0 <= old(NextLinear()) < grid.Size()
                && blocks == Insert(old(blocks), old(NextLinear()))
                && headIdx == old(NextLinear()) && headRef == grid.At(headIdx)
                && direction.directions == Popped(old(direction.directions))
                && status == old(status)
                && grid.Heads() == old(grid.HeadsWithout(headRef))[headIdx := true]
                && (old(HeadLinked()) ==> grid.Heads() == old(grid.Heads())[old(headIdx) := false][headIdx := true])
    {
      var ok := CanMove();
      if !ok {
        return;
      }
      Grow();
    }

    /** The branch of `appendHead` taken when the way is free. */
    method Grow()
      requires Valid() && Blocked() == None
      modifies this, direction, headRef, grid.Blocks()
      ensures Valid() && direction == old(direction) && status == old(status) && accelerate == old(accelerate)
      ensures grid.Kinds() == old(grid.Kinds())
      ensures 0 <= old(NextLinear()) < grid.Size()
      ensures blocks == Insert(old(blocks), old(NextLinear()))
      ensures headIdx == old(NextLinear()) && headRef == grid.At(headIdx)
      ensures direction.directions == Popped(old(direction.directions))
      ensures grid.Heads() == old(grid.HeadsWithout(headRef))[headIdx := true]
      ensures old(HeadLinked()) ==> grid.Heads() == old(grid.Heads())[old(headIdx) := false][headIdx := true]
    {
      FreeIsOnBoard();
      var next := NextIndex();
      var linearIdx := LinearIdx(grid.cols, next.row, next.col);
      AddHead(linearIdx);
      ghost var hs, ks := grid.Heads(), grid.Kinds();
      direction.RemoveLast();
      assert grid.Heads() == hs && grid.Kinds() == ks;
    }

    /** The middle of `appendHead`: `idx` joins the body as its newest element and becomes the head. */
    method AddHead(idx: int)
      requires Valid() && 0 <= idx < grid.Size()
      modifies this`blocks, this`headIdx, this`headRef, headRef, grid.At(idx)
      ensures Valid() && blocks == Insert(old(blocks), idx) && headIdx == idx && HeadLinked()
      ensures grid.Kinds() == old(grid.Kinds())
      ensures grid.Heads() == old(grid.HeadsWithout(headRef))[idx := true]
      ensures old(HeadLinked()) ==> grid.Heads() == old(grid.Heads())[old(headIdx) := false][idx := true]
    {
      ghost var linked, cleared := HeadLinked(), grid.HeadsWithout(headRef);
      blocks := Insert(blocks, idx);
      assert Valid() && HeadLinked() == linked && grid.HeadsWithout(headRef) == cleared;
      MoveHeadTo(idx);
    }

    /**
     * The head part of `appendHead`: `idx` becomes the head; the flag of the
     * old head cell is cleared, then the flag of the cell at `idx` is set.
     */
    method MoveHeadTo(idx: int)
      requires Valid() && 0 <= idx < grid.Size()
      modifies this`headIdx, this`headRef, headRef, grid.At(idx)
      ensures Valid() && headIdx == idx && HeadLinked()
      ensures grid.Kinds() == old(grid.Kinds())
      ensures grid.Heads() == old(grid.HeadsWithout(headRef))[idx := true]
      ensures old(HeadLinked()) ==> grid.Heads() == old(grid.Heads())[old(headIdx) := false][idx := true]
    {
      if HeadLinked() {
        HeadsWithoutCell(grid, headIdx);
      }
      headIdx := idx;
      headRef.SetIsHead(false);
      headRef := grid.GetBlockByLinearId(idx);
      headRef.SetIsHead(true);
    }

    /** `#setDirection`: hands the direction to the buffer. */
    method SetDirection(d: Dir)
      requires Valid()
      modifies direction
      ensures Valid() && direction.directions == Added(old(direction.directions), d)
    {
      direction.Add(d);
    }

    /** `goLeft`. */
    method GoLeft()
      requires Valid()
      modifies direction
      ensures Valid() && direction.directions == Added(old(direction.directions), Left)
    {
      SetDirection(Left);
    }

    /** `goRight`. */
    method GoRight()
      requires Valid()
      modifies direction
      ensures Valid() && direction.directions == Added(old(direction.directions), Right)
    {
      SetDirection(Right);
    }

    /** `goUp`. */
    method GoUp()
      requires Valid()
      modifies direction
      ensures Valid() && direction.directions == Added(old(direction.directions), Up)
    {
      SetDirection(Up);
    }

    /** `goDown`. */
    method GoDown()
      requires Valid()
      modifies direction
      ensures Valid() && direction.directions == Added(old(direction.directions), Down)
    {
      SetDirection(Down);
    }
  }

  /**
   * One game step moves the body: the tail goes and the next index is added.
   * The length stays unless the next index is already in the remaining body,
   * in which case the set ignores it and the body shrinks by one.
   */
  lemma StepLength(body: seq<int>, next: int)
    requires |body| > 0 && Distinct(body)
    ensures Distinct(Insert(body[1..], next))
    ensures |Insert(body[1..], next)| == if next in body[1..] then |body| - 1 else |body|
    ensures Insert(body[1..], next)[|Insert(body[1..], next)| - 1] == (if next in body[1..] then body[|body| - 1] else next)
  {
  }
}

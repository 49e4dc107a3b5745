/**
 * The game of js/modules/Game.mjs: the end flags, the time of the last move
 * and one step of the game, `#update`, which moves the snake when its delay
 * has elapsed. The animation-frame loop that calls `#update`, the display and
 * the win/loss messages are not modelled; timestamps are parameters.
 */
module Games {
  import opened Wrappers
  import opened Blocks
  import opened Grids
  import opened Directions
  import opened Speeds
  import opened Snakes
  import opened OrderedSets

  /**
   * The cell kinds after the marking loop of `#update` walks `body` in order,
   * turning each of its cells into body.
   */
  function Marked(ks: seq<Kind>, body: seq<int>): (r: seq<Kind>)
    requires forall k :: 0 <= k < |body| ==> 0 <= body[k] < |ks|
    ensures |r| == |ks|
    ensures forall i :: 0 <= i < |ks| ==> r[i] == (if i in body then Body else ks[i])
  {
    if |body| == 0 then ks
    else
      var init := body[..|body| - 1];
      assert body == init + [body[|body| - 1]];
      Marked(ks, init)[body[|body| - 1] := Body]
  }

  /** Walls stand exactly on `walls`, and no body index is a wall. */
  predicate Intact(ks: seq<Kind>, walls: set<int>, body: seq<int>) {
    && (forall i :: 0 <= i < |ks| ==> (ks[i] == Wall <==> i in walls))
    && (forall k :: 0 <= k < |body| ==> body[k] !in walls)
  }

  /** The body after one move stays on the board and off the walls when the old body and the next index do. */
  lemma {:induction false} MovedBodyAvoidsWalls(ks: seq<Kind>, walls: set<int>, body: seq<int>, next: int)
    requires |body| > 0 && forall k :: 0 <= k < |body| ==> 0 <= body[k] < |ks| && body[k] !in walls
    requires 0 <= next < |ks| && next !in walls
    ensures forall k :: 0 <= k < |Insert(body[1..], next)| ==>
              0 <= Insert(body[1..], next)[k] < |ks| && Insert(body[1..], next)[k] !in walls
  {
    var nb := Insert(body[1..], next);
    forall k | 0 <= k < |nb|
      ensures 0 <= nb[k] < |ks| && nb[k] !in walls
    {
      assert nb[k] in nb;
      if nb[k] != next {
        var m :| 0 <= m < |body[1..]| && body[1..][m] == nb[k];
        assert body[m + 1] == nb[k];
      }
    }
  }

  /**
   * One move keeps the walls: emptying the tail, adding a next cell that is
   * not a wall, and marking the new body leaves every wall a wall and
   * turns no other cell into one.
   */
  lemma {:induction false} MoveKeepsWalls(ks: seq<Kind>, walls: set<int>, body: seq<int>, next: int)
    requires |body| > 0 && forall k :: 0 <= k < |body| ==> 0 <= body[k] < |ks|
    requires 0 <= next < |ks| && ks[next] != Wall
    requires Intact(ks, walls, body)
    ensures forall k :: 0 <= k < |Insert(body[1..], next)| ==> 0 <= Insert(body[1..], next)[k] < |ks|
    ensures Intact(Marked(ks[body[0] := Empty], Insert(body[1..], next)), walls, Insert(body[1..], next))
  {
    var nb := Insert(body[1..], next);
    assert next !in walls;
    MovedBodyAvoidsWalls(ks, walls, body, next);
    var emptied := ks[body[0] := Empty];
    var after := Marked(emptied, nb);
    forall i | 0 <= i < |ks|
      ensures after[i] == Wall <==> i in walls
    {
      if i in nb {
        var m :| 0 <= m < |nb| && nb[m] == i;
        assert after[i] == Body && i !in walls;
      } else if i == body[0] {
        assert after[i] == Empty && i !in walls;
      } else {
        assert after[i] == ks[i];
      }
    }
    assert forall k :: 0 <= k < |nb| ==> nb[k] !in walls;
    assert Intact(after, walls, nb);
  }

  class Game {
    var lastTick: real
    var lastUpdate: real
    var ended: bool
    var won: bool
    var lost: bool
    const grid: Grid
    const snake: Snake
    const speed: Speed

    /** The snake lives on this game's board, is valid, and has a body. */
    ghost predicate Valid()
      reads this, grid, grid.cells, snake, snake.direction
    {
      snake.grid == grid && snake.Valid() && |snake.blocks| > 0
    }

    /** The walls stand where the board was built with them, and the body avoids them. */
    ghost predicate WallsIntact()
      requires Valid()
      reads this, grid, grid.cells, grid.Blocks(), snake, snake.direction
    {
      Intact(grid.Kinds(), grid.walls, snake.blocks)
    }

    /** `new Game(grid, snake, canvas, speed)`: nothing has ended and no time has passed. */
    constructor (grid: Grid, snake: Snake, speed: Speed)
      requires snake.grid == grid && snake.Valid() && |snake.blocks| > 0
      ensures this.grid == grid && this.snake == snake && this.speed == speed && Valid()
      ensures !ended && !won && !lost && lastTick == 0.0 && lastUpdate == 0.0
    {
      this.grid := grid;
      this.snake := snake;
      this.speed := speed;
      lastTick := 0.0;
      lastUpdate := 0.0;
      ended := false;
      won := false;
      lost := false;
    }

    /** `setEnded`. */
    method SetEnded()
      modifies this`ended
      ensures ended
    {
      ended := true;
    }

    /** `setWon`: won and ended; `lost` keeps its value. */
    method SetWon()
      modifies this`won, this`ended
      ensures won && ended
    {
      won := true;
      SetEnded();
    }

    /** `setLost`: lost and ended; `won` keeps its value. */
    method SetLost()
      modifies this`lost, this`ended
      ensures lost && ended
    {
      lost := true;
      SetEnded();
    }

    /** `reset`: clears the three flags and resets board, snake and speed. */
    method Reset()
      requires Valid()
      modifies this`won, this`ended, this`lost, grid, snake, speed
      ensures !won && !ended && !lost
      ensures Valid() && grid.level == old(grid.level) && grid.walls == LevelBlocks(grid.level) && grid.Fresh()
      ensures snake.blocks == FromSeq(snake.initialBlocks)
      ensures snake.headIdx == snake.initialBlocks[|snake.initialBlocks| - 1] && snake.HeadLinked()
      ensures snake.direction.directions == [Right] && !snake.accelerate && snake.status == old(snake.status)
      ensures speed.current == speed.maxSpeed
    {
      won := false;
      ended := false;
      lost := false;
      grid.Reset();
      snake.Reset();
      speed.Reset();
    }

    /** After `reset` the walls are intact when the initial body avoids them. */
    lemma ResetKeepsWalls()
      requires Valid() && grid.Fresh() && snake.blocks == FromSeq(snake.initialBlocks)
      requires grid.walls == LevelBlocks(grid.level)
      requires forall k :: 0 <= k < |snake.initialBlocks| ==> snake.initialBlocks[k] !in LevelBlocks(grid.level)
      ensures WallsIntact()
    {
      forall k | 0 <= k < |snake.blocks|
        ensures snake.blocks[k] !in LevelBlocks(grid.level)
      {
        assert snake.blocks[k] in snake.initialBlocks;
      }
    }

    /** `setLevel`: the board switches to `level` and is rebuilt. */
    method SetLevel(level: int)
      requires Valid()
      modifies grid
      ensures Valid() && grid.level == level && grid.walls == LevelBlocks(level) && grid.Fresh()
      ensures snake.headRef !in grid.Blocks() && !snake.HeadLinked()
    {
      grid.SetLevel(level);
    }

    /** The loop at the end of `#update`: every cell of the body becomes body; nothing else changes. */
    method MarkBody()
      requires Valid()
      modifies grid.Blocks()
      ensures Valid()
      ensures grid.Kinds() == Marked(old(grid.Kinds()), snake.blocks)
      ensures grid.Heads() == old(grid.Heads())
    {
      for k := 0 to |snake.blocks|
        invariant grid.Kinds() == Marked(old(grid.Kinds()), snake.blocks[..k])
        invariant grid.Heads() == old(grid.Heads())
      {
        var block := grid.GetBlockByLinearId(snake.blocks[k]);
        block.UpdateAsBody();
        assert snake.blocks[..k + 1][..k] == snake.blocks[..k];
      }
      assert snake.blocks[..|snake.blocks|] == snake.blocks;
    }

    /**
     * The moving half of `#update`, after the speed ramp: the tail goes, the
     * head advances to the free next cell, and the body is marked.
     */
    method Advance()
      requires Valid() && snake.Blocked() == None
      modifies snake, snake.direction, snake.headRef, grid.Blocks()
      ensures Valid()
      ensures snake.blocks == Insert(old(snake.blocks)[1..], old(snake.NextLinear()))
      ensures snake.headIdx == old(snake.NextLinear()) && snake.status == old(snake.status)
      ensures snake.accelerate == old(snake.accelerate) && snake.direction == old(snake.direction)
      ensures snake.direction.directions == Popped(old(snake.direction.directions))
      ensures grid.Kinds() == Marked(old(grid.Kinds())[old(snake.blocks[0]) := Empty], snake.blocks)
      ensures snake.HeadLinked()
      ensures grid.Heads() == old(grid.HeadsWithout(snake.headRef))[snake.headIdx := true]
      ensures old(snake.HeadLinked()) ==>
                grid.Heads() == old(grid.Heads())[old(snake.headIdx) := false][snake.headIdx := true]
      ensures old(WallsIntact()) ==> WallsIntact()
    {
      ghost var ks, walls, body, next := grid.Kinds(), grid.walls, snake.blocks, snake.NextLinear();
      ghost var intact := WallsIntact();
      snake.FreeIsOnBoard();
      Shift();
      MarkBody();
      if intact {
        MoveKeepsWalls(ks, walls, body, next);
      }
    }

    /** `removeTail` then `appendHead` on a snake that can move: the body shifts by one cell. */
    method Shift()
      requires Valid() && snake.Blocked() == None
      modifies snake, snake.direction, snake.headRef, grid.Blocks()
      ensures Valid() && grid.walls == old(grid.walls)
      ensures 0 <= old(snake.NextLinear()) < grid.Size()
      ensures snake.blocks == Insert(old(snake.blocks)[1..], old(snake.NextLinear()))
      ensures snake.headIdx == old(snake.NextLinear()) && snake.status == old(snake.status)
      ensures snake.accelerate == old(snake.accelerate) && snake.direction == old(snake.direction)
      ensures snake.direction.directions == Popped(old(snake.direction.directions))
      ensures grid.Kinds() == old(grid.Kinds())[old(snake.blocks[0]) := Empty]
      ensures snake.HeadLinked()
      ensures grid.Heads() == old(grid.HeadsWithout(snake.headRef))[snake.headIdx := true]
      ensures old(snake.HeadLinked()) ==>
                grid.Heads() == old(grid.Heads())[old(snake.headIdx) := false][snake.headIdx := true]
    {
      snake.FreeIsOnBoard();
      assert grid.At(snake.blocks[0]) in grid.Blocks();
      ghost var linked, cleared := snake.HeadLinked(), grid.HeadsWithout(snake.headRef);
      snake.RemoveTail();
      assert snake.HeadLinked() == linked && grid.HeadsWithout(snake.headRef) == cleared;
      snake.AppendHead();
    }

    /** The speed ramp of `#update`: shorter delay when acceleration is requested, longer otherwise. */
    method Ramp()
      requires Valid()
      modifies speed
      ensures speed.current == (if snake.accelerate then Increased(old(speed.current), speed.maxSpeed)
                                else Decreased(old(speed.current), speed.minSpeed))
    {
      if snake.accelerate {
        speed.Increase();
      } else {
        speed.Decrease();
      }
    }

    /** The end of `#update` for a snake that can move: the speed ramps, then the snake advances. */
    method RampAndAdvance()
      requires Valid() && snake.Blocked() == None
      modifies speed, snake, snake.direction, snake.headRef, grid.Blocks()
      ensures Valid()
      ensures speed.current == (if old(snake.accelerate) then Increased(old(speed.current), speed.maxSpeed)
                                else Decreased(old(speed.current), speed.minSpeed))
      ensures snake.blocks == Insert(old(snake.blocks)[1..], old(snake.NextLinear()))
      ensures snake.headIdx == old(snake.NextLinear()) && snake.status == old(snake.status)
      ensures snake.accelerate == old(snake.accelerate) && snake.direction == old(snake.direction)
      ensures snake.direction.directions == Popped(old(snake.direction.directions))
      ensures grid.Kinds() == Marked(old(grid.Kinds())[old(snake.blocks[0]) := Empty], snake.blocks)
      ensures snake.HeadLinked()
      ensures grid.Heads() == old(grid.HeadsWithout(snake.headRef))[snake.headIdx := true]
      ensures old(snake.HeadLinked()) ==>
                grid.Heads() == old(grid.Heads())[old(snake.headIdx) := false][snake.headIdx := true]
      ensures old(WallsIntact()) ==> WallsIntact()
    {
      ghost var ks, body, next, dirs := grid.Kinds(), snake.blocks, snake.NextLinear(), snake.direction.directions;
      ghost var intact, hs, linked := WallsIntact(), grid.Heads(), snake.HeadLinked();
      ghost var cleared := grid.HeadsWithout(snake.headRef);
      Ramp();
      assert Valid() && snake.Blocked() == None;
      assert grid.Kinds() == ks && snake.blocks == body && snake.NextLinear() == next;
      assert snake.direction.directions == dirs && WallsIntact() == intact && grid.Heads() == hs;
      assert snake.HeadLinked() == linked && grid.HeadsWithout(snake.headRef) == cleared;
      Advance();
    }

    /**
     * The check at the head of a move in `#update`: a snake that cannot move
     * loses the game; the move stops when the game has ended.
     */
    method CheckMove() returns (stop: bool)
      requires Valid()
      modifies this`lost, this`ended, snake`status
      ensures Valid() && snake.Blocked() == old(snake.Blocked()) && stop == ended
      ensures old(snake.Blocked()).Some? ==> lost && ended && snake.status == old(snake.Blocked()).value
      ensures old(snake.Blocked()) == None ==>
                lost == old(lost) && ended == old(ended) && snake.status == old(snake.status)
    {
      var ok := snake.CanMove();
      if !ok {
        SetLost();
      }
      stop := ended;
    }

    /**
     * The part of `#update(currentTick)` that runs once the delay has
     * elapsed: the move is timed at `t`, a blocked snake loses the game, and
     * an ended game asks the loop to stop; otherwise the speed ramps and the
     * snake advances.
     */
    method Step(t: real) returns (exit: bool)
      requires Valid()
      modifies this`lastUpdate, this`lost, this`ended, speed, snake, snake.direction, snake.headRef, grid.Blocks()
      ensures Valid() && lastUpdate == t
      ensures snake.accelerate == old(snake.accelerate) && snake.direction == old(snake.direction)
      ensures old(snake.Blocked()).Some? ==>
                && exit && lost && ended && snake.status == old(snake.Blocked()).value
                && speed.current == old(speed.current) && snake.blocks == old(snake.blocks)
                && snake.headIdx == old(snake.headIdx) && snake.headRef == old(snake.headRef)
                && snake.direction.directions == old(snake.direction.directions)
                && grid.Kinds() == old(grid.Kinds()) && grid.Heads() == old(grid.Heads())
      ensures old(snake.Blocked()) == None && old(ended) ==>
                && exit && ended && lost == old(lost) && snake.status == old(snake.status)
                && speed.current == old(speed.current) && snake.blocks == old(snake.blocks)
                && snake.headIdx == old(snake.headIdx) && snake.headRef == old(snake.headRef)
                && snake.direction.directions == old(snake.direction.directions)
                && grid.Kinds() == old(grid.Kinds()) && grid.Heads() == old(grid.Heads())
      ensures old(snake.Blocked()) == None && !old(ended) ==>
                && !exit && !ended && lost == old(lost) && snake.status == old(snake.status)
                && speed.current == (if old(snake.accelerate) then Increased(old(speed.current), speed.maxSpeed)
                                     else Decreased(old(speed.current), speed.minSpeed))
                && snake.blocks == Insert(old(snake.blocks)[1..], old(snake.NextLinear()))
                && snake.headIdx == old(snake.NextLinear())
                && snake.direction.directions == Popped(old(snake.direction.directions))
                && grid.Kinds() == Marked(old(grid.Kinds())[old(snake.blocks[0]) := Empty], snake.blocks)
                && snake.HeadLinked()
                && grid.Heads() == old(grid.HeadsWithout(snake.headRef))[snake.headIdx := true]
                && (old(snake.HeadLinked()) ==>
                      grid.Heads() == old(grid.Heads())[old(snake.headIdx) := false][snake.headIdx := true])
      ensures old(WallsIntact()) ==> WallsIntact()
    {
      ghost var ks, body, next, dirs := grid.Kinds(), snake.blocks, snake.NextLinear(), snake.direction.directions;
      ghost var intact, hs, linked := WallsIntact(), grid.Heads(), snake.HeadLinked();
      ghost var cleared := grid.HeadsWithout(snake.headRef);
      lastUpdate := t;
      var stop := CheckMove();
      if stop {
        return true;
      }
      assert Valid() && snake.Blocked() == None;
      assert grid.Kinds() == ks && snake.blocks == body && snake.NextLinear() == next;
      assert snake.direction.directions == dirs && WallsIntact() == intact && grid.Heads() == hs;
      assert snake.HeadLinked() == linked && grid.HeadsWithout(snake.headRef) == cleared;
      exit := false;
      RampAndAdvance();
    }

    /**
     * `#update(currentTick)`. Nothing happens until more than the current
     * delay has passed since the last move; then `Step` runs.
     */
    method Update(t: real) returns (exit: bool)
      requires Valid()
      modifies this`lastUpdate, this`lost, this`ended, speed, snake, snake.direction, snake.headRef, grid.Blocks()
      ensures Valid()
      ensures t - old(lastUpdate) <= old(speed.current) ==>
                && !exit && lastUpdate == old(lastUpdate) && ended == old(ended) && lost == old(lost)
                && unchanged(speed, snake) && unchanged(snake.direction, snake.headRef) && unchanged(grid.Blocks())
      ensures t - old(lastUpdate) > old(speed.current) ==> lastUpdate == t
      ensures snake.accelerate == old(snake.accelerate) && snake.direction == old(snake.direction)
      ensures t - old(lastUpdate) > old(speed.current) && old(snake.Blocked()).Some? ==>
                && exit && lost && ended && snake.status == old(snake.Blocked()).value
                && speed.current == old(speed.current) && snake.blocks == old(snake.blocks)
                && snake.headIdx == old(snake.headIdx) && snake.headRef == old(snake.headRef)
                && snake.direction.directions == old(snake.direction.directions)
                && grid.Kinds() == old(grid.Kinds()) && grid.Heads() == old(grid.Heads())
      ensures t - old(lastUpdate) > old(speed.current) && old(snake.Blocked()) == None && old(ended) ==>
                && exit && ended && lost == old(lost) && snake.status == old(snake.status)
                && speed.current == old(speed.current) && snake.blocks == old(snake.blocks)
                && snake.headIdx == old(snake.headIdx) && snake.headRef == old(snake.headRef)
                && snake.direction.directions == old(snake.direction.directions)
                && grid.Kinds() == old(grid.Kinds()) && grid.Heads() == old(grid.Heads())
      ensures t - old(lastUpdate) > old(speed.current) && old(snake.Blocked()) == None && !old(ended) ==>
                && !exit && !ended && lost == old(lost) && snake.status == old(snake.status)
                && speed.current == (if old(snake.accelerate) then Increased(old(speed.current), speed.maxSpeed)
                                     else Decreased(old(speed.current), speed.minSpeed))
                && snake.blocks == Insert(old(snake.blocks)[1..], old(snake.NextLinear()))
                && snake.headIdx == old(snake.NextLinear())
                && snake.direction.directions == Popped(old(snake.direction.directions))
                && grid.Kinds() == Marked(old(grid.Kinds())[old(snake.blocks[0]) := Empty], snake.blocks)
                && snake.HeadLinked()
                && grid.Heads() == old(grid.HeadsWithout(snake.headRef))[snake.headIdx := true]
                && (old(snake.HeadLinked()) ==>
                      grid.Heads() == old(grid.Heads())[old(snake.headIdx) := false][snake.headIdx := true])
      ensures old(WallsIntact()) ==> WallsIntact()
    {
      exit := false;
      var delta := t - lastUpdate;
      if delta > speed.current {
        exit := Step(t);
      }
    }
  }
}

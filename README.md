# Snake game core, modelled in Dafny

A model of the simulation core of a browser snake game written in JavaScript.
The game board is a `rows × cols` grid of cells, each a `Block` with a kind
(empty, food, wall or body) and a head flag. The walls come from one of three
level layouts. A `Snake` keeps its body as an insertion-ordered set of linear
cell indices, oldest first, and holds a head index, a reference to the head's
cell, a buffer of pending directions, a status and an acceleration request.
`Game.#update` runs from the animation-frame loop whenever more than 1000/60
ms have passed since the last tick. Once the current delay has elapsed, it checks whether the snake can move. If the snake cannot move, the
game is lost and ended. Otherwise the step ramps the speed, drops the tail,
appends the next cell as the new head, and marks every body cell as body.
`Speed` holds that delay and ramps it by 30% within two bounds. `Food` draws
a random index that is neither wall nor body and marks that cell as food; the
draw may also be one past the last cell, which places no food (see
Findings). `Point` is a score counter.

Each source file is one module:

| module | file | form |
|---|---|---|
| `GridUtils` | js/modules/utils/GridUtils.mjs | functions and lemmas |
| `MathUtils` | js/modules/utils/MathUtils.mjs | functions; methods for the loop and the random draws |
| `Levels` | js/modules/Levels.mjs | closed-form sets, plus the getters' loops as methods |
| `Blocks` | js/modules/Block.mjs | class `Block` |
| `Grids` | js/modules/Grid.mjs | class `Grid` over an `array2` of cells |
| `Directions` | js/modules/Direction.mjs | class `Direction`, plus the buffer as values |
| `Speeds` | js/modules/Speed.mjs | class `Speed` |
| `Snakes` | js/modules/Snake.mjs | class `Snake` |
| `Foods` | js/modules/Food.mjs | class `Food` |
| `Points` | js/modules/Point.mjs | class `Point` |
| `Games` | js/modules/Game.mjs | class `Game` |

`OrderedSets` models a JavaScript `Set` of numbers as a sequence without
repetitions, kept in insertion order. `Wrappers` holds `Option`.

The classes carry the source's own fields and update them in place. Each
method states the new state in terms of the old one. Specification functions
summarise the board: `Grid.Kinds()` gives every cell's kind and
`Grid.Heads()` every cell's head flag, both by linear index.
`Snake.HeadLinked()` says that the snake's head reference is the board's cell
at its head index: `reset` and a move establish it, and `Grid.setLevel` breaks
it until the next `reset` or move, because the board gets new cells. A move
clears the flag of the old `headRef` and sets the flag of the new head cell
whether or not the link held; `Grid.HeadsWithout(b)` gives the board's head
flags with the flag of `b` cleared, which after `setLevel` are the board's
flags unchanged, since `b` is then a cell of the old board. The snake step is
specified with `Snake.NextIndex()`, `Snake.Blocked()`, `OrderedSets.Insert`,
`Directions.Popped`, `Speeds.Increased`/`Decreased` and `Games.Marked`.

Three places where the code differs from what its comments or call sites
suggest:

- The direction buffer checks a new direction only against its newest entry
  (js/modules/Direction.mjs:49-54), not against the entry that executes next.
  The model follows the code. `Directions.RunKeepsChain` shows that adjacent
  entries always stay at right angles. From that, `Directions.NeverReverses`
  shows that one call never turns the executed direction into its opposite.
- The worked examples in the comments of js/modules/utils/GridUtils.mjs:14
  and 25-26 do not match the formulas. The model follows the formulas, and
  `GridUtils.CommentExamples` states the difference.
- `Grid.getLevelBlocks` indexes the `Levels` class as if it were an array
  (js/modules/Grid.mjs:55-56). `Food.generate` reads `snake.blocks`
  (js/modules/Food.mjs:26), which `Snake` does not expose. The model takes the
  evident intent in both cases. The catalog is `[Level01, Level02, Level03]`,
  and an ordinal outside it selects the last level. `Food` reads the snake's
  body.

## Model

| member | source | states |
|---|---|---|
| GridUtils.LinearIdx | js/modules/utils/GridUtils.mjs:19-21 | the row-major index `row * cols + col`. This function has no contract of its own: `RowOrder`, `LinearIdxInjective`, `OnBoard` and `RoundTripFrom2d` state its properties, and `Get2dIdx` is its inverse |
| GridUtils.Get2dIdx | js/modules/utils/GridUtils.mjs:31-36 | for `idx >= 0` the column lies in `[0, cols)`, the row is non-negative, and mapping back with `getLinearIdx` gives `idx`: a non-negative index survives the round trip |
| GridUtils.RoundTripFrom2d | js/modules/utils/GridUtils.mjs:19-36 | an on-board (row, col) maps to a linear index and back to itself |
| GridUtils.LinearIdxInjective | js/modules/utils/GridUtils.mjs:19-21 | with the column in range, the linear index determines both row and column |
| GridUtils.RowBound | js/modules/utils/GridUtils.mjs:31-36 | a non-negative index is below `rows*cols` exactly when its row is below `rows` |
| GridUtils.OnBoard | js/modules/utils/GridUtils.mjs:19-21 | with the column in range, the row is on the board exactly when the linear index is in `[0, rows*cols)` |
| GridUtils.CommentExamples | js/modules/utils/GridUtils.mjs:14-26 | on a board 3 wide, (2, 0) maps to 6, not 7, and 7 maps to (2, 1), not (2, 0) |
| MathUtils.Ceil | js/modules/utils/MathUtils.mjs:8 | `Math.ceil`: the least integer at or above `x` |
| MathUtils.RandomInt | js/modules/utils/MathUtils.mjs:7-11 | the draw lies in `[ceil(from), floor(to)]` when that range is non-empty, and in `[floor(to)+1, ceil(from)]` when it is empty |
| MathUtils.RandomWithoutExcluded | js/modules/utils/MathUtils.mjs:19-24 | the result is not excluded and is a value `getRandomInt(from, to)` can draw: in `[from, to]` when `from <= to`, in `[to + 1, from]` otherwise |
| MathUtils.ListNumbers | js/modules/utils/MathUtils.mjs:32-34 | yields `from, from+1, …, to`: `to - from + 1` values, or none when `from > to` |
| MathUtils.Percent | js/modules/utils/MathUtils.mjs:40-42 | `r * 100 == value * percent`; for a percentage in [0, 100] of a non-negative value, `0 <= r <= value` |
| Levels.Level01 | js/modules/Levels.mjs:5-7 | level 1 has no walls |
| Levels.Catalog | js/modules/Levels.mjs:3-41 | the catalog holds the three levels |
| Levels.AddSpan | js/modules/Levels.mjs:13-14 | one `getListNumbers` loop adds exactly the indices `lo..hi` |
| Levels.AddColumn | js/modules/Levels.mjs:16-17 | one column loop adds exactly the indices `start + 32k` up to 624 |
| Levels.BuildLevel02 | js/modules/Levels.mjs:10-20 | the getter's four loops build exactly the union of rows 101..122 and 645..666 and columns `144+32k` and `143+32k` |
| Levels.BuildLevel03 | js/modules/Levels.mjs:23-41 | the getter builds exactly (Level02 ∪ the eight added cells) minus the four doors |
| Levels.StrideExtend | js/modules/Levels.mjs:13-17 | one more loop iteration adds its index exactly when that index is on the step |
| Levels.SpanSize | js/modules/Levels.mjs:13-14 | `lo..hi` has `hi - lo + 1` elements |
| Levels.StrideSize | js/modules/Levels.mjs:16-17 | `n` steps of 32 visit `n` distinct cells |
| Levels.ColumnsOfLevel02 | js/modules/Levels.mjs:16-17 | each column loop adds 16 cells |
| Levels.Level02Size | js/modules/Levels.mjs:10-20 | level 2 holds 101, 122, 645 and 666, and its four families are disjoint, giving 76 cells |
| Levels.DoorsInLevel02 | js/modules/Levels.mjs:35-38 | the four removed door cells are walls of level 2 |
| Levels.PillarsOutsideLevel02 | js/modules/Levels.mjs:26-33 | none of the eight added cells is a wall of level 2 |
| Levels.DoorsAndPillarsSize | js/modules/Levels.mjs:26-38 | the doors are 4 distinct cells and the added cells 8 |
| Levels.PatchSize | js/modules/Levels.mjs:23-41 | adding absent cells and deleting present ones changes the size by exactly their counts |
| Levels.Level03Size | js/modules/Levels.mjs:23-41 | level 3 has 76 + 8 - 4 = 80 cells |
| Blocks.Block.constructor | js/modules/Block.mjs:30-32 | a new cell has the given kind (empty by default), its index, and no head flag |
| Blocks.Block.SetType | js/modules/Block.mjs:53-56 | changes the kind only |
| Blocks.Block.SetIsHead | js/modules/Block.mjs:63-66 | changes the head flag only |
| Blocks.Block.UpdateAsEmpty | js/modules/Block.mjs:68-71 | the kind becomes empty; the head flag is kept |
| Blocks.Block.UpdateAsBody | js/modules/Block.mjs:73-76 | the kind becomes body; the head flag is kept |
| Blocks.Block.UpdateAsFood | js/modules/Block.mjs:78-81 | the kind becomes food; the head flag is kept |
| Blocks.BodyExcludesWall | js/modules/Block.mjs:83-89 | `isBody` iff the kind is body, `isWall` iff it is wall, never both |
| Grids.LevelBlocks | js/modules/Grid.mjs:54-57 | the wall set of the current ordinal when the catalog has one, otherwise the last level's |
| Grids.Grid.GetBlockByXY | js/modules/Grid.mjs:70-72 | absent exactly when row or column is off the board; otherwise the cell carrying that (row, col)'s linear index |
| Grids.Grid.GetBlockByLinearId | js/modules/Grid.mjs:78-81 | absent exactly when `idx` is outside `[0, rows*cols)`; otherwise the cell carrying index `idx` |
| Grids.Grid.Populate | js/modules/Grid.mjs:34-52 | a fresh `rows × cols` array of fresh cells; each carries its linear index, is a wall iff that index is in the level set and empty otherwise, and has no head flag |
| Grids.Grid.PopulatedIsFresh | js/modules/Grid.mjs:38-52 | such an array makes a valid board in which every cell shows exactly the level's walls |
| Grids.Grid.constructor | js/modules/Grid.mjs:21-28 | a valid board of level 0 with exactly `rows × cols` fresh cells showing level 0's walls |
| Grids.Grid.Reset | js/modules/Grid.mjs:83-87 | keeps the level and rebuilds a board of fresh cells: previous body, food and head marks are gone, only the level's walls remain |
| Grids.Grid.SetLevel | js/modules/Grid.mjs:59-63 | records the level and rebuilds the board with that level's walls |
| Grids.DistinctCells | js/modules/Grid.mjs:38-52 | cells with different linear indices are different objects |
| Grids.HeadsWithoutCell | js/modules/Grid.mjs:38-52 | clearing the head flag of the cell at one index changes the flags at that index alone |
| Grids.HeadsWithoutStranger | js/modules/Grid.mjs:59-63 | clearing the flag of a cell that is not on the board, such as a cell of the board before a rebuild, changes no flag |
| Directions.Direction.constructor | js/modules/Direction.mjs:15-18 | the buffer is `[default]` (Right by default) with size 1 |
| Directions.Direction.Push | js/modules/Direction.mjs:42-45 | prepends the direction and keeps the size equal to the length |
| Directions.Direction.Pop | js/modules/Direction.mjs:21-24 | removes and returns the oldest entry and keeps the size equal to the length |
| Directions.Direction.Add | js/modules/Direction.mjs:48-56 | no change when the direction repeats or reverses the newest entry; otherwise it is prepended; the size equals the length, is at least 1, and adjacent entries stay at right angles |
| Directions.Direction.RemoveLast | js/modules/Direction.mjs:59-61 | drops the oldest entry exactly when there are at least two |
| Directions.Direction.Peek | js/modules/Direction.mjs:64-66 | `Array.at`: defined exactly for levels in `[-length, length)`; the default gives the oldest entry |
| Directions.AddedKeepsChain | js/modules/Direction.mjs:48-56 | `add` keeps adjacent entries at right angles |
| Directions.RunKeepsChain | js/modules/Direction.mjs:48-61 | any sequence of `add` and `removeLast` calls keeps adjacent entries at right angles |
| Directions.AddsKeepOldest | js/modules/Direction.mjs:48-56 | no sequence of `add` calls changes the entry executed next |
| Directions.ApplyNeverReverses | js/modules/Direction.mjs:48-61 | one call never makes the executed direction the opposite of the previous one |
| Directions.NeverReverses | js/modules/Direction.mjs:48-61 | after any prefix of any call sequence, the next call does not reverse the executed direction |
| Speeds.Speed.constructor | js/modules/Speed.mjs:18-22 | the delay starts at `min`, the longer delay; with `0 <= max <= min` it lies in range |
| Speeds.Speed.Increase | js/modules/Speed.mjs:28-33 | the delay becomes 30% shorter, clamped to `max`; it stays in range and never grows |
| Speeds.Speed.Decrease | js/modules/Speed.mjs:35-40 | the delay becomes 30% longer, clamped to `min`; it stays in range and never shrinks |
| Speeds.Speed.Reset | js/modules/Speed.mjs:42-44 | the delay becomes `max`, the shortest |
| Speeds.IncreasedClosedForm | js/modules/Speed.mjs:28-33 | `increase` gives `0.7 × current` when that exceeds `max`, else `max` |
| Speeds.DecreasedClosedForm | js/modules/Speed.mjs:35-40 | `decrease` gives `1.3 × current` when that is below `min`, else `min` |
| Speeds.IncreasedBounds | js/modules/Speed.mjs:28-33 | from a delay at or above `max`, `increase` stays between `max` and the old delay |
| Speeds.DecreasedBounds | js/modules/Speed.mjs:35-40 | from a delay at or below `min`, `decrease` stays between the old delay and `min` |
| Speeds.RampFixpoints | js/modules/Speed.mjs:28-40 | `increase` at `max` stays at `max`; `decrease` at `min` stays at `min` |
| Speeds.IncreaseProgresses | js/modules/Speed.mjs:28-33 | a delay above `max` strictly shrinks under `increase` |
| Speeds.IncreaseReachesMaxWithin | js/modules/Speed.mjs:28-33 | a delay at most `k × 0.3 × max` above a positive `max` reaches `max` within `k` calls of `increase` |
| Speeds.IncreaseReachesMax | js/modules/Speed.mjs:28-33 | repeated `increase` reaches a positive `max` after finitely many calls |
| Speeds.DecreaseReachesMinWithin | js/modules/Speed.mjs:35-40 | a delay at most `k × 0.3 × low` below `min`, where `low` is a positive lower bound of the delay, reaches `min` within `k` calls of `decrease` |
| Speeds.DecreaseReachesMin | js/modules/Speed.mjs:35-40 | repeated `decrease` reaches `min` after finitely many calls from a positive delay |
| Speeds.RepeatedStaysInRange | js/modules/Speed.mjs:28-40 | any number of `increase` calls stays between `max` and the start; any number of `decrease` calls stays between the start and `min`: no overshoot |
| Points.Point.constructor | js/modules/Point.mjs:17-19 | holds its argument, 0 by default |
| Points.Point.ValueOf | js/modules/Point.mjs:21-27 | `valueOf()` and `point` give the stored value |
| Points.Point.Increment | js/modules/Point.mjs:29-32 | adds exactly 1 |
| Points.Point.Decrement | js/modules/Point.mjs:34-37 | subtracts exactly 1 |
| Points.IncrementThenDecrement | js/modules/Point.mjs:29-37 | `increment` then `decrement` restores the value |
| OrderedSets.Insert | js/modules/Snake.mjs:109 | `Set.add`: a new element goes last, a present one leaves the set unchanged; membership is the old set plus the element, and no element repeats |
| OrderedSets.FromSeq | js/modules/Snake.mjs:133 | `new Set(xs)` holds exactly the elements of `xs`, none twice, and no more elements than `xs` has |
| OrderedSets.FromSeqFirstOccurrence | js/modules/Snake.mjs:133 | `new Set(xs)` lists its elements in the order of their first occurrence in `xs` |
| OrderedSets.FromDistinct | js/modules/Snake.mjs:133 | `new Set(xs)` of repetition-free `xs` is `xs` in its own order |
| Snakes.Move | js/modules/Snake.mjs:60-65 | the `move` table: the result is a neighbour of the cell, one column left or right in the same row, or one row up or down in the same column |
| Snakes.MoveOpposite | js/modules/Snake.mjs:60-65 | the opposite move comes back to the cell |
| Snakes.MoveOffBoard | js/modules/Snake.mjs:60-65 | from an on-board cell a move leaves the board exactly when it crosses the edge it faces; there is no wraparound |
| Snakes.Snake.constructor | js/modules/Snake.mjs:34-39 | records the initial body and performs `reset`; the status starts Active |
| Snakes.Snake.Reset | js/modules/Snake.mjs:132-138 | the body is `new Set(initial)` (the initial body itself when repetition-free), the head is its last index and that cell, the buffer is a fresh `[Right]`, no acceleration; the status and the board are untouched |
| Snakes.Snake.SetOnGrid | js/modules/Snake.mjs:133 | a set built from on-board indices is on the board and repetition-free |
| Snakes.Snake.IncreaseSpeed | js/modules/Snake.mjs:49-51 | acceleration is requested |
| Snakes.Snake.DecreaseSpeed | js/modules/Snake.mjs:53-55 | the request is withdrawn |
| Snakes.Snake.NextIndex | js/modules/Snake.mjs:58-68 | the head's (row, col) moved one step by the buffer's oldest entry, so the opposite step leads back to the head |
| Snakes.Snake.FreeIsOnBoard | js/modules/Snake.mjs:118-130 | when nothing blocks, the next cell is on the board and is neither wall nor body |
| Snakes.Snake.CanMove | js/modules/Snake.mjs:118-130 | returns true exactly when the next cell exists and is neither body nor wall; otherwise sets the status to DeadByMapOverflow, DeadByWall or DeadByBody; nothing else changes |
| Snakes.Snake.RemoveTail | js/modules/Snake.mjs:97-103 | drops exactly the oldest body index, keeps the rest in order, and empties that cell and no other; head flags unchanged |
| Snakes.Snake.AppendHead | js/modules/Snake.mjs:105-115 | when blocked only the status changes, to the cause; otherwise the next index is added to the body set and becomes the head, `headRef` becomes its cell, the flag of the old `headRef` is cleared and the new head cell is flagged with no other flag changed (so, when `headRef` was linked, the flag moves from the old head cell to the new one), the buffer drops its oldest entry, and no kind changes; the acceleration request is kept |
| Snakes.Snake.Grow | js/modules/Snake.mjs:107-114 | the free branch of `appendHead`, with the same new state |
| Snakes.Snake.AddHead | js/modules/Snake.mjs:109-113 | the index joins the body set as its newest element and becomes the head, with the head-flag clauses of `MoveHeadTo`; no kind changes |
| Snakes.Snake.MoveHeadTo | js/modules/Snake.mjs:110-113 | the index becomes the head and `headRef` its cell; the flag of the old `headRef` is cleared, then the new head cell is flagged, and no other flag changes, whether or not `headRef` was linked; when it was, the flag moves from the old head cell to the new one; no kind changes |
| Snakes.Snake.SetDirection | js/modules/Snake.mjs:71-73 | the buffer becomes `add(d)` of the old one |
| Snakes.Snake.GoLeft | js/modules/Snake.mjs:75-77 | `add(Left)` on the buffer |
| Snakes.Snake.GoRight | js/modules/Snake.mjs:79-81 | `add(Right)` on the buffer |
| Snakes.Snake.GoUp | js/modules/Snake.mjs:83-85 | `add(Up)` on the buffer |
| Snakes.Snake.GoDown | js/modules/Snake.mjs:87-89 | `add(Down)` on the buffer |
| Snakes.StepLength | js/modules/Snake.mjs:97-115 | a move keeps the body repetition-free; it keeps the body's length unless the next index is already in the body after the tail, in which case the body shrinks by one and its newest index is still the body's previous newest index |
| Foods.Reserved | js/modules/Food.mjs:26 | the reserved indices are exactly the level's walls and the body |
| Foods.Food.constructor | js/modules/Food.mjs:5-18 | `id` starts at -1 |
| Foods.Food.Generate | js/modules/Food.mjs:24-31 | the draw lies in `[0, rows*cols]` and is not reserved; `id` is the draw; exactly the drawn cell, if there is one, becomes food; head flags unchanged |
| Foods.Food.GenerateOnBoard | js/modules/Food.mjs:24-31 | with the draw kept in `[0, rows*cols - 1]`, `id` is an on-board cell that is neither wall nor body, it becomes food, and no other cell changes |
| Foods.OffBoardDraw | js/modules/Food.mjs:25-30 | when index `rows*cols` is not a wall, `generate` may draw it, and it names no cell |
| Foods.OffBoardDrawOnLevel01 | js/modules/Food.mjs:25-30 | on level 1 the off-board draw is always possible |
| Games.Marked | js/modules/Game.mjs:124-126 | after the marking loop, a cell is body exactly when its index is in the body; every other cell keeps its kind |
| Games.MovedBodyAvoidsWalls | js/modules/Game.mjs:122-123 | after a move to a non-wall cell, the body is still on the board and off the walls |
| Games.MoveKeepsWalls | js/modules/Game.mjs:119-126 | one step keeps the walls: walls stand exactly on the level's set, and the body avoids them |
| Games.Game.constructor | js/modules/Game.mjs:31-39 | not won, not lost, not ended, and both timestamps 0 |
| Games.Game.SetEnded | js/modules/Game.mjs:67-69 | ended; nothing else changes |
| Games.Game.SetWon | js/modules/Game.mjs:57-60 | won and ended; lost is untouched |
| Games.Game.SetLost | js/modules/Game.mjs:62-65 | lost and ended; won is untouched |
| Games.Game.Reset | js/modules/Game.mjs:71-79 | clears the three flags; the board is rebuilt for the same level with only its walls; the snake is back to its initial body, head and `[Right]` buffer, its head reference is the new board's head cell, and it keeps its status; the delay is the shortest |
| Games.Game.ResetKeepsWalls | js/modules/Game.mjs:71-79 | after `reset`, when the initial body avoids the level's walls, the walls are intact and the body avoids them |
| Games.Game.SetLevel | js/modules/Game.mjs:84-86 | the board switches to the level and is rebuilt with its walls; the snake's `headRef` is no cell of the new board, so the head link is broken |
| Games.Game.MarkBody | js/modules/Game.mjs:124-126 | every body cell becomes body, no other cell changes, and head flags are unchanged |
| Games.Game.Advance | js/modules/Game.mjs:122-126 | the body becomes `add(next)` after dropping the tail, the head is the next index and `headRef` its cell, the flag of the old `headRef` is cleared and the new head cell flagged with no other flag changed (so, when `headRef` was linked, the flag moves from the old head cell to the new one), the buffer drops its oldest entry, the tail cell is emptied and the new body marked, the status and the acceleration request are kept; intact walls stay intact |
| Games.Game.Shift | js/modules/Game.mjs:123-124 | `removeTail` then `appendHead` on a snake that can move: the body drops its tail and adds the next index, the tail cell is emptied, and the head, `headRef`, flag, buffer and request clauses of `Advance` hold |
| Games.Game.Ramp | js/modules/Game.mjs:119-120 | the delay ramps down when acceleration is requested and up otherwise |
| Games.Game.RampAndAdvance | js/modules/Game.mjs:119-126 | the delay ramps as in `Ramp`, then the snake advances as in `Advance`, with the same head, flag and request clauses |
| Games.Game.CheckMove | js/modules/Game.mjs:112-116 | a blocked snake sets the status to the cause and the game to lost and ended; a free snake changes nothing; the result is whether the game has ended |
| Games.Game.Step | js/modules/Game.mjs:111-126 | `lastUpdate` becomes `t` and the acceleration request is kept. A blocked snake loses and ends the game and returns true; an already ended game returns true. In both, speed, body, head index and reference, buffer, cell kinds and head flags are untouched. Otherwise the step returns false after the ramp and the advance, with the clauses of `RampAndAdvance` |
| Games.Game.Update | js/modules/Game.mjs:108-128 | nothing changes unless more than the current delay has passed since `lastUpdate`; otherwise as `Step`, with the same untouched state in the exit branches and the acceleration request kept in all; intact walls stay intact |

## Left out

- Rendering: `GameUI`, and in `Block` the DOM element, `setDataIdx`, `update` and `render`. Also the `clearBlocks`/`render` calls in `Grid`, `canvas.reset` in `Game.reset`, and `#handleGameWon`/`#handleGameLost` with their console output. None of these changes game state.
- `Game.run` and `#loop`: the `requestAnimationFrame` schedule and the 1000/60 frame interval. `#update` is modelled as a step that takes the timestamp as a parameter, and `lastTick` is only initialised.
- `Math.random`: the two random draws are nondeterministic choices, constrained by what the source guarantees about their result.
- `Bot.mjs`: it uses timers and randomness, and it reads a `blocks` getter that `Snake` does not have.
- `Point.onBroadcast`: callbacks into code outside the model.
- Floating point: delays and percentages are exact `real` values, without IEEE rounding.
- The getters (`status`, `accelerateRequested`, `id`, `level`, `isEnded`, `isWon`, `isLost`, `current`) are plain reads of the modelled fields.
- `Block.setIndex` is folded into the constructor: the grid sets the index right after creating a cell and never changes it. The `Head` kind is only a CSS class, and no code sets it as a cell's kind.
- `Snake[Symbol.iterator]` is not a member of its own: `Games.Game.MarkBody` walks the body indices and looks up each cell, as the iterator does.
- Snakes.Snake.constructor: requires a non-empty initial body on the board. With an empty one, `at(-1)` is undefined and the next-cell computation yields `NaN`, which the model does not represent. With an off-board index, `getBlockByLinearId` yields no cell, so `headRef` is undefined, and `removeTail`, `appendHead` and the marking loop of `#update` throw on the missing cell.
- Grids.Grid.constructor: requires `cols > 0`, because the source divides by the width.
- Games.Game.constructor: requires a valid snake with a non-empty body on this game's board. The source accepts any objects.
- Snakes.Snake.RemoveTail: requires a non-empty body. On an empty set the source calls `updateAsEmpty` on an absent cell and throws.
- Foods.Food.Generate: requires a drawable index. Otherwise the retry loop of `getRandomWithoutExcluded` never ends.
- MathUtils.RandomWithoutExcluded: requires some drawable value that is not excluded, because otherwise the retry loop never ends. For an empty range (`from > to`) the drawable values are `[to + 1, from]`, outside `[from, to]`, and the model returns one of those as the source does. The only caller in the model, `Food.generate`, always passes `from <= to`.
- Speeds.IncreaseReachesMax: requires `max > 0`. With `max == 0` a positive delay shrinks by 30% per call and never reaches 0.
- Speeds.DecreaseReachesMin: requires a positive delay. A delay of 0 stays 0 under `decrease`.
- Games.Game.Reset: does not itself state that the walls are intact. `Games.Game.ResetKeepsWalls` states it, under the extra condition that the initial body avoids the level's walls.
- Negative linear indices: `GridUtils.Get2dIdx` requires `idx >= 0`, because JavaScript's `%` truncates and Dafny's is Euclidean. `Grids.Grid.GetBlockByLinearId` returns no cell for a negative index, as the source does.

## Findings

| source | as written | input that shows it | evidently intended | confidence | as-written member | corrected member |
|---|---|---|---|---|---|---|
| js/modules/Food.mjs:25-30 | `generate` draws from `[0, rows*cols]` inclusive, one index past the last cell | level 1 (no walls), any snake: the draw `rows*cols` is allowed, `getBlockByLinearId(rows*cols)` finds no cell, so no food is placed while `id` reports `rows*cols` | draw from `[0, rows*cols - 1]`, so the food always lands on a free cell | high, not executed | Foods.Food.Generate, Foods.OffBoardDraw | Foods.Food.GenerateOnBoard |

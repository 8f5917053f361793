# Tetris board/piece engine, modelled in Dafny

This project models the engine of a terminal Tetris game (`src/app.rs`). The engine holds:

- a 20-row by 10-column board of `i32` cells, where 0 is empty and 1 is filled;
- the active piece, called a "mino": one of five tetromino shapes plus an `is_falling` flag;
- the position of the piece's top-left corner;
- a score and a quit flag.

Its operations paint and erase the piece, test a placement for collisions, move the piece, let it fall one row, and spawn a new piece at the origin. The model also includes one tick of the game loop (`src/main.rs:64-74`), taken over the engine state only.

Files:

- `shapes.dfy`, module `Shapes`: the value side. The five shapes are datatypes and functions. The random shape choice takes its byte as a parameter `r`. The file also defines placing a piece at a position.
- `app.dfy`, module `Engine`: the state side. Class `App` owns the board as a `const board: array2<int>` of size 20×10, and its methods change the board cell by cell.

Contracts and invariants:

- `Valid()` holds in every reachable state: the board is 20×10, every cell is 0 or 1, and the active shape is well formed.
- `PieceShown()` says that the active piece's four cells, at `position`, are on the board and hold 1. It holds after every successful spawn and after every move. It does not hold after a failed spawn: `spawn` resets `position` but keeps the old mino. That failure ends the game (`should_quit`), so the tick loop only needs `is_falling ==> PieceShown()`.
- The effect of one move attempt is stated once, as the two-state predicate `App.Moved`. `MoveMino`, `Fall` and `Tick` all use it.
- The effect of one spawn attempt is stated once, as `App.Spawned`.

Notes on the code itself:

- `rotate`, `move_left`, `move_right`, `move_down` and `quiet` are called from `src/handler.rs` and `src/main.rs` but are not defined in `src/app.rs`, so they are not modelled.
- No engine operation changes `score`. The contracts of `MoveMino`, `Fall`, `Spawn` and `Tick` say so.

## Model

| member | source | states |
|---|---|---|
| `Shapes.ShapeOf` | src/app.rs:20-49 | Each of the five constructors yields its own kind tag and four offsets. The offsets are pairwise distinct, lie in rows 0..1 and columns 0..3, and the first is (0,0). |
| `Shapes.NewShape` | src/app.rs:50-59 | The shape chosen by the byte `r` (via `r % 5`) is always one of the five fixed shapes: its offsets are those of its kind tag, and it is well formed. |
| `Shapes.NewShapeCoversEveryKind` | src/app.rs:52-58 | Every one of the five kinds is produced by some byte. |
| `Shapes.NewMino` | src/app.rs:68-75 | A new mino is not falling and carries a well-formed shape that matches its kind. |
| `Shapes.PlacementAnchored` | src/app.rs:89 | `position` is the piece's top-left corner. It is itself a covered cell, and every covered cell lies within two rows and four columns from it. |
| `Shapes.PlacementDistinct` | src/app.rs:20-49 | A placed piece covers exactly four distinct cells. |
| `Engine.IsOutOfRange` | src/app.rs:105-110 | False exactly on the cells of the 20×10 board: `0 <= y < 20` and `0 <= x < 10`. |
| `Engine.App.constructor` | src/app.rs:94-104 | A new engine has an all-zero board, score 0, the quit flag unset, position (0,0), and a fresh, non-falling mino chosen by `r`. |
| `Engine.App.Render` | src/app.rs:126-133 | Writes `value` into exactly the piece's cells at `base`. Every other cell keeps its old value. It requires those cells to be on the board, which the indexing in the code needs. |
| `Engine.App.IsConflict` | src/app.rs:111-125 | Returns true exactly when some cell of the placed piece is off the board or holds 1. So a false result means all four target cells are on the board and not 1. |
| `Engine.App.ResetPosition` | src/app.rs:159-161 | Sets `position` to (0,0) and changes nothing else. |
| `Engine.App.MoveMino` | src/app.rs:140-158 | Succeeds exactly when every target cell is on the board and is either not 1 or one of the piece's own old cells, so the piece never blocks itself. On success: `position = old + diff`; the new cells are 1; old cells that are not covered again are 0. When blocked: `position` is unchanged and the old cells are 1 again, so a piece that was shown leaves the board identical. No other cell changes. Mino, score and quit flag are unchanged. The board stays 0/1 and the piece ends up shown. |
| `Engine.App.Fall` | src/app.rs:162-167 | When the mino is not falling, it returns false and changes nothing. Otherwise its effect is exactly a `MoveMino` by (1,0). |
| `Engine.App.Spawn` | src/app.rs:169-178 | Always resets `position` to (0,0). It succeeds exactly when the new piece fits at the origin. On success it fills exactly those four cells and installs the new mino, not falling, which is then shown. On failure the board and the mino are unchanged. Score and quit flag are unchanged. |
| `Engine.App.Tick` | src/main.rs:64-74 | If the piece is falling and can move down, it moves one row down. Otherwise a spawn is attempted on the unchanged board, and the quit flag is set exactly when that spawn does not fit. Afterwards the mino is always marked falling, and while the game goes on the piece is shown. |
| `Engine.SpawnBlockedIffOccupied` | src/app.rs:169-174 | A spawn at the origin is refused exactly when one of the new piece's four cells already holds 1. |
| `Engine.NewPieceOnBoard` | src/app.rs:169-174 | A new piece placed at the origin never leaves the board, so the range test in the spawn check never fires. |
| `Engine.EmptyBoardFits` | src/app.rs:94-104 | On the all-zero board, every shape fits at the origin, so the first spawn always succeeds. |

## Left out

- Random choice: `rand::thread_rng()` in `Shape::new` is foreign code. The drawn byte is the parameter `r` of `NewShape`, `NewMino`, the constructor, `Spawn` and `Tick`.
- `rotate`, `move_left`, `move_right`, `move_down` and `quiet`: their bodies are not in `src/app.rs`. No rotation semantics are modelled.
- `width()` and `height()` getters, and the `u16` width and height fields: trivial accessors for rendering. The bounds are the constants 20 and 10.
- Integer widths: positions and offsets are unbounded `int`, not `i32`, and the score is a `nat`, not `u64`. The code's `as usize` casts in `is_conflict` run only after its range check. The casts in `render` have no check of their own: `render` relies on its callers, and `Engine.App.Render` captures that with its `requires` that every painted cell is on the board.
- Engine.App.MoveMino: does not model `i32` overflow of `position + diff` (`src/app.rs:142-143`). For a `diff` near the `i32` limits, the code panics in a debug build or wraps in a release build, while the model simply adds and reports a blocked move. The only `diff` visible in `src/app.rs` is the (1,0) of `fall`, which cannot overflow from a position on the board.
- Engine.App.MoveMino: requires the piece's current cells to be on the board. The code indexes the board with them and would panic otherwise. Every call made by the game loop comes after a successful spawn.
- Engine.App.Tick: requires the loop's invariant: the game is running, and a falling piece is shown. This holds from the constructor onward, by `Tick`'s own postcondition.
- Terminal rendering (`src/ui.rs`), terminal setup and teardown (`src/tui.rs`), key dispatch (`src/handler.rs`, `src/main.rs:76-100`), and the event loop, panic hook and terminal setup in `src/main.rs:22-58`: these are I/O. The `event` module is not part of this model.
- Line clearing and scoring: the code has neither.

# Snake game-state engine, modelled in Dafny

This project models the game-state engine of the Snake repository. The engine
appears in four near-duplicate variants:

- `python/main.py`: PyQt5, board size and frame rate from the command line.
- `main.py`: PyQt5, a fixed 16 by 12 board.
- `java/.../SnakePanel.java`: Swing.
- `java/.../SnakeMainWindow.java`: a Swing frame with only the constructor and
  apple placement.

The state is the board size, the player's head, an optional direction, the
apple, the trail `snake_parts` (oldest first), the game-over flag and, where
the variant has one, the frame rate. A tick does four things in order. It
checks for collision against the trail minus its newest segment. It eats and
grows when the head is on the apple. It moves the head one cell with toroidal
wrap-around. It drops the oldest trail segment and appends the new head. A key
press steers, and a 180° reversal is refused. The apple is placed by rejection
sampling until it differs from the head.

Layout:

- `grid.dfy` (module `Grid`): cells, directions, keys, one step of
  wrap-around movement (`Advance`), steering (`Steer`), and the closed form of
  repeated movement (`Drift`).
- `sampling.dfy` (module `Sampling`): the rejection-sampling loop as the
  function `FirstMiss` / `PickApple`.
- `engine.dfy` (module `Engine`): the pure engine `Tick` that both Python
  variants share, and the invariant `Consistent` that it keeps.
- `awt.dfy` (module `Awt`): `java.awt.Point` as a mutable class.
- `pyqt_snake.dfy`, `pyqt_snake_classic.dfy`, `swing_snake_panel.dfy`,
  `swing_snake_window.dfy`: one class per source file. The class has the
  source's fields, and its methods update them in place. Each method's
  `ensures` ties the new state to the pure functions above.

Randomness is a parameter. A head start cell is a `start: Position` argument.
A placement takes `draws`, the cells that `randrange` or `nextInt` would hand
out in turn. The draws must lie on the grid. `HasMiss` must hold: some draw
differs from the head. That is the exit condition of the placement loop. The
apple is the first such draw. With `HasMiss`, every loop in the model is
proved to terminate.

Three helpers name the source expressions they stand for. `Engine.Collides` is
the test `pos_player in snake_parts[:-1]` (python/main.py:73, main.py:67).
`Grid.Requested` maps a key to the direction it asks for: the key tuples of the
handlers' branches (python/main.py:178-190) and the arrows alone in `main.py`.
`Grid.Accepts` is their `dir_player != Direction.X` guard.

Four behaviours of the code are easy to misread:

- `update_game` has no "already game over" guard. A second tick after a
  collision is still a no-op, because the head and trail that collided are
  unchanged (`Engine.Tick`, `Engine.CollisionIdempotent`).
- The key handlers refuse a reversal whatever the trail length, including an
  empty trail (`PyQtSnake.Dispatch`, `Grid.Steer`).
- On eating, the head is appended although it is already the newest segment.
  So the trail can hold one cell twice, and its entries are not always
  distinct (`Engine.EatingRepeatsCell`). The trail length still grows by
  exactly one, and the score equals the number of apples eaten
  (`PyQtSnake.SnakeMainWindow.Score`).
- In `SnakePanel.java` a tick only moves the head: that variant has no
  eating, growth or collision.

## Model

| member | source | states |
|---|---|---|
| `Grid.Opposite` | python/main.py:178-190 | Each direction's opposite, as the key guards pair them, differs from it. |
| `Grid.OppositeSymmetric` | python/main.py:178-190 | The guards pair the directions symmetrically: the opposite of the opposite is the direction itself. |
| `Grid.WrapDec` | python/main.py:84 | `(v - 1) % n` lies in `[0, n)`; from 0 it wraps to `n - 1`, otherwise it is `v - 1`. |
| `Grid.WrapInc` | python/main.py:86 | `(v + 1) % n` lies in `[0, n)`; from `n - 1` it wraps to 0, otherwise it is `v + 1`. |
| `Grid.Advance` | python/main.py:83-90 | No direction leaves the head unchanged. A step changes only the coordinate on the direction's axis. An in-bounds head stays in bounds. UP from row 0 lands on row `height - 1`, RIGHT from column `width - 1` on column 0, and the same for DOWN and LEFT. |
| `Grid.Steer` | main.py:148-158 | The direction after a steering key: never the reversal of the current one; either unchanged or the requested one; unchanged for a non-direction key; the requested one whenever it is not a reversal. The Java panel (SnakePanel.java:116-127) uses it with W/A/S/D. |
| `Grid.DriftClosedForm` | python/main.py:83-90 | `n` movement steps (`Advance`, the move of a tick that does not collide) in one direction take the head to `(x + n·dx) mod width, (y + n·dy) mod height`. |
| `Grid.DriftWrapsRight` | python/main.py:89-90 | On a 10 by 10 grid, five steps right from (5, 5) reach (0, 5). |
| `Sampling.FirstMiss` | python/main.py:61-64 | The placement loop stops at the first draw that differs from the head: that draw differs, and every earlier draw equals the head. |
| `Sampling.PickApple` | python/main.py:58-64 | The placed apple differs from the head and is one of the draws. |
| `Sampling.PickAppleInBounds` | python/main.py:64 | Draws on the grid give an apple on the grid. |
| `Sampling.FreeCellExists` | python/main.py:250-251 | A grid of at least two cells (such as a board that passes the 3 by 3 check) has a cell other than the head, so some draws on the grid satisfy `HasMiss`, the requirement on every placement. |
| `Engine.Tick` | python/main.py:71-95 | On a collision with the trail minus its newest segment, only `game_over` is set. It keeps `Consistent` (head, apple and trail in bounds; newest segment is the head; game over only while colliding). Once the game is over a tick changes nothing. Otherwise the new head is the wrapped step and is the newest segment. The trail length becomes `len + 1` on eating, else `max(len, 1)`. The older segments shift by one. On eating the new apple is the first draw that differs from the pre-move head and lies in bounds; otherwise the apple stays. |
| `Engine.CollisionIdempotent` | python/main.py:73-77 | Two ticks from a colliding state give the same state as one. |
| `Engine.EatingRepeatsCell` | python/main.py:79-93 | Eating from trail (1,2),(2,2) with the head on the apple at (2,2) yields trail (2,2),(2,2),(3,2): one cell twice. |
| `PyQtSnake.Dispatch` | python/main.py:176-209 | An arrow or W/A/S/D key turns exactly when it is not the reversal of the current direction; a reversal is ignored. Refresh resets, '+' speeds up, '-' slows down; every other key is ignored. |
| `PyQtSnake.BoardSizeError` | python/main.py:250-251 | The start-up error occurs exactly when width or height is below 3, with the message "Minimum board size is 3x3". |
| `PyQtSnake.Launch` | python/main.py:215-261 | A board under 3 by 3 fails with that message. Otherwise a fresh valid window of that size, frame rate and start cell is returned. |
| `PyQtSnake.SnakeMainWindow.constructor` | python/main.py:31-56 | Board size and frame rate as given, head at the start cell, no direction, apple placed away from the head, empty trail, not game over, invariant established. |
| `PyQtSnake.SnakeMainWindow.PlaceApple` | python/main.py:58-64 | The apple is the first draw differing from the head, lies in bounds, and the head is unchanged. |
| `PyQtSnake.SnakeMainWindow.Score` | python/main.py:66-69 | `max(0, len(snake_parts) - 1)` equals the number of apples eaten since the last reset. |
| `PyQtSnake.SnakeMainWindow.UpdateGame` | python/main.py:71-95 | The new state is `Tick` of the old one in the current direction. Direction and frame rate are unchanged, the apple count rises by one exactly on eating, and the invariant is kept. |
| `PyQtSnake.SnakeMainWindow.ResetGame` | python/main.py:97-107 | Not game over, empty trail, head at the start cell, no direction, apple placed away from the head, frame rate and board kept. |
| `PyQtSnake.SnakeMainWindow.KeyPress` | python/main.py:176-212 | An accepted direction key sets the direction and runs exactly one tick. Refresh resets. '+' adds 1 to the frame rate and '-' never takes it below 1, with the game state unchanged. A reversal or any other key changes nothing. |
| `PyQtSnakeClassic.SnakeMainWindow.constructor` | main.py:34-55 | Head at a start cell with 1 ≤ x ≤ 14 and 1 ≤ y ≤ 10 on the 16 by 12 board, direction UP, apple away from the head, empty trail, not game over, frame rate 5. |
| `PyQtSnakeClassic.SnakeMainWindow.PlaceApple` | main.py:57-63 | The apple is the first draw differing from the head, lies in bounds, and the head is unchanged. |
| `PyQtSnakeClassic.SnakeMainWindow.UpdateGame` | main.py:65-89 | The new state is `Tick` of the old one in the current direction; the direction is unchanged and the invariant kept. |
| `PyQtSnakeClassic.SnakeMainWindow.KeyPress` | main.py:146-158 | Only the direction changes, to `Steer` of the key (arrows only). It is never the reversal of the old direction, and no tick runs. |
| `PyQtSnakeClassic.FirstDownIsRefused` | main.py:42-150 | A first DOWN key after start-up leaves the direction UP. |
| `SwingSnakePanel.JavaRem` | java/SnakeGame/src/main/org/dyson/snake/SnakePanel.java:76-79 | Java's `%` takes the sign of the dividend, has magnitude below the modulus, and is congruent to the dividend. |
| `SwingSnakePanel.JavaAdvance` | java/SnakeGame/src/main/org/dyson/snake/SnakePanel.java:75-80 | NONE leaves the head unchanged. Only the coordinate on the direction's axis changes. UP from y = 0 gives `gridHeight - 1`, LEFT from x = 0 gives `gridWidth - 1`. |
| `SwingSnakePanel.JavaAdvanceAgrees` | java/SnakeGame/src/main/org/dyson/snake/SnakePanel.java:75-80 | On the grid, `(p ± 1 + size) % size` equals the floor-modulo step `Advance`, so the head stays in `[0, size)`. |
| `SwingSnakePanel.SnakePanel.constructor` | java/SnakeGame/src/main/org/dyson/snake/SnakePanel.java:38-63 | Head at the start cell, no direction, apple a distinct point away from the head, empty trail, not game over, timer not started. |
| `SwingSnakePanel.SnakePanel.PlaceApple` | java/SnakeGame/src/main/org/dyson/snake/SnakePanel.java:65-71 | After aliasing the head, the apple ends as a fresh point. It is not the head object and is at the first draw differing from the head, in bounds. |
| `SwingSnakePanel.SnakePanel.UpdateGame` | java/SnakeGame/src/main/org/dyson/snake/SnakePanel.java:73-85 | The head point moves in place by `JavaAdvance` in the current direction. The apple is untouched, and everything stays on the grid. |
| `SwingSnakePanel.TimerPeriod` | java/SnakeGame/src/main/org/dyson/snake/SnakePanel.java:132 | `1000 / fps` is a valid timer period exactly when 1 ≤ fps ≤ 1000, and it is then the truncated quotient: at least 1, with `period · fps ≤ 1000 < (period + 1) · fps`. |
| `SwingSnakePanel.SnakePanel.KeyPressed` | java/SnakeGame/src/main/org/dyson/snake/SnakePanel.java:112-135 | The direction becomes `Steer` of the key (never the reversal). Then exactly one `updateGame` moves the head in the new direction, whether or not the key steered. On the first press scheduling throws exactly when the frame rate is outside 1..1000, and the timer is marked started exactly when nothing was thrown. |
| `SwingSnakeWindow.SnakeMainWindow.constructor` | java/SnakeGame/src/main/org/dyson/snake/SnakeMainWindow.java:28-45 | Head at the start cell in bounds, direction empty, apple a distinct point away from the head, trail empty, `gameOver` false. |
| `SwingSnakeWindow.SnakeMainWindow.PlaceApple` | java/SnakeGame/src/main/org/dyson/snake/SnakeMainWindow.java:47-53 | The apple differs from the head in at least one coordinate, lies in `[0, gridWidth) × [0, gridHeight)`, is the first such draw, and `posPlayer` is unchanged. |

## Left out

- Rendering (`paintEvent`, `paintComponent`) and window set-up (`setFixedSize`, `JFrame`, titles, `show`): host-toolkit calls with no game state. This includes the score shown by `main.py`'s `paintEvent`.
- Timers: `QTimer` start, stop and interval, the Python `int(1000 / fps)`, Python's `timer_started` (never set to true in the source), and `java.util.Timer` calling `updateGame` from a background thread (only whether its scheduling throws is modelled, by `SwingSnakePanel.TimerPeriod`). These are scheduling and concurrency, outside the sequential engine.
- Qt's `self.update()`, `repaint()`, `event.ignore()` and `event.accept()`: repaint and event-propagation requests with no game state.
- `argparse` parsing in `main`: only the board-size check is modelled, and the cell size is ignored.
- Uniformity of random placement: only the bounds and the exit condition are modelled, through the `draws` oracle.
- PyQtSnake.SnakeMainWindow.constructor: requires a positive board. `randrange(0)` raising `ValueError` is not modelled, and `main` never passes a board under 3 by 3.
- SwingSnakePanel.SnakePanel.constructor: requires a positive board. `nextInt(0)` throwing is not modelled.
- SwingSnakeWindow.SnakeMainWindow.constructor: requires a positive board. `nextInt(0)` throwing is not modelled.
- A placement on a 1 by 1 grid never exits in the source. The model's `HasMiss` precondition excludes that call rather than modelling non-termination.
- SwingSnakePanel.JavaAdvanceAgrees: coordinates are unbounded integers. Java's `p + 1 + gridWidth` is 32-bit; it overflows into a wrong result once a side is more than 2^30 (width 2^30 + 1, x = 2^30, RIGHT gives a negative x in Java), so on such boards the equality with `Advance` and the bound do not hold of the source.
- SwingSnakePanel.SnakePanel.UpdateGame: the head staying on the grid (`Valid()`) assumes unbounded arithmetic; the 32-bit overflow for sides of more than 2^30 is not modelled.
- SwingSnakePanel.SnakePanel.KeyPressed: the same 32-bit overflow in the move is not modelled. The exception from `scheduleAtFixedRate` is a `thrown` result; the exception type and its propagation to Swing are not modelled.
- PyQtSnake.SnakeMainWindow.KeyPress: with a frame rate of 0, `int(1000 / fps)` raises `ZeroDivisionError` after the branch's state change (python/main.py:201 after '+' from -1, :212 after a turn); the model has no such failure, and the frame rate from the command line is not checked.
- `score` returns a string; the model returns the number.
- `SnakePanel.java` uses `Direction.NONE`, but the enum declared in `SnakeMainWindow.java` has no such value. The model uses `Option<Direction>`, with `None` for "no direction yet".
- `Main.java` and `cpp/main.cpp` are not part of this model: they only construct an empty window.

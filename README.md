# Snake game state, modelled in Dafny

This project models the game logic of `the_snake.py`, a pygame snake game. The
modelled parts are:

- the grid constants and the four direction vectors;
- the `Snake` object: its square list, its target `length`, its `direction`, its buffered
  `next_direction` and its last trimmed tail `last`;
- the `Apple` position and its `randomize_position`;
- the arrow-key rule of `handle_keys`;
- `check_collision`;
- one frame of the main loop: keys, then `update_direction`, then `move`, then `check_collision`.

Positions are pixel coordinates, as in the program. The snake starts at (320, 240).
Each move adds or subtracts `GRID_SIZE` = 20 on one axis. Nothing wraps around, so
coordinates are unbounded integers.

Files:

- `grid.dfy` (module `Grid`): constants, directions, one step.
- `keys.dfy` (module `Keys`): the key rule, folded over a batch of presses.
- `rules.dfy` (module `Rules`): every state change as a function over a `State` value,
  and the lemmas about them.
- `game.dfy` (module `Game`): the `Snake` and `Apple` classes. Their methods update fields
  in place and are specified by the `Rules` functions. The module also holds
  `HandleKeys`, `CheckCollision` (with its scan `HitsOwnBody`) and `Tick`.
- `wrappers.dfy`: `Option`, standing for attributes that may be `None`.

The model follows the code where it differs from a tidier game:

- The apple is never relocated. `check_collision` calls `randomize_position()` and discards
  the result, and nothing relocates the apple on reset. `CheckCollision` and `Tick` cannot
  modify the apple.
- Placing the apple does not avoid the snake's squares.
- Both `randint` bounds are inclusive, so the apple can reach x = 640 or y = 480,
  just off the screen.
- The reversal test compares with `direction`, never with `next_direction`. Within one batch
  the last accepted press wins.
- `reset` keeps `next_direction` and `last`.
- When the head is on the apple and also on its own body, both checks fire. The reset
  comes last, so it wins.

Randomness is passed in as parameters. The two `randint` draws are `i` and `j`, and the
`choice` of a reset direction is `choice`.

`Rules.Inv` is the invariant of every reachable state:

- the list holds at least one square;
- it never holds more squares than `length`;
- every square is a multiple of 20 on both axes.

`Initial` establishes it. `Moved`, `CollisionChecked` and `Ticked` preserve it, and `Run`
keeps it over any sequence of frames.

## Model

| member | source | states |
|---|---|---|
| `Grid.Vector` | the_snake.py:12-15 | each direction is a unit vector along exactly one axis |
| `Grid.VectorInjective` | the_snake.py:12-15 | the four direction tuples are distinct, so comparing tuples is comparing directions |
| `Grid.Opposite` | the_snake.py:131-138 | the direction each key guard refuses is the negated vector, never the direction itself |
| `Grid.Shift` | the_snake.py:82-89 | the new head is the old one plus GRID_SIZE times the direction vector: UP subtracts from y, DOWN adds to y, LEFT subtracts from x, RIGHT adds to x, with no modulo |
| `Grid.ShiftThenOpposite` | the_snake.py:82-89 | a step followed by a step the opposite way returns to the start square |
| `Grid.ShiftKeepsAligned` | the_snake.py:82-89 | a step keeps a square on the 20-pixel lattice and leaves no square on it that was not |
| `Grid.CenterIsAlignedMiddle` | the_snake.py:6-9 | the start square is (320, 240) on the lattice, and the grid is 32 by 24 squares |
| `Keys.Accepted` | the_snake.py:130-138 | a press buffers its arrow's direction exactly when that is not the opposite of the current direction; other keys buffer nothing |
| `Keys.PendingAfter` | the_snake.py:126-138 | after a batch, the buffer is either unchanged or a direction some press of the batch asked for, and never the reverse of the current direction |
| `Keys.LastAcceptedWins` | the_snake.py:126-138 | the last accepted press of a batch decides the buffered direction |
| `Keys.NothingAcceptedKeepsPending` | the_snake.py:126-138 | a batch of refused or non-arrow presses leaves the buffer as it was |
| `Keys.AcceptedPressOverridesPending` | the_snake.py:126-138 | once a press of the batch is accepted, the buffer held before the batch does not matter |
| `Keys.JudgedAgainstCurrentOnly` | the_snake.py:131-138 | heading right, UP then DOWN buffers DOWN and UP then LEFT buffers UP: presses are judged against `direction`, not the buffer |
| `Rules.Initial` | the_snake.py:67-73 | a new snake is one square at (320, 240), length 1, heading right, nothing buffered, no trimmed tail, and satisfies the invariant |
| `Rules.DirectionUpdated` | the_snake.py:76-79 | a buffered direction becomes the direction and the buffer empties; without one the direction stays; nothing else changes |
| `Rules.DirectionUpdatedIdempotent` | the_snake.py:76-79 | committing a second time changes nothing |
| `Rules.Moved` | the_snake.py:81-96 | the new head is the old head one step along the direction; the rest of the list is the old list in order; the tail is dropped into `last` exactly when the list would exceed `length`, so the count is kept at `length` and grows by one when `length` exceeds it |
| `Rules.MovedKeepsInv` | the_snake.py:81-96 | a move keeps the list non-empty, within `length`, and on the lattice |
| `Rules.Moves` | the_snake.py:81-96 | any number of moves keeps the invariant |
| `Rules.MovedSteadyLength` | the_snake.py:92-96 | while the count equals `length`, repeated moves never change it |
| `Rules.ResetTo` | the_snake.py:118-122 | after reset: length 1, the single square (320, 240), the chosen direction; buffer and `last` untouched |
| `Rules.EatingGrowsByOne` | the_snake.py:146-148 | head on the apple and not on the body: `length` grows by exactly one and nothing else changes |
| `Rules.BitingResets` | the_snake.py:150-154 | head on a later square: the result is the reset state, whether or not the apple was eaten too |
| `Rules.NoCollisionNoChange` | the_snake.py:143-154 | head on neither the apple nor the body: the state is unchanged |
| `Rules.CollisionCheckedKeepsInv` | the_snake.py:143-154 | the collision check keeps the invariant |
| `Rules.GrowthShowsOnNextMove` | the_snake.py:146-147 | after eating, the next move grows the list by one square and trims nothing |
| `Rules.KeysHandled` | the_snake.py:130-138 | key handling changes only the buffer, and only to a direction that is not the reverse of the current one |
| `Rules.TickedKeepsInv` | the_snake.py:161-166 | one frame keeps the invariant |
| `Rules.NoReversalInOneTick` | the_snake.py:163-165 | unless the buffer already held it, a frame never turns the snake to the reverse of its direction |
| `Rules.Run` | the_snake.py:158-166 | from a state satisfying the invariant, any sequence of frames reaches one that satisfies it; the apple is the same throughout |
| `Rules.ThreeQuietFrames` | the_snake.py:158-166 | three frames from the start with no keys and the apple off row 240 leave the snake at the single square (380, 240) |
| `Rules.ResetPositionsAsWritten` | the_snake.py:121 | reset as written stores the bare pair (320, 240) in `positions` |
| `Rules.ResetAsWrittenLosesHead` | the_snake.py:118-122 | after reset as written, `positions[0][0]` has no head square to read; the one-element list does |
| `Game.Snake.constructor` | the_snake.py:67-73 | the fields equal the initial state |
| `Game.Snake.UpdateDirection` | the_snake.py:76-79 | the fields change as `DirectionUpdated` says |
| `Game.Snake.Move` | the_snake.py:81-96 | the fields change as `Moved` says, and the invariant is kept |
| `Game.Snake.GetHeadPosition` | the_snake.py:115-116 | the first square of the list, on the lattice in any valid state |
| `Game.Snake.Reset` | the_snake.py:118-122 | the fields become `ResetTo` of the old ones, and the invariant holds |
| `Game.Apple.RandomizePosition` | the_snake.py:53-54 | the apple square is on the lattice with 0 <= x <= 640 and 0 <= y <= 480, both bounds inclusive |
| `Game.Apple.constructor` | the_snake.py:56-58 | a new apple sits at the randomized square |
| `Game.RandomizeReachesEverySquare` | the_snake.py:53-54 | every lattice square in the inclusive range is reachable by some pair of draws |
| `Game.RandomizeCanLeaveScreen` | the_snake.py:53-54 | the largest draws give (640, 480), off the 640 by 480 screen |
| `Game.HandleKeys` | the_snake.py:125-138 | the loop over presses leaves the fields as `KeysHandled` says |
| `Game.HitsOwnBody` | the_snake.py:151-154 | the scan reports a hit exactly when the head equals some later square |
| `Game.CheckCollision` | the_snake.py:143-154 | the snake's fields change as `CollisionChecked` says, the apple is untouched, and the invariant is kept |
| `Game.Tick` | the_snake.py:161-166 | one frame changes the snake as `Ticked` says and keeps the invariant; the apple is untouched |

## Left out

- Window, caption and clock setup (the_snake.py:33-39), every `draw` method and `main`'s frame timing and display update: rendering and timing I/O.
- Event polling and the QUIT branch of `handle_keys`: a frame's key-down events are an abstract `Key` sequence.
- The random sources `randint` and `choice`: their results are parameters. Any value in `randint`'s inclusive range and any of the four directions may be passed.
- The `GameObject` base class and the `body_color` fields: only drawing uses them.
- Game.Snake.Move: requires a non-empty list. The source would raise `IndexError` on an empty one, and no reachable state has one.
- Game.Snake.GetHeadPosition: requires a non-empty list, for the same reason.
- Game.CheckCollision: requires a non-empty list, for the same reason.
- Game.Snake.Reset: stores the one-element list `[(320, 240)]`, not the bare pair the source stores (see Findings). `Rules.ResetPositionsAsWritten` models the pair.

## Findings

| source | as written | input that shows it | evidently intended | confidence | as-written member | corrected member |
|---|---|---|---|---|---|---|
| the_snake.py:121 | `reset` sets `positions` to the pair `(320, 240)`, not to a list holding it | any self-collision: on the next frame `move` reads `positions[0][0]`, which subscripts the integer 320 | `positions = [(320, 240)]`, the value `__init__` uses on line 69 | high (not executed) | `Rules.ResetAsWrittenLosesHead` | `Game.Snake.Reset` |

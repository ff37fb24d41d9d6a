/** The game objects as the program keeps them: a snake and an apple whose fields are
    updated in place, the key handler, the collision check and one frame of the main
    loop. Each state change is specified by the matching function of module Rules. */
module Game {
  import opened Wrappers
  import opened Grid
  import opened Keys
  import opened Rules

  class Snake {
    var positions: seq<Cell>
    var length: int
    var direction: Direction
    var nextDirection: Option<Direction>
    var last: Option<Cell>

    /** The fields as a value. */
    function State(): State
      reads this
    {
      Rules.State(positions, length, direction, nextDirection, last)
    }

    predicate Valid()
      reads this
    {
      Inv(State())
    }

    constructor ()
      ensures Valid() && State() == Initial()
    {
      length := 1;
      positions := [CENTER];
      direction := Right;
      nextDirection := None;
      last := None;
    }

    /** Commit the buffered direction, if any. */
    method UpdateDirection()
      modifies this
      ensures State() == DirectionUpdated(old(State()))
    {
      if nextDirection.Some? {
        direction := nextDirection.value;
        nextDirection := None;
      }
    }

    /** Insert a new head one step along the direction; trim the tail into `last`
        when the list is then longer than `length`. */
    method Move()
      requires |positions| >= 1
      modifies this
      ensures State() == Moved(old(State()))
      ensures old(Valid()) ==> Valid()
    {
      var head := positions[0];
      var newHead;
      if direction == Up {
        newHead := Cell(head.x, head.y - GRID_SIZE);
      } else if direction == Down {
        newHead := Cell(head.x, head.y + GRID_SIZE);
      } else if direction == Left {
        newHead := Cell(head.x - GRID_SIZE, head.y);
      } else {
        newHead := Cell(head.x + GRID_SIZE, head.y);
      }
      positions := [newHead] + positions;
      if |positions| > length {
        last := Some(positions[|positions| - 1]);
        positions := positions[..|positions| - 1];
      }
      if old(Valid()) {
        MovedKeepsInv(old(State()));
      }
    }

    /** The head square, which lies on the pixel lattice in every reachable state. */
    function GetHeadPosition(): (r: Cell)
      reads this
      requires |positions| >= 1
      ensures r == positions[0] && (Valid() ==> Aligned(r))
    {
      positions[0]
    }

    /** Back to one square in the middle of the screen with the given direction (the
        game picks it at random); the buffered direction and `last` stay. */
    method Reset(choice: Direction)
      modifies this
      ensures Valid() && State() == ResetTo(old(State()), choice)
    {
      CenterIsAlignedMiddle();
      length := 1;
      positions := [CENTER];
      direction := choice;
    }
  }

  class Apple {
    var position: Cell

    /** The square `randomize_position` returns for the draws `i` in [0, GRID_WIDTH]
        and `j` in [0, GRID_HEIGHT]: a lattice square whose coordinates may reach
        GRID_WIDTH * GRID_SIZE and GRID_HEIGHT * GRID_SIZE, both bounds included. */
    static function RandomizePosition(i: int, j: int): (r: Cell)
      requires 0 <= i <= GRID_WIDTH && 0 <= j <= GRID_HEIGHT
      ensures Aligned(r)
      ensures 0 <= r.x <= GRID_WIDTH * GRID_SIZE && 0 <= r.y <= GRID_HEIGHT * GRID_SIZE
    {
      Cell(i * GRID_SIZE, j * GRID_SIZE)
    }

    constructor (i: int, j: int)
      requires 0 <= i <= GRID_WIDTH && 0 <= j <= GRID_HEIGHT
      ensures position == RandomizePosition(i, j)
    {
      position := RandomizePosition(i, j);
    }
  }

  /** Every lattice square in the inclusive range is a possible apple position. */
  lemma RandomizeReachesEverySquare(c: Cell)
    requires Aligned(c)
    requires 0 <= c.x <= GRID_WIDTH * GRID_SIZE && 0 <= c.y <= GRID_HEIGHT * GRID_SIZE
    ensures 0 <= c.x / GRID_SIZE <= GRID_WIDTH && 0 <= c.y / GRID_SIZE <= GRID_HEIGHT
    ensures Apple.RandomizePosition(c.x / GRID_SIZE, c.y / GRID_SIZE) == c
  {
  }

  /** The largest draws put the apple at (640, 480), just off the 640 x 480 screen. */
  lemma RandomizeCanLeaveScreen()
    ensures Apple.RandomizePosition(GRID_WIDTH, GRID_HEIGHT) == Cell(SCREEN_WIDTH, SCREEN_HEIGHT)
  {
  }

  /** The key handler: each press, judged against the snake's travel direction, may
      overwrite the buffered direction. */
  method HandleKeys(snake: Snake, keys: seq<Key>)
    modifies snake
    ensures snake.State() == KeysHandled(old(snake.State()), keys)
  {
    for i := 0 to |keys|
      invariant snake.State() == old(snake.State()).(next := PendingAfter(snake.direction, old(snake.nextDirection), keys[..i]))
    {
      var key := keys[i];
      if key == ArrowUp && snake.direction != Down {
        snake.nextDirection := Some(Up);
      } else if key == ArrowDown && snake.direction != Up {
        snake.nextDirection := Some(Down);
      } else if key == ArrowLeft && snake.direction != Right {
        snake.nextDirection := Some(Left);
      } else if key == ArrowRight && snake.direction != Left {
        snake.nextDirection := Some(Right);
      }
      assert keys[..i + 1][..i] == keys[..i];
    }
    assert keys[..|keys|] == keys;
  }

  /** The self-collision scan: does the head equal some square after it? */
  method HitsOwnBody(positions: seq<Cell>) returns (hit: bool)
    ensures hit <==> SelfCollides(positions)
  {
    hit := false;
    var rest := if positions == [] then [] else positions[1..];
    for i := 0 to |rest|
      invariant !hit
      invariant forall k :: 0 <= k < i ==> rest[k] != positions[0]
    {
      if rest[i] == positions[0] {
        hit := true;
        break;
      }
    }
  }

  /** The apple check (grow by one), then the self-collision check (reset with the
      given direction). The apple is not among what this may modify: it stays where
      it is. */
  method CheckCollision(snake: Snake, apple: Apple, choice: Direction)
    requires |snake.positions| >= 1
    modifies snake
    ensures snake.State() == CollisionChecked(old(snake.State()), apple.position, choice)
    ensures old(snake.Valid()) ==> snake.Valid()
  {
    if snake.GetHeadPosition() == apple.position {
      snake.length := snake.length + 1;
    }
    var hit := HitsOwnBody(snake.positions);
    if hit {
      snake.Reset(choice);
    }
    if old(snake.Valid()) {
      CollisionCheckedKeepsInv(old(snake.State()), apple.position, choice);
    }
  }

  /** One frame of the main loop, with the frame's key presses and the direction a
      reset would pick. */
  method Tick(snake: Snake, apple: Apple, keys: seq<Key>, choice: Direction)
    requires snake.Valid()
    modifies snake
    ensures snake.Valid() && snake.State() == Ticked(old(snake.State()), apple.position, keys, choice)
  {
    HandleKeys(snake, keys);
    snake.UpdateDirection();
    snake.Move();
    CheckCollision(snake, apple, choice);
    TickedKeepsInv(old(snake.State()), apple.position, keys, choice);
  }
}

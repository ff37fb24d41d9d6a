/** The snake's game-state update as functions over a value: committing the buffered
    direction, moving one square, the apple and self-collision checks, reset, and one
    frame of the main loop. The classes in module Game are specified by these. */
module Rules {
  import opened Wrappers
  import opened Grid
  import opened Keys

  /** The fields of a snake: its squares head first, the target segment count, the
      travel direction, the buffered next direction and the last trimmed tail. */
  datatype State = State(
    positions: seq<Cell>,
    length: int,
    direction: Direction,
    next: Option<Direction>,
    last: Option<Cell>)

  predicate AllAligned(ps: seq<Cell>)
  {
    forall i :: 0 <= i < |ps| ==> Aligned(ps[i])
  }

  /** What every state the game reaches satisfies: at least one square, never more
      squares than the target length, and every square on the pixel lattice. */
  predicate Inv(s: State)
  {
    1 <= |s.positions| <= s.length && AllAligned(s.positions)
  }

  /** A new snake: one square in the middle of the screen, heading right. */
  function Initial(): (s: State)
    ensures Inv(s) && s.positions[0] == Cell(320, 240)
    ensures s.length == 1 && s.direction == Right && s.next == None && s.last == None
  {
    State([CENTER], 1, Right, None, None)
  }

  /** Commit the buffered direction, if there is one. */
  function DirectionUpdated(s: State): (r: State)
    ensures r.next == None
    ensures r.direction == if s.next.Some? then s.next.value else s.direction
    ensures r.positions == s.positions && r.length == s.length && r.last == s.last
  {
    match s.next
    case None => s
    case Some(d) => s.(direction := d, next := None)
  }

  /** Committing twice is committing once. */
  lemma DirectionUpdatedIdempotent(s: State)
    ensures DirectionUpdated(DirectionUpdated(s)) == DirectionUpdated(s)
  {
  }

  /** Push a new head one step along the direction and drop the tail, into `last`,
      exactly when the list then holds more than `length` squares. */
  function Moved(s: State): (r: State)
    requires |s.positions| >= 1
    ensures |r.positions| >= 1 && r.positions[0] == Shift(s.positions[0], s.direction)
    ensures |r.positions| == if |s.positions| + 1 > s.length then |s.positions| else |s.positions| + 1
    ensures r.positions[1..] == s.positions[..|r.positions| - 1]
    ensures r.last == if |s.positions| + 1 > s.length then Some(s.positions[|s.positions| - 1]) else s.last
    ensures r.length == s.length && r.direction == s.direction && r.next == s.next
  {
    var grown := [Shift(s.positions[0], s.direction)] + s.positions;
    if |grown| > s.length then
      s.(positions := grown[..|grown| - 1], last := Some(grown[|grown| - 1]))
    else
      s.(positions := grown)
  }

  lemma MovedKeepsInv(s: State)
    requires Inv(s)
    ensures Inv(Moved(s))
  {
  }

  /** The square count stays put while it equals the target length. */
  lemma {:induction false} MovedSteadyLength(s: State, n: nat)
    requires Inv(s) && |s.positions| == s.length
    ensures Inv(Moves(s, n)) && |Moves(s, n).positions| == s.length
    decreases n
  {
    if n > 0 {
      MovedKeepsInv(s);
      MovedSteadyLength(Moved(s), n - 1);
    }
  }

  /** n moves with no other change in between. */
  function Moves(s: State, n: nat): (r: State)
    requires Inv(s)
    ensures Inv(r)
    decreases n
  {
    if n == 0 then s
    else
      MovedKeepsInv(s);
      Moves(Moved(s), n - 1)
  }

  /** Back to one square in the middle of the screen, heading towards the chosen
      direction; the buffered direction and the last tail are left as they were. */
  function ResetTo(s: State, choice: Direction): (r: State)
    ensures Inv(r) && r.positions == [CENTER] && r.length == 1 && r.direction == choice
    ensures r.next == s.next && r.last == s.last
  {
    CenterIsAlignedMiddle();
    s.(length := 1, positions := [CENTER], direction := choice)
  }

  /** The head coincides with some later square. */
  predicate SelfCollides(ps: seq<Cell>)
  {
    exists i :: 1 <= i < |ps| && ps[i] == ps[0]
  }

  /** The apple check (grow by one when the head is on the apple, which stays where
      it is), then the self-collision check (reset). */
  function CollisionChecked(s: State, apple: Cell, choice: Direction): (r: State)
    requires |s.positions| >= 1
  {
    var fed := if s.positions[0] == apple then s.(length := s.length + 1) else s;
    if SelfCollides(fed.positions) then ResetTo(fed, choice) else fed
  }

  /** Eating without biting grows the target length by exactly one and changes
      nothing else. */
  lemma EatingGrowsByOne(s: State, apple: Cell, choice: Direction)
    requires |s.positions| >= 1 && s.positions[0] == apple && !SelfCollides(s.positions)
    ensures CollisionChecked(s, apple, choice) == s.(length := s.length + 1)
  {
  }

  /** Biting the body resets the snake, whether or not it also ate. */
  lemma BitingResets(s: State, apple: Cell, choice: Direction)
    requires |s.positions| >= 1 && SelfCollides(s.positions)
    ensures CollisionChecked(s, apple, choice) == ResetTo(s, choice)
  {
  }

  /** Neither on the apple nor on the body: nothing changes. */
  lemma NoCollisionNoChange(s: State, apple: Cell, choice: Direction)
    requires |s.positions| >= 1 && s.positions[0] != apple && !SelfCollides(s.positions)
    ensures CollisionChecked(s, apple, choice) == s
  {
  }

  lemma CollisionCheckedKeepsInv(s: State, apple: Cell, choice: Direction)
    requires Inv(s)
    ensures Inv(CollisionChecked(s, apple, choice))
  {
  }

  /** Growth shows on the following move: after eating, the next move pushes a head
      and trims nothing. */
  lemma GrowthShowsOnNextMove(s: State, apple: Cell, choice: Direction)
    requires Inv(s) && s.positions[0] == apple && !SelfCollides(s.positions)
    ensures var r := Moved(CollisionChecked(s, apple, choice));
      |r.positions| == |s.positions| + 1 && r.last == s.last
  {
  }

  /** A batch of key presses updates only the buffered direction, and never to the
      reverse of the travel direction. */
  function KeysHandled(s: State, keys: seq<Key>): (r: State)
    ensures r.positions == s.positions && r.length == s.length && r.direction == s.direction && r.last == s.last
    ensures r.next != s.next ==> r.next.Some? && r.next.value != Opposite(s.direction)
  {
    s.(next := PendingAfter(s.direction, s.next, keys))
  }

  /** One frame of the main loop: keys, commit the direction, move, collisions. */
  function Ticked(s: State, apple: Cell, keys: seq<Key>, choice: Direction): (r: State)
    requires |s.positions| >= 1
  {
    CollisionChecked(Moved(DirectionUpdated(KeysHandled(s, keys))), apple, choice)
  }

  lemma TickedKeepsInv(s: State, apple: Cell, keys: seq<Key>, choice: Direction)
    requires Inv(s)
    ensures Inv(Ticked(s, apple, keys, choice))
  {
  }

  /** The snake never turns back on itself within a frame: unless the buffer already
      held the reversal, the direction it moves in is not the opposite of before. */
  lemma NoReversalInOneTick(s: State, keys: seq<Key>)
    requires s.next != Some(Opposite(s.direction))
    ensures DirectionUpdated(KeysHandled(s, keys)).direction != Opposite(s.direction)
  {
  }

  /** What one frame takes from outside: the key presses and the direction a reset
      would pick. */
  datatype Input = Input(keys: seq<Key>, choice: Direction)

  /** Frames run one after another; the apple never moves. */
  function Run(s: State, apple: Cell, inputs: seq<Input>): (r: State)
    requires Inv(s)
    ensures Inv(r)
    decreases |inputs|
  {
    if inputs == [] then s
    else
      TickedKeepsInv(s, apple, inputs[0].keys, inputs[0].choice);
      Run(Ticked(s, apple, inputs[0].keys, inputs[0].choice), apple, inputs[1..])
  }

  /** Three quiet frames from the start: the head has gone three squares right and
      the snake is still one square long. */
  lemma ThreeQuietFrames(apple: Cell, choice: Direction)
    requires apple.y != 240
    ensures Run(Initial(), apple, [Input([], choice), Input([], choice), Input([], choice)]).positions
      == [Cell(380, 240)]
  {
    var quiet := Input([], choice);
    var s1 := Ticked(Initial(), apple, [], choice);
    assert s1.positions == [Cell(340, 240)];
    var s2 := Ticked(s1, apple, [], choice);
    assert s2.positions == [Cell(360, 240)];
    var s3 := Ticked(s2, apple, [], choice);
    assert s3.positions == [Cell(380, 240)];
    assert [quiet, quiet, quiet][1..] == [quiet, quiet];
    assert [quiet, quiet][1..] == [quiet];
    assert Run(s3, apple, []) == s3;
    assert Run(s2, apple, [quiet]) == s3;
    assert Run(s1, apple, [quiet, quiet]) == s3;
  }

  /** What a Python `positions` attribute can hold: a list of squares, or a bare pair
      of integers. */
  datatype PositionsValue = CellList(cells: seq<Cell>) | BareTuple(first: int, second: int)

  /** `positions` as reset writes it: the pair (320, 240) itself, not a list holding it. */
  function ResetPositionsAsWritten(): (p: PositionsValue)
    ensures p == BareTuple(320, 240)
  {
    BareTuple(SCREEN_WIDTH / 2, SCREEN_HEIGHT / 2)
  }

  /** The head square move reads as `positions[0][0], positions[0][1]`; None where that
      raises (an empty list, or a first element that is an integer). */
  function HeadAsRead(p: PositionsValue): Option<Cell>
  {
    match p
    case CellList(cells) => if cells == [] then None else Some(cells[0])
    case BareTuple(_, _) => None
  }

  /** After reset as written, the next move has no head to step from, whereas the
      one-element list the constructor uses has the centre square as its head. */
  lemma ResetAsWrittenLosesHead()
    ensures HeadAsRead(ResetPositionsAsWritten()) == None
    ensures HeadAsRead(CellList(ResetTo(Initial(), Up).positions)) == Some(CENTER)
  {
  }
}

/** The arrow-key rule of the game's input handler: which direction a key press
    buffers as the snake's next direction. Event polling is not modelled; a batch of
    key-down events is a sequence of abstract keys. */
module Keys {
  import opened Wrappers
  import opened Grid

  /** The key of one key-down event: an arrow key, or any other key. */
  datatype Key = ArrowUp | ArrowDown | ArrowLeft | ArrowRight | OtherKey

  /** The direction an arrow key asks for; None for any other key. */
  function Requested(k: Key): Option<Direction>
  {
    match k
    case ArrowUp => Some(Up)
    case ArrowDown => Some(Down)
    case ArrowLeft => Some(Left)
    case ArrowRight => Some(Right)
    case OtherKey => None
  }

  /** The direction one key press buffers while the snake travels towards `current`,
      or None when the press is ignored. The if/elif chain of the handler. */
  function Accepted(current: Direction, k: Key): (r: Option<Direction>)
    ensures r.Some? <==> Requested(k).Some? && Requested(k).value != Opposite(current)
    ensures r.Some? ==> r == Requested(k)
  {
    if k == ArrowUp && current != Down then Some(Up)
    else if k == ArrowDown && current != Up then Some(Down)
    else if k == ArrowLeft && current != Right then Some(Left)
    else if k == ArrowRight && current != Left then Some(Right)
    else None
  }

  /** The buffered direction after a batch of key presses, starting from `pending`.
      Every press is judged against `current`, never against what is buffered. */
  function PendingAfter(current: Direction, pending: Option<Direction>, keys: seq<Key>): (r: Option<Direction>)
    ensures r == pending || (r.Some? && exists i :: 0 <= i < |keys| && Accepted(current, keys[i]) == r)
    ensures r != pending ==> r.Some? && r.value != Opposite(current)
    decreases |keys|
  {
    if keys == [] then pending
    else
      var n := |keys| - 1;
      match Accepted(current, keys[n])
      case Some(d) => Some(d)
      case None =>
        var p := PendingAfter(current, pending, keys[..n]);
        assert forall i :: 0 <= i < n ==> keys[..n][i] == keys[i];
        p
  }

  /** The last accepted press of a batch decides the buffered direction. */
  lemma {:induction false} LastAcceptedWins(current: Direction, pending: Option<Direction>, keys: seq<Key>, i: int)
    requires 0 <= i < |keys| && Accepted(current, keys[i]).Some?
    requires forall j :: i < j < |keys| ==> Accepted(current, keys[j]) == None
    ensures PendingAfter(current, pending, keys) == Accepted(current, keys[i])
  {
    var n := |keys| - 1;
    if i < n {
      var front := keys[..n];
      assert forall j :: i < j < n ==> front[j] == keys[j];
      LastAcceptedWins(current, pending, front, i);
    }
  }

  /** A batch in which every press is ignored leaves the buffer as it was. */
  lemma NothingAcceptedKeepsPending(current: Direction, pending: Option<Direction>, keys: seq<Key>)
    requires forall j :: 0 <= j < |keys| ==> Accepted(current, keys[j]) == None
    ensures PendingAfter(current, pending, keys) == pending
  {
  }

  /** Once some press of a batch is accepted, what was buffered before the batch no
      longer matters. */
  lemma {:induction false} AcceptedPressOverridesPending(current: Direction, p: Option<Direction>, q: Option<Direction>, keys: seq<Key>, i: int)
    requires 0 <= i < |keys| && Accepted(current, keys[i]).Some?
    ensures PendingAfter(current, p, keys) == PendingAfter(current, q, keys)
  {
    var n := |keys| - 1;
    if i < n && Accepted(current, keys[n]).None? {
      assert keys[..n][i] == keys[i];
      AcceptedPressOverridesPending(current, p, q, keys[..n], i);
    }
  }

  /** A press that reverses the buffered (not the current) direction is accepted:
      travelling right, UP then DOWN buffers DOWN; and LEFT after UP is still refused. */
  lemma JudgedAgainstCurrentOnly()
    ensures PendingAfter(Right, None, [ArrowUp, ArrowDown]) == Some(Down)
    ensures PendingAfter(Right, None, [ArrowUp, ArrowLeft]) == Some(Up)
  {
  }
}

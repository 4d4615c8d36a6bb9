/** The keyboard events the game reacts to. */
module Keys {
  import opened Board

  datatype Option<T> = None | Some(value: T)

  /**
   * A key-down event, reduced to the two properties the game reads: the
   * physical key `code` and the produced `key` value.
   */
  datatype KeyEvent = KeyEvent(code: string, key: string)

  /** The `key` value of the arrow key for each heading. */
  function ArrowKey(d: Direction): string {
    match d
    case Up => "ArrowUp"
    case Down => "ArrowDown"
    case Left => "ArrowLeft"
    case Right => "ArrowRight"
  }

  /** The heading an arrow key selects; every other key selects none. */
  function KeyDirection(key: string): (r: Option<Direction>)
    ensures forall d :: r == Some(d) <==> key == ArrowKey(d)
  {
    if key == "ArrowUp" then Some(Up)
    else if key == "ArrowDown" then Some(Down)
    else if key == "ArrowLeft" then Some(Left)
    else if key == "ArrowRight" then Some(Right)
    else None
  }

  /** The event is the space bar, recognised by either its code or its key value. */
  predicate IsSpace(e: KeyEvent) {
    e.code == "Space" || e.key == " "
  }
}

/**
 * The game session: the game's globals as the fields of one object, and the
 * operations that update them in place. Rendering and score text are not
 * modelled; the interval timer is reduced to the `clock` field.
 */
module Game {
  import opened Board
  import opened Rules
  import opened Keys

  /** The periodic tick timer: not running, or firing every `interval` ms. */
  datatype Clock = Stopped | Ticking(interval: int)

  /** Every field of a session at one instant. */
  datatype Snapshot = Snapshot(
    snake: seq<Coord>,
    food: Coord,
    direction: Direction,
    gameSpeedDelay: int,
    gameStarted: bool,
    highScore: int,
    clock: Clock)

  class GameSession {
    /** Body segments, head first. */
    var snake: seq<Coord>
    var food: Coord
    var direction: Direction
    /** Milliseconds between ticks. */
    var gameSpeedDelay: int
    var gameStarted: bool
    var highScore: int
    /** The one live timer of the session. */
    var clock: Clock

    ghost function View(): Snapshot
      reads this
    {
      Snapshot(snake, food, direction, gameSpeedDelay, gameStarted, highScore, clock)
    }

    /**
     * The session invariant: the snake is never empty, the food is on the
     * board, the delay stays between the floor and its initial value, and the
     * timer runs exactly while the game is started, at the current delay.
     */
    ghost predicate Valid()
      reads this
    {
      && |snake| > 0
      && OnBoard(food)
      && MIN_DELAY <= gameSpeedDelay <= INITIAL_DELAY
      && 0 <= highScore
      && (gameStarted <==> clock.Ticking?)
      && (clock.Ticking? ==> clock.interval == gameSpeedDelay)
    }

    /** The invariant between ticks: in addition the snake is settled on the board. */
    ghost predicate AtRest()
      reads this
    {
      Valid() && Settled(snake)
    }

    /** The fields are those a reset leaves behind, from the given high score and snake. */
    ghost predicate IsResetOf(oldHighScore: int, oldSnake: seq<Coord>, freshFood: Coord)
      reads this
    {
      && snake == [START_CELL]
      && food == freshFood
      && direction == Right
      && gameSpeedDelay == INITIAL_DELAY
      && !gameStarted
      && clock == Stopped
      && highScore == Max(oldHighScore, Score(oldSnake))
    }

    /** The globals as the game sets them up when it loads; `firstFood` is the generated food. */
    constructor (firstFood: Coord)
      requires OnBoard(firstFood)
      ensures AtRest()
      ensures View() == Snapshot([START_CELL], firstFood, Right, INITIAL_DELAY, false, 0, Stopped)
    {
      snake := [START_CELL];
      food := firstFood;
      highScore := 0;
      direction := Right;
      gameSpeedDelay := INITIAL_DELAY;
      gameStarted := false;
      clock := Stopped;
    }

    /**
     * One move: a copy of the head shifted one cell in the current heading goes
     * in front. On the food, the tail stays, new food appears (`mealFood`), the
     * game speeds up and the timer restarts at the new delay; otherwise the
     * tail is dropped.
     */
    method Move(mealFood: Coord)
      requires Valid() && gameStarted && OnBoard(mealFood)
      modifies this
      ensures Valid()
      ensures snake == Moved(old(snake), old(direction), old(food))
      ensures var ate := Ate(old(snake), old(direction), old(food));
        View() == old(View()).(
          snake := snake,
          food := if ate then mealFood else old(food),
          gameSpeedDelay := if ate then NextDelay(old(gameSpeedDelay)) else old(gameSpeedDelay),
          clock := Ticking(gameSpeedDelay))
    {
      var head := snake[0];
      match direction {
        case Up => head := head.(y := head.y - 1);
        case Down => head := head.(y := head.y + 1);
        case Left => head := head.(x := head.x - 1);
        case Right => head := head.(x := head.x + 1);
      }
      snake := [head] + snake;
      if head.x == food.x && head.y == food.y {
        food := mealFood;
        IncreaseSpeed();
        clock := Ticking(gameSpeedDelay);
      } else {
        snake := snake[..|snake| - 1];
      }
    }

    /** Starts the game: the timer begins firing at the current delay. */
    method StartGame()
      requires Valid() && !gameStarted
      modifies this
      ensures Valid()
      ensures View() == old(View()).(gameStarted := true, clock := Ticking(gameSpeedDelay))
    {
      gameStarted := true;
      clock := Ticking(gameSpeedDelay);
    }

    /**
     * The key handler: the space bar starts a game that is not running; any
     * other event (including the space bar during a game) may change the
     * heading, and only an arrow key does.
     */
    method HandleKeyPress(e: KeyEvent)
      requires Valid()
      modifies this
      ensures Valid()
      ensures !old(gameStarted) && IsSpace(e) ==>
        View() == old(View()).(gameStarted := true, clock := Ticking(gameSpeedDelay))
      ensures !(!old(gameStarted) && IsSpace(e)) ==>
        View() == old(View()).(direction := match KeyDirection(e.key)
                                            case Some(d) => d
                                            case None => old(direction))
    {
      if (!gameStarted && e.code == "Space") || (!gameStarted && e.key == " ") {
        StartGame();
      } else {
        match KeyDirection(e.key) {
          case Some(d) => direction := d;
          case None =>
        }
      }
    }

    /** Lowers the delay by the step of the band it lies in, down to the floor. */
    method IncreaseSpeed()
      modifies this`gameSpeedDelay
      ensures gameSpeedDelay == NextDelay(old(gameSpeedDelay))
    {
      if gameSpeedDelay > 150 {
        gameSpeedDelay := gameSpeedDelay - 5;
      } else if gameSpeedDelay > 100 {
        gameSpeedDelay := gameSpeedDelay - 3;
      } else if gameSpeedDelay > 50 {
        gameSpeedDelay := gameSpeedDelay - 2;
      } else if gameSpeedDelay > 25 {
        gameSpeedDelay := gameSpeedDelay - 1;
      }
    }

    /**
     * The collision check: resets the game (with `freshFood` as its new food)
     * when the head is off the board or on another segment, and otherwise
     * changes nothing.
     */
    method CheckCollision(freshFood: Coord)
      requires Valid() && OnBoard(freshFood)
      modifies this
      ensures Valid()
      ensures Collides(old(snake)) ==> IsResetOf(old(highScore), old(snake), freshFood)
      ensures !Collides(old(snake)) ==> View() == old(View())
    {
      var head := snake[0];
      ghost var reset := false;
      if head.x < 1 || head.x > GRID_SIZE || head.y < 1 || head.y > GRID_SIZE {
        ResetGame(freshFood);
        reset := true;
      }
      // The scan runs over the current snake, which a reset replaces by a
      // single segment: after a reset the loop ends, so it resets at most once.
      var i := 1;
      while i < |snake|
        invariant Valid()
        invariant 1 <= i
        invariant head == old(snake)[0]
        invariant reset ==> Collides(old(snake)) && IsResetOf(old(highScore), old(snake), freshFood)
        invariant !reset ==> !HitsWall(head) && View() == old(View()) && i <= |snake|
        invariant !reset ==> forall k :: 1 <= k < i ==> snake[k] != head
      {
        if head.x == snake[i].x && head.y == snake[i].y {
          ResetGame(freshFood);
          reset := true;
        }
        i := i + 1;
      }
    }

    /**
     * Ends the game and sets everything but the high score back to its initial
     * value; the high score takes in the score of the game that ended.
     */
    method ResetGame(freshFood: Coord)
      requires Valid() && OnBoard(freshFood)
      modifies this
      ensures AtRest()
      ensures IsResetOf(old(highScore), old(snake), freshFood)
      ensures old(highScore) <= highScore
    {
      UpdateHighScore();
      StopGame();
      snake := [START_CELL];
      food := freshFood;
      direction := Right;
      gameSpeedDelay := INITIAL_DELAY;
    }

    /** Stops the timer and marks the game as not started. */
    method StopGame()
      modifies this`clock, this`gameStarted
      ensures clock == Stopped && !gameStarted
    {
      clock := Stopped;
      gameStarted := false;
    }

    /** Raises the high score to the current score when that is higher. */
    method UpdateHighScore()
      modifies this`highScore
      ensures highScore == Max(old(highScore), Score(snake))
      ensures old(highScore) <= highScore && Score(snake) <= highScore
    {
      var currentScore := |snake| - 1;
      if currentScore > highScore {
        highScore := currentScore;
      }
    }

    /**
     * One timer tick: a move followed by the collision check. `mealFood` is the
     * food generated if the move eats, `freshFood` the one generated if the
     * check resets the game.
     */
    method Tick(mealFood: Coord, freshFood: Coord)
      requires AtRest() && gameStarted && OnBoard(mealFood) && OnBoard(freshFood)
      modifies this
      ensures AtRest()
      ensures old(highScore) <= highScore
      ensures var moved := Moved(old(snake), old(direction), old(food));
        var ate := Ate(old(snake), old(direction), old(food));
        if Collides(moved) then IsResetOf(old(highScore), moved, freshFood)
        else View() == old(View()).(
          snake := moved,
          food := if ate then mealFood else old(food),
          gameSpeedDelay := if ate then NextDelay(old(gameSpeedDelay)) else old(gameSpeedDelay),
          clock := Ticking(gameSpeedDelay))
    {
      ghost var before := snake;
      Move(mealFood);
      ghost var moved := snake;
      CheckCollision(freshFood);
      if !Collides(moved) {
        MovedSettled(before, old(direction), old(food));
      }
    }
  }

  /** Worked scenarios: what the contracts above let a caller conclude. */
  method Scenarios() {
    // Eating the food straight ahead grows the snake and speeds the game up.
    var g := new GameSession(Coord(11, 10));
    g.HandleKeyPress(KeyEvent("Space", " "));
    assert g.gameStarted && g.clock == Ticking(200);
    g.Tick(Coord(3, 4), Coord(5, 5));
    assert g.snake == [Coord(11, 10), Coord(10, 10)];
    assert Score(g.snake) == 1 && g.gameSpeedDelay == 195 && g.food == Coord(3, 4);
    assert g.clock == Ticking(195);

    // During a game the space bar changes nothing and an arrow key turns.
    g.HandleKeyPress(KeyEvent("Space", " "));
    assert g.direction == Right;
    g.HandleKeyPress(KeyEvent("ArrowDown", "ArrowDown"));
    assert g.direction == Down;

    // Running off the left edge resets the game.
    var w := new GameSession(Coord(5, 5));
    w.snake := [Coord(1, 10)];
    w.direction := Left;
    w.HandleKeyPress(KeyEvent("Space", " "));
    w.Tick(Coord(3, 4), Coord(7, 7));
    assert w.snake == [START_CELL] && w.food == Coord(7, 7) && w.direction == Right;
    assert !w.gameStarted && w.clock == Stopped && w.gameSpeedDelay == 200 && w.highScore == 0;

    // The last steps of the speed table.
    assert NextDelay(26) == 25 && NextDelay(NextDelay(26)) == 25;
  }
}

/**
 * The rules of the game on plain values: how one move changes the snake, when
 * the head has collided, how the tick delay shrinks after a meal and how the
 * high score follows the scores of finished games. The session class in
 * module Game is specified in terms of these functions.
 */
module Rules {
  import opened Board

  /** The single segment every game starts with, at the centre of the board. */
  const START_CELL: Coord := Coord(10, 10)

  /** Milliseconds between ticks at the start of every game. */
  const INITIAL_DELAY: int := 200

  /** The delay below which a meal no longer speeds the game up. */
  const MIN_DELAY: int := 25

  function Max(a: int, b: int): int {
    if a < b then b else a
  }

  /** The score shown for a snake: its segments beyond the starting one. */
  function Score(s: seq<Coord>): int {
    |s| - 1
  }

  // ---------------------------------------------------------------------------
  // One move
  // ---------------------------------------------------------------------------

  /** The head's next cell, in heading `d`, is the food cell. */
  predicate Ate(s: seq<Coord>, d: Direction, food: Coord)
    requires |s| > 0
  {
    Step(s[0], d) == food
  }

  /**
   * The snake after one move in heading `d` with the food at `food`: the new
   * head goes in front; the tail is kept when the new head is on the food and
   * dropped otherwise.
   */
  function Moved(s: seq<Coord>, d: Direction, food: Coord): (r: seq<Coord>)
    requires |s| > 0
    ensures |r| > 0 && r[0] == Step(s[0], d)
    ensures |r| == |s| + 1 <==> Ate(s, d, food)
    ensures |r| == |s| <==> !Ate(s, d, food)
    ensures forall i :: 1 <= i < |r| ==> r[i] == s[i - 1]
  {
    var head := Step(s[0], d);
    if head == food then [head] + s else [head] + s[..|s| - 1]
  }

  // ---------------------------------------------------------------------------
  // Collisions
  // ---------------------------------------------------------------------------

  /** The head lies on one of the other segments. */
  predicate SelfHit(s: seq<Coord>)
    requires |s| > 0
  {
    exists i :: 1 <= i < |s| && s[i] == s[0]
  }

  /** Either test of the collision check fires. */
  predicate Collides(s: seq<Coord>)
    requires |s| > 0
  {
    HitsWall(s[0]) || SelfHit(s)
  }

  /** A snake as it is shown between ticks: every segment on the board, no two on one cell. */
  predicate Settled(s: seq<Coord>) {
    && |s| > 0
    && (forall i :: 0 <= i < |s| ==> OnBoard(s[i]))
    && (forall i, j :: 0 <= i < j < |s| ==> s[i] != s[j])
  }

  /** A move that the collision check lets through leaves a settled snake settled. */
  lemma MovedSettled(s: seq<Coord>, d: Direction, food: Coord)
    requires Settled(s)
    requires !Collides(Moved(s, d, food))
    ensures Settled(Moved(s, d, food))
  {
    var r := Moved(s, d, food);
    forall i | 0 <= i < |r|
      ensures OnBoard(r[i])
    {
      if i > 0 {
        assert r[i] == s[i - 1];
      }
    }
    forall i, j | 0 <= i < j < |r|
      ensures r[i] != r[j]
    {
      if i > 0 {
        assert r[i] == s[i - 1] && r[j] == s[j - 1];
      }
    }
  }

  /** A meal lies on the board, so eating it never runs the head into a wall. */
  lemma EatingStaysOnBoard(s: seq<Coord>, d: Direction, food: Coord)
    requires |s| > 0 && OnBoard(food) && Ate(s, d, food)
    ensures !HitsWall(Moved(s, d, food)[0])
  {
  }

  /**
   * Food may lie on the body (the generator does not look at the snake). Eating
   * food that lies on segment k keeps that segment, so the head collides with it.
   */
  lemma FoodOnBodyCollides(s: seq<Coord>, d: Direction, k: int)
    requires 1 <= k < |s| && Step(s[0], d) == s[k]
    ensures SelfHit(Moved(s, d, s[k]))
  {
    var r := Moved(s, d, s[k]);
    assert r[k + 1] == s[k] == r[0];
  }

  /**
   * Turning straight back from length three on: the head re-enters the cell of
   * the second segment, which the move keeps, so the snake hits itself.
   * Here `prev` is the heading of the move that placed the head.
   */
  lemma ReversalCollides(s: seq<Coord>, prev: Direction, food: Coord)
    requires |s| >= 3 && s[0] == Step(s[1], prev)
    ensures SelfHit(Moved(s, Opposite(prev), food))
  {
    StepBack(s[1], prev);
    var r := Moved(s, Opposite(prev), food);
    assert r[2] == s[1] == r[0];
  }

  /**
   * Turning straight back at length two, with no meal on the cell: the tail is
   * dropped from the cell the head re-enters, so the snake survives.
   */
  lemma ShortReversalSurvives(s: seq<Coord>, prev: Direction, food: Coord)
    requires |s| == 2 && s[0] == Step(s[1], prev) && OnBoard(s[1])
    requires !Ate(s, Opposite(prev), food)
    ensures !Collides(Moved(s, Opposite(prev), food))
  {
    StepBack(s[1], prev);
    var r := Moved(s, Opposite(prev), food);
    assert r == [s[1], s[0]];
  }

  /**
   * Moving into the cell the tail leaves is safe when there is no meal there:
   * the tail is dropped before anything can hit it.
   */
  lemma FollowTailSurvives(s: seq<Coord>, d: Direction, food: Coord)
    requires Settled(s) && Step(s[0], d) == s[|s| - 1]
    requires !Ate(s, d, food)
    ensures !Collides(Moved(s, d, food))
  {
    var r := Moved(s, d, food);
    forall i | 1 <= i < |r|
      ensures r[i] != r[0]
    {
      assert r[i] == s[i - 1];
    }
  }

  // ---------------------------------------------------------------------------
  // Runs of moves and the score
  // ---------------------------------------------------------------------------

  /** The snake after a run of moves; `foods[i]` is the food in place at move i. */
  function Play(s: seq<Coord>, dirs: seq<Direction>, foods: seq<Coord>): (r: seq<Coord>)
    requires |s| > 0 && |dirs| == |foods|
    ensures |r| > 0
    decreases |dirs|
  {
    if |dirs| == 0 then s else Play(Moved(s, dirs[0], foods[0]), dirs[1..], foods[1..])
  }

  /** How many moves of the run land on the food. */
  function Meals(s: seq<Coord>, dirs: seq<Direction>, foods: seq<Coord>): nat
    requires |s| > 0 && |dirs| == |foods|
    decreases |dirs|
  {
    if |dirs| == 0 then 0
    else (if Ate(s, dirs[0], foods[0]) then 1 else 0) + Meals(Moved(s, dirs[0], foods[0]), dirs[1..], foods[1..])
  }

  /** A run of moves lengthens the snake by exactly one segment per meal. */
  lemma {:induction false} PlayGrowsByMeals(s: seq<Coord>, dirs: seq<Direction>, foods: seq<Coord>)
    requires |s| > 0 && |dirs| == |foods|
    ensures |Play(s, dirs, foods)| == |s| + Meals(s, dirs, foods)
    decreases |dirs|
  {
    if |dirs| > 0 {
      PlayGrowsByMeals(Moved(s, dirs[0], foods[0]), dirs[1..], foods[1..]);
    }
  }

  /** Starting from the single-segment snake, the score is the number of meals. */
  lemma ScoreCountsMeals(dirs: seq<Direction>, foods: seq<Coord>)
    requires |dirs| == |foods|
    ensures Score(Play([START_CELL], dirs, foods)) == Meals([START_CELL], dirs, foods)
  {
    PlayGrowsByMeals([START_CELL], dirs, foods);
  }

  // ---------------------------------------------------------------------------
  // Speed
  // ---------------------------------------------------------------------------

  /**
   * The tick delay after one meal: 5 ms less above 150, 3 ms less above 100,
   * 2 ms less above 50, 1 ms less above 25, and no change from 25 down.
   */
  function NextDelay(d: int): (r: int)
    ensures r <= d && d - 5 <= r
    ensures d <= MIN_DELAY ==> r == d
    ensures d > MIN_DELAY ==> MIN_DELAY <= r < d
  {
    if d > 150 then d - 5
    else if d > 100 then d - 3
    else if d > 50 then d - 2
    else if d > 25 then d - 1
    else d
  }

  /** At the floor a meal changes nothing, however often it happens. */
  lemma NextDelayIdempotentAtFloor(d: int)
    requires d <= MIN_DELAY
    ensures NextDelay(NextDelay(d)) == NextDelay(d) == d
  {
  }

  /** The tick delay after `n` meals in one game, starting from delay `d`. */
  function DelayAfter(n: nat, d: int): (r: int)
    ensures r <= d
    ensures MIN_DELAY <= d ==> MIN_DELAY <= r
    ensures d <= MIN_DELAY ==> r == d
  {
    if n == 0 then d else DelayAfter(n - 1, NextDelay(d))
  }

  lemma {:induction false} DelayAfterSplit(a: nat, b: nat, d: int)
    ensures DelayAfter(a + b, d) == DelayAfter(b, DelayAfter(a, d))
    decreases a
  {
    if a > 0 {
      DelayAfterSplit(a - 1, b, NextDelay(d));
    }
  }

  /**
   * Within one band of the speed table every meal takes off the same amount `c`,
   * so `k` meals that all stay above the band's lower bound `lo` take off `c * k`.
   */
  lemma {:induction false} BandRun(k: nat, d: int, lo: int, c: int)
    requires (lo == 150 && c == 5) || (lo == 100 && c == 3 && d <= 150)
          || (lo == 50 && c == 2 && d <= 100) || (lo == 25 && c == 1 && d <= 50)
    requires k > 0 ==> d - c * (k - 1) > lo
    ensures DelayAfter(k, d) == d - c * k
    decreases k
  {
    if k > 0 {
      assert c * (k - 1) >= 0;
      assert NextDelay(d) == d - c;
      assert (d - c) - c * (k - 2) == d - c * (k - 1);
      BandRun(k - 1, d - c, lo, c);
      assert (d - c) - c * (k - 1) == d - c * k;
    }
  }

  /**
   * From the initial 200 ms it takes exactly 76 meals in one game to reach the
   * 25 ms floor (10 in the first band, 17, 25 and 24 in the next); from then on
   * the delay stays there.
   */
  lemma DelayReachesFloor()
    ensures DelayAfter(75, INITIAL_DELAY) == MIN_DELAY + 1
    ensures forall n: nat :: 76 <= n ==> DelayAfter(n, INITIAL_DELAY) == MIN_DELAY
  {
    BandRun(10, 200, 150, 5);
    BandRun(17, 150, 100, 3);
    BandRun(25, 99, 50, 2);
    BandRun(23, 49, 25, 1);
    BandRun(24, 49, 25, 1);
    DelayAfterSplit(10, 17, 200);
    DelayAfterSplit(27, 25, 200);
    DelayAfterSplit(52, 23, 200);
    DelayAfterSplit(52, 24, 200);
    forall n: nat | 76 <= n
      ensures DelayAfter(n, INITIAL_DELAY) == MIN_DELAY
    {
      DelayAfterSplit(76, n - 76, 200);
    }
  }

  // ---------------------------------------------------------------------------
  // High score
  // ---------------------------------------------------------------------------

  /**
   * The high score after games ending with the given scores, one high-score
   * update per game, starting from high score `h`.
   */
  function BestScore(h: int, scores: seq<int>): (r: int)
    ensures h <= r
    ensures forall i :: 0 <= i < |scores| ==> scores[i] <= r
    ensures r == h || r in scores
    decreases |scores|
  {
    if |scores| == 0 then h else BestScore(Max(h, scores[0]), scores[1..])
  }
}

/** What one update, a reset and a turn do to a game, proved about the functions of `Engine`. */
module EngineLemmas {
  import opened Wrappers
  import opened Grid
  import opened Engine

  /** `reset` lays out the documented start: one head segment on (10, 10) heading right, score 0,
      base speed, an empty accumulator and the snapshot equal to the body; it leaves `gameOver`
      alone, and the state satisfies the game invariant. */
  lemma NewGameStart(gameOver: bool, draws: seq<Draw>)
    requires FoodDraws([Segment(START, true, None)], draws)
    ensures Inv(NewGame(gameOver, draws))
    ensures NewGame(gameOver, draws).gameOver == gameOver
    ensures NewGame(gameOver, draws).segments == [Segment(START, true, None)]
    ensures NewGame(gameOver, draws).lastPositions == NewGame(gameOver, draws).segments
    ensures NewGame(gameOver, draws).direction == RIGHT && NewGame(gameOver, draws).nextDirection == RIGHT
    ensures NewGame(gameOver, draws).score == 0 && NewGame(gameOver, draws).speed2 == BASE_SPEED2
    ensures NewGame(gameOver, draws).accMs == 0 && NewGame(gameOver, draws).effect == None
    ensures NewGame(gameOver, draws).food.pos != START
  {
    var s := NewGame(gameOver, draws);
    assert s.food.pos != START by {
      assert s.segments[0].pos == START;
    }
  }

  /** An input on a running game changes at most `nextDirection`, keeps the invariant, and
      never makes the buffered direction the reverse of the current one. */
  lemma SteeredKeepsInv(s: GameState, req: Option<Request>)
    requires Inv(s)
    ensures Inv(Steered(s, req))
    ensures Steered(s, req) == s.(nextDirection := Steered(s, req).nextDirection)
    ensures !Reverse(Steered(s, req).nextDirection, s.direction)
  {
    if req.Some? {
      SteerNeverReverses(s.direction, s.nextDirection, req.value);
    }
  }

  /** While the game is over an update changes nothing. */
  lemma StepWhileOver(s: GameState, dt: nat, draws: seq<Draw>)
    requires |s.segments| >= 1 && s.gameOver
    ensures Step(s, dt, draws) == s
  {
  }

  lemma MoveKeepsInv(s: GameState, dt: nat, draws: seq<Draw>)
    requires Inv(s) && Stepping(s, dt) && !Eats(s, dt)
    ensures Inv(Step(s, dt, draws))
  {
    var t := Step(s, dt, draws);
    var head := Moved(s.segments[0].pos, s.nextDirection);
    MovedInGrid(s.segments[0].pos, s.nextDirection);
    ShiftedFollowsLeader(s.segments, head);
    assert t.segments == Shifted(s.segments, head);
    forall i | 1 <= i < |t.segments|
      ensures !t.segments[i].isHead && t.segments[i].meme == s.segments[i].meme
    {
      assert t.segments[i] == Segment(s.segments[i - 1].pos, false, s.segments[i].meme);
    }
    assert !OnSnake(s.food.pos, t.segments) by {
      forall i | 0 <= i < |t.segments|
        ensures t.segments[i].pos != s.food.pos
      {
        if i > 0 {
          assert t.segments[i].pos == s.segments[i - 1].pos;
        }
      }
    }
  }

  lemma EatKeepsInv(s: GameState, dt: nat, draws: seq<Draw>)
    requires Inv(s) && Eats(s, dt) && FoodDraws(s.segments, draws)
    ensures Inv(Step(s, dt, draws))
  {
    var t := Step(s, dt, draws);
    assert t.segments == Grown(s.segments, s.food);
    assert t.speed2 == SpeedAfter(t.score);
  }

  lemma TickKeepsInv(s: GameState, dt: nat, draws: seq<Draw>)
    requires Inv(s) && !Stepping(s, dt)
    ensures Inv(Step(s, dt, draws))
  {
    if !s.gameOver {
      var t := s.(foodAnimMs := s.foodAnimMs + dt, effect := TickEffect(s.effect, dt),
                  accMs := s.accMs + dt);
      assert Step(s, dt, draws) == t;
      assert WellFormed(t.segments) && t.speed2 == SpeedAfter(t.score);
    }
  }

  /** Every update keeps the game invariant. */
  lemma StepKeepsInv(s: GameState, dt: nat, draws: seq<Draw>)
    requires Inv(s)
    requires Eats(s, dt) ==> FoodDraws(s.segments, draws)
    ensures Inv(Step(s, dt, draws))
  {
    if !Stepping(s, dt) {
      TickKeepsInv(s, dt, draws);
    } else {
      if Eats(s, dt) {
        EatKeepsInv(s, dt, draws);
      } else {
        MoveKeepsInv(s, dt, draws);
      }
    }
  }

  /** Timing: time is added to the accumulator and the food animation clock; when the
      accumulator reaches the move interval exactly one grid step happens and zeroes it,
      otherwise the body, direction, food, score and speed stay. The food-eaten effect advances
      by `dt` on every update that does not eat (an eating step restarts it). Either way the accumulator
      ends below the interval of the new speed, and the head moves at most one cell. */
  lemma StepTiming(s: GameState, dt: nat, draws: seq<Draw>)
    requires Inv(s) && !s.gameOver
    requires Eats(s, dt) ==> FoodDraws(s.segments, draws)
    ensures Step(s, dt, draws).foodAnimMs == s.foodAnimMs + dt
    ensures Step(s, dt, draws).accMs == if Stepping(s, dt) then 0 else s.accMs + dt
    ensures !StepDue(Step(s, dt, draws).accMs, Step(s, dt, draws).speed2)
    ensures !Stepping(s, dt) ==> Step(s, dt, draws) == s.(foodAnimMs := s.foodAnimMs + dt,
              effect := TickEffect(s.effect, dt), accMs := s.accMs + dt)
    ensures !Eats(s, dt) ==> Step(s, dt, draws).effect == TickEffect(s.effect, dt)
    ensures Step(s, dt, draws).segments[0].pos in {s.segments[0].pos, Moved(s.segments[0].pos, s.nextDirection)}
  {
    var t := Step(s, dt, draws);
    if Stepping(s, dt) && !Eats(s, dt) {
      ShiftedFollowsLeader(s.segments, Moved(s.segments[0].pos, s.nextDirection));
    }
  }

  /** A grid step always commits the buffered direction; the new head is the old head moved
      one cell that way with wrap-around, so it is on the board; and the game ends exactly when
      the new body collides. */
  lemma StepHeadAndCollision(s: GameState, dt: nat, draws: seq<Draw>)
    requires Inv(s) && Stepping(s, dt)
    requires Eats(s, dt) ==> FoodDraws(s.segments, draws)
    ensures Step(s, dt, draws).direction == s.nextDirection
    ensures Step(s, dt, draws).nextDirection == s.nextDirection
    ensures Step(s, dt, draws).gameOver <==> Collides(Step(s, dt, draws).segments)
    ensures InGrid(Step(s, dt, draws).segments[0].pos)
    ensures !Eats(s, dt) ==> Step(s, dt, draws).segments[0].pos == Moved(s.segments[0].pos, s.nextDirection)
  {
    StepKeepsInv(s, dt, draws);
    if !Eats(s, dt) {
      ShiftedFollowsLeader(s.segments, Moved(s.segments[0].pos, s.nextDirection));
    }
  }

  /** A step that does not eat keeps the length and the sequence of memes; segment 0 becomes
      the new head and every other segment takes its predecessor's old cell; the snapshot is the
      body before the step; food, score and speed stay. */
  lemma MoveStep(s: GameState, dt: nat, draws: seq<Draw>)
    requires Inv(s) && Stepping(s, dt) && !Eats(s, dt)
    ensures |Step(s, dt, draws).segments| == |s.segments|
    ensures Step(s, dt, draws).segments[0] == Segment(Moved(s.segments[0].pos, s.nextDirection), true, None)
    ensures forall i :: 1 <= i < |s.segments| ==> Step(s, dt, draws).segments[i].pos == s.segments[i - 1].pos
    ensures Memes(Step(s, dt, draws).segments) == Memes(s.segments)
    ensures Step(s, dt, draws).lastPositions == s.segments
    ensures Step(s, dt, draws).food == s.food
    ensures Step(s, dt, draws).score == s.score && Step(s, dt, draws).speed2 == s.speed2
  {
    ShiftedFollowsLeader(s.segments, Moved(s.segments[0].pos, s.nextDirection));
  }

  /** A step that eats moves no segment, the head included; it appends one segment on the old
      tail's cell carrying the eaten food's meme; the snapshot is the body before the step with
      the old tail repeated; the score goes up by one and the speed by one ramp step; the effect
      starts on the eaten food; and the new food is off the grown snake with a meme different
      from the new tail's. */
  lemma EatStep(s: GameState, dt: nat, draws: seq<Draw>)
    requires Inv(s) && Eats(s, dt) && FoodDraws(s.segments, draws)
    ensures |Step(s, dt, draws).segments| == |s.segments| + 1
    ensures Step(s, dt, draws).segments[..|s.segments|] == s.segments
    ensures Last(Step(s, dt, draws).segments) == Segment(Last(s.segments).pos, false, Some(s.food.meme))
    ensures Step(s, dt, draws).lastPositions == s.segments + [Last(s.segments)]
    ensures Step(s, dt, draws).score == s.score + 1
    ensures Step(s, dt, draws).speed2 == IncreaseSpeed(s.speed2)
    ensures Step(s, dt, draws).effect == Some(Effect(s.food.pos, s.food.meme, 0, EFFECT_DURATION))
    ensures !OnSnake(Step(s, dt, draws).food.pos, Step(s, dt, draws).segments)
    ensures Step(s, dt, draws).food.meme != s.food.meme
  {
    var t := Step(s, dt, draws);
    assert t.segments == Grown(s.segments, s.food);
    assert t.segments[..|s.segments|] == s.segments;
  }

  /** An eating step ends the game exactly when the body had at least two segments and its
      tail was on the head's cell: the new tail segment then sits at index 2 or later on the
      head's cell. Only the segment added by the previous meal to a one-segment snake can be
      there, so eating on two consecutive steps right after the start ends the game. */
  lemma EatCollidesIff(s: GameState, dt: nat, draws: seq<Draw>)
    requires Inv(s) && Eats(s, dt) && FoodDraws(s.segments, draws)
    ensures Step(s, dt, draws).gameOver <==> |s.segments| >= 2 && Last(s.segments).pos == s.segments[0].pos
  {
    var t := Step(s, dt, draws);
    var n := |s.segments|;
    assert t.segments == Grown(s.segments, s.food);
    if t.gameOver {
      var i :| 2 <= i < |t.segments| && t.segments[i].pos == t.segments[0].pos;
      assert i == n;
    }
    if n >= 2 && Last(s.segments).pos == s.segments[0].pos {
      assert t.segments[n].pos == t.segments[0].pos;
    }
  }

  /** The speed stays within [baseSpeed, maxSpeed] and never decreases during a game. */
  lemma StepSpeed(s: GameState, dt: nat, draws: seq<Draw>)
    requires Inv(s)
    requires Eats(s, dt) ==> FoodDraws(s.segments, draws)
    ensures s.speed2 <= Step(s, dt, draws).speed2
    ensures BASE_SPEED2 <= Step(s, dt, draws).speed2 <= MAX_SPEED2
  {
    StepKeepsInv(s, dt, draws);
    SpeedAfterMonotone(s.score, Step(s, dt, draws).score);
    SpeedAfterMeals(Step(s, dt, draws).score);
  }

  /** What every game state satisfies: every segment is on the board and off the food; the
      buffered direction is never the reverse of the current one; the speed is within
      [baseSpeed, maxSpeed] and set by the score alone; and the accumulator is below the move
      interval, so the renderer always draws with a progress below 1. */
  lemma InvConsequences(s: GameState)
    requires Inv(s)
    ensures forall i :: 0 <= i < |s.segments| ==> InGrid(s.segments[i].pos) && s.segments[i].pos != s.food.pos
    ensures !Reverse(s.nextDirection, s.direction)
    ensures BASE_SPEED2 <= s.speed2 <= MAX_SPEED2
    ensures s.speed2 == if BASE_SPEED2 + s.score < MAX_SPEED2 then BASE_SPEED2 + s.score else MAX_SPEED2
    ensures s.accMs * s.speed2 < STEP_THRESHOLD
  {
    SpeedAfterMeals(s.score);
  }

  /** From the start, with food at (11, 10): a first meal grows the one-segment snake to two
      segments on (10, 10) without moving the head; when the next food lands on (11, 10) again,
      the second meal piles a third segment on (10, 10) and the game ends. */
  lemma TwoQuickMealsEndGame()
    ensures var s0 := NewGame(false, [Draw(11, 10, 0)]);
            && Eats(s0, 200)
            && var s1 := Step(s0, 200, [Draw(11, 10, 0)]);
            && s1.segments == [Segment(START, true, None), Segment(START, false, Some(0))]
            && s1.score == 1 && !s1.gameOver
            && Eats(s1, 182)
            && Step(s1, 182, [Draw(0, 0, 0)]).gameOver
  {
    var s0 := NewGame(false, [Draw(11, 10, 0)]);
    assert Free([Segment(START, true, None)], Draw(11, 10, 0));
    assert s0.food == Food(Cell(11, 10), 0);
    var s1 := Step(s0, 200, [Draw(11, 10, 0)]);
    assert s1.segments == [Segment(START, true, None), Segment(START, false, Some(0))];
    assert Free(s1.segments, Draw(11, 10, 0));
    assert s1.food == Food(Cell(11, 10), 1);
    assert Free(s1.segments, Draw(0, 0, 0));
    var s2 := Step(s1, 182, [Draw(0, 0, 0)]);
    assert s2.segments[2].pos == s2.segments[0].pos;
  }
}

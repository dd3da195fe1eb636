/** The `Snake` object of the game: the fields the browser game keeps, and the methods that
    update them in place, each proved to change the state exactly as the corresponding
    function of `Engine` says. Canvas, DOM and image handling are not part of this model. */
module Game {
  import opened Wrappers
  import opened Grid
  import opened Engine
  import EngineLemmas

  class Snake {
    var segments: seq<Segment>
    var direction: Dir
    var nextDirection: Dir
    var food: Food
    var score: nat
    var speed2: nat
    var accMs: nat
    var lastPositions: seq<Segment>
    var gameOver: bool
    var foodAnimMs: nat
    var effect: Option<Effect>
    /** The timestamp of the previous animation frame; 0 before the first frame. */
    var lastTime: nat

    /** The game fields as one value. */
    ghost function State(): GameState
      reads this
    {
      GameState(segments, direction, nextDirection, food, score, speed2, accMs,
                lastPositions, gameOver, foodAnimMs, effect)
    }

    ghost predicate Valid()
      reads this
    {
      Inv(State())
    }

    /** A new game: base speed, not over, freshly reset, no previous frame. */
    constructor (draws: seq<Draw>)
      requires FoodDraws([Segment(START, true, None)], draws)
      ensures Valid() && State() == NewGame(false, draws) && lastTime == 0
    {
      speed2 := BASE_SPEED2;
      gameOver := false;
      new;
      Reset(draws);
      lastTime := 0;
      foodAnimMs := 0;
      effect := None;
    }

    /** `reset`: every field back to the start, except `gameOver` (and the frame clock). */
    method Reset(draws: seq<Draw>)
      requires FoodDraws([Segment(START, true, None)], draws)
      modifies this
      ensures Valid()
      ensures State() == NewGame(old(gameOver), draws)
      ensures lastTime == old(lastTime)
    {
      segments := [Segment(START, true, None)];
      direction := RIGHT;
      nextDirection := RIGHT;
      food := GenerateFood(draws);
      assert food == NewGame(gameOver, draws).food;
      score := 0;
      speed2 := BASE_SPEED2;
      accMs := 0;
      lastPositions := segments;
      foodAnimMs := 0;
      effect := None;
      assert State() == NewGame(gameOver, draws);
      EngineLemmas.NewGameStart(gameOver, draws);
    }

    /** `gameOver = false; reset()`, as both input handlers do on a finished game. */
    method Restart(draws: seq<Draw>)
      requires FoodDraws([Segment(START, true, None)], draws)
      modifies this
      ensures Valid()
      ensures State() == NewGame(false, draws)
      ensures lastTime == old(lastTime)
    {
      gameOver := false;
      Reset(draws);
    }

    /** `generateFood`: draw rounds until one lands off the snake. The food is the candidate of
        the first free round: on the board, off every segment, and with a meme different from
        the last segment's. */
    method GenerateFood(draws: seq<Draw>) returns (f: Food)
      requires FoodDraws(segments, draws)
      ensures f == PlaceFood(segments, draws)
      ensures InGrid(f.pos) && !OnSnake(f.pos, segments)
    {
      var i := 0;
      while true
        invariant 0 <= i < |draws|
        invariant FoodDraws(segments, draws[i..])
        invariant PlaceFood(segments, draws[i..]) == PlaceFood(segments, draws)
        decreases |draws| - i
      {
        var d := draws[i];
        f := Food(Cell(d.x, d.y), d.meme as nat);
        if |segments| > 0 {
          var lastSegment := segments[|segments| - 1];
          if lastSegment.meme == Some(f.meme) {
            f := f.(meme := (f.meme + 1) % MEME_COUNT);
          }
        }
        if !OnSnake(f.pos, segments) {
          return;
        }
        assert draws[i..][0] == d && draws[i..][1..] == draws[i + 1..];
        assert SomeFree(segments, draws[i + 1..]);
        i := i + 1;
      }
    }

    /** `checkCollision`: does the head share its cell with a segment at index 2 or later? */
    method CheckCollision() returns (hit: bool)
      requires |segments| >= 1
      ensures hit == Collides(segments)
    {
      var head := segments[0];
      var i := 2;
      while i < |segments|
        invariant 2 <= i
        invariant forall j :: 2 <= j < i && j < |segments| ==> segments[j].pos != head.pos
      {
        if head.pos == segments[i].pos {
          return true;
        }
        i := i + 1;
      }
      return false;
    }

    /** `startFoodEatenAnimation`: the effect restarts at time 0 on the given cell and meme. */
    method StartFoodEatenAnimation(pos: Cell, meme: nat)
      modifies this`effect
      ensures effect == Some(Effect(pos, meme, 0, EFFECT_DURATION))
    {
      effect := Some(Effect(pos, meme, 0, EFFECT_DURATION));
    }

    /** `increaseSpeed`: one step up the capped ramp. */
    method IncreaseSpeed()
      modifies this`speed2
      ensures speed2 == Engine.IncreaseSpeed(old(speed2))
    {
      var raised := speed2 + SPEED_INCREASE2;
      speed2 := if raised < MAX_SPEED2 then raised else MAX_SPEED2;
    }

    /** The direction rule both input handlers apply: up and down are taken only while not
        moving vertically, left and right only while not moving horizontally. */
    method RequestDirection(r: Request)
      modifies this`nextDirection
      ensures nextDirection == Steer(direction, old(nextDirection), r)
    {
      match r
      case GoUp =>
        if direction.y == 0 { nextDirection := UP; }
      case GoDown =>
        if direction.y == 0 { nextDirection := DOWN; }
      case GoLeft =>
        if direction.x == 0 { nextDirection := LEFT; }
      case GoRight =>
        if direction.x == 0 { nextDirection := RIGHT; }
    }

    /** The `keydown` handler: on a finished game only Enter does anything, and it restarts;
        otherwise the key's direction, if any, goes through the direction rule. */
    method HandleKey(key: string, draws: seq<Draw>)
      requires Valid()
      requires gameOver && key == "Enter" ==> FoodDraws([Segment(START, true, None)], draws)
      modifies this
      ensures Valid() && lastTime == old(lastTime)
      ensures old(gameOver) && key == "Enter" ==> State() == NewGame(false, draws)
      ensures old(gameOver) && key != "Enter" ==> State() == old(State())
      ensures !old(gameOver) ==> State() == Steered(old(State()), KeyRequest(key))
    {
      if gameOver {
        if key == "Enter" {
          Restart(draws);
        }
        return;
      }
      EngineLemmas.SteeredKeepsInv(State(), KeyRequest(key));
      var req := KeyRequest(key);
      if req.Some? {
        RequestDirection(req.value);
      }
    }

    /** The `touchend` handler: any touch restarts a finished game; otherwise a long enough
        swipe asks for the direction of its dominant axis. */
    method HandleSwipe(dx: int, dy: int, draws: seq<Draw>)
      requires Valid()
      requires gameOver ==> FoodDraws([Segment(START, true, None)], draws)
      modifies this
      ensures Valid() && lastTime == old(lastTime)
      ensures old(gameOver) ==> State() == NewGame(false, draws)
      ensures !old(gameOver) ==> State() == Steered(old(State()), SwipeRequest(dx, dy))
    {
      if gameOver {
        Restart(draws);
        return;
      }
      EngineLemmas.SteeredKeepsInv(State(), SwipeRequest(dx, dy));
      var req := SwipeRequest(dx, dy);
      if req.Some? {
        RequestDirection(req.value);
      }
    }

    /** `update(deltaTime)`: at most one grid step per call, exactly as `Engine.Step` says. */
    method Update(dt: nat, draws: seq<Draw>)
      requires Valid()
      requires Eats(State(), dt) ==> FoodDraws(segments, draws)
      modifies this
      ensures Valid() && lastTime == old(lastTime)
      ensures State() == Step(old(State()), dt, draws)
    {
      if gameOver {
        return;
      }
      ghost var s := State();
      foodAnimMs := foodAnimMs + dt;
      if effect.Some? {
        var advanced := effect.value.(time := effect.value.time + dt);
        effect := if advanced.time >= advanced.duration then None else Some(advanced);
      }
      accMs := accMs + dt;
      assert State() == s.(foodAnimMs := s.foodAnimMs + dt, effect := TickEffect(s.effect, dt),
                           accMs := s.accMs + dt);
      if StepDue(accMs, speed2) {
        StepOnGrid(draws);
      }
      assert State() == Step(s, dt, draws);
      EngineLemmas.StepKeepsInv(s, dt, draws);
    }

    /** The grid step of `update`, taken once the accumulator reached the move interval. */
    method StepOnGrid(draws: seq<Draw>)
      requires |segments| >= 1 && !gameOver
      requires Moved(segments[0].pos, nextDirection) == food.pos ==> FoodDraws(segments, draws)
      modifies this
      ensures State() == GridStep(old(State()), draws) && lastTime == old(lastTime)
    {
      accMs := 0;
      lastPositions := segments;
      direction := nextDirection;
      var newHead := Moved(segments[0].pos, direction);
      if newHead == food.pos {
        EatFood(draws);
      } else {
        FollowHead(newHead);
      }
      var hit := CheckCollision();
      if hit {
        gameOver := true;
        return;
      }
    }

    /** The eating branch of `update`: start the effect, append a segment on the tail's cell with
        the food's meme (and the tail's copy to the snapshot), place new food, count the point
        and speed up. The head does not move. */
    method EatFood(draws: seq<Draw>)
      requires |segments| >= 1 && FoodDraws(segments, draws)
      modifies this
      ensures State() == Eat(old(State()), draws) && lastTime == old(lastTime)
    {
      ghost var s := State();
      StartFoodEatenAnimation(food.pos, food.meme);
      var lastSegment := segments[|segments| - 1];
      var grown := segments + [Segment(lastSegment.pos, false, Some(food.meme))];
      segments := grown;
      lastPositions := lastPositions + [lastSegment];
      assert State() == s.(effect := Some(Effect(s.food.pos, s.food.meme, 0, EFFECT_DURATION)),
                           segments := grown, lastPositions := s.lastPositions + [Last(s.segments)]);
      SomeFreeGrown(s.segments, s.food, draws);
      food := GenerateFood(draws);
      score := score + 1;
      IncreaseSpeed();
    }

    /** The moving branch of `update`: the head takes the new cell and every other segment the
        old cell of the one before it, keeping its own meme. */
    method FollowHead(newHead: Cell)
      requires |segments| >= 1
      modifies this`segments
      ensures segments == Shifted(old(segments), newHead)
    {
      var oldSegments := segments;
      segments := segments[0 := Segment(newHead, true, None)];
      var i := 1;
      while i < |segments|
        invariant 1 <= i <= |segments| == |oldSegments|
        invariant segments[0] == Segment(newHead, true, None)
        invariant forall j :: 1 <= j < i ==>
                    segments[j] == Segment(oldSegments[j - 1].pos, false, oldSegments[j].meme)
        invariant forall j :: i <= j < |segments| ==> segments[j] == oldSegments[j]
      {
        segments := segments[i := Segment(oldSegments[i - 1].pos, false, oldSegments[i].meme)];
        i := i + 1;
      }
    }

    /** `animate(currentTime)`: compute the frame's delta (zero while no frame has been seen)
        and run one update with it. */
    method Animate(now: nat, draws: seq<Draw>)
      requires Valid()
      requires lastTime == 0 || lastTime <= now
      requires Eats(State(), FrameDelta(lastTime, now)) ==> FoodDraws(segments, draws)
      modifies this
      ensures Valid() && lastTime == now
      ensures State() == Step(old(State()), FrameDelta(old(lastTime), now), draws)
    {
      ghost var delta := FrameDelta(lastTime, now);
      if lastTime == 0 {
        lastTime := now;
      }
      var deltaTime := now - lastTime;
      lastTime := now;
      assert deltaTime == delta;
      Update(deltaTime, draws);
    }
  }
}

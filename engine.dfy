/** The simulation engine of the snake game as values: the state of one game, the food
    placement rule, the direction-acceptance rule, the speed ramp, and one call of the
    per-frame update as a function `Step` of the old state. The class `Game.Snake` holds
    the same fields and is proved to change them exactly as these functions say. */
module Engine {
  import opened Wrappers
  import opened Grid

  /** Speeds are kept in half-steps per second: `baseSpeed` 5, `maxSpeed` 15 and
      `speedIncrease` 0.5 become 10, 30 and 1. */
  const BASE_SPEED2: nat := 10
  const MAX_SPEED2: nat := 30
  const SPEED_INCREASE2: nat := 1

  /** A step is due once `moveAccumulator >= 1 / speed`. With the accumulator in whole
      milliseconds and the speed in half-units this is `accMs * speed2 >= 2000`. */
  const STEP_THRESHOLD: nat := 2000

  /** The number of meme images loaded for body segments and food. */
  const MEME_COUNT: nat := 5

  /** The length of the food-eaten effect in milliseconds. */
  const EFFECT_DURATION: nat := 300

  /** The cell of the single head segment a new game starts with. */
  const START := Cell(10, 10)

  /** A body segment; the head has no meme image (`memeIndex` is undefined). */
  datatype Segment = Segment(pos: Cell, isHead: bool, meme: Option<nat>)

  datatype Food = Food(pos: Cell, meme: nat)

  /** The fade-and-grow effect played where food was eaten. */
  datatype Effect = Effect(pos: Cell, meme: nat, time: nat, duration: nat)

  /** One round of the three `Math.floor(Math.random() * n)` draws of `generateFood`:
      a column, a row and a meme index. */
  datatype Draw = Draw(x: int, y: int, meme: int)

  /** A direction the player asks for, by key or by swipe. */
  datatype Request = GoUp | GoDown | GoLeft | GoRight

  /** The fields of one game. `foodAnimMs` is `foodAnimationTime`. */
  datatype GameState = GameState(
    segments: seq<Segment>,
    direction: Dir,
    nextDirection: Dir,
    food: Food,
    score: nat,
    speed2: nat,
    accMs: nat,
    lastPositions: seq<Segment>,
    gameOver: bool,
    foodAnimMs: nat,
    effect: Option<Effect>)

  // ---------------------------------------------------------------- speed

  /** `speed = Math.min(maxSpeed, speed + speedIncrease)`. */
  function IncreaseSpeed(speed2: nat): (r: nat)
    ensures speed2 < MAX_SPEED2 ==> r == speed2 + SPEED_INCREASE2
    ensures speed2 >= MAX_SPEED2 ==> r == MAX_SPEED2
    ensures speed2 <= MAX_SPEED2 ==> speed2 <= r <= MAX_SPEED2
  {
    if speed2 + SPEED_INCREASE2 < MAX_SPEED2 then speed2 + SPEED_INCREASE2 else MAX_SPEED2
  }

  /** The speed of a game after `meals` foods: the ramp applied once per food from the base speed. */
  function SpeedAfter(meals: nat): nat {
    if meals == 0 then BASE_SPEED2 else IncreaseSpeed(SpeedAfter(meals - 1))
  }

  /** The ramp in closed form: `min(maxSpeed, baseSpeed + meals * speedIncrease)`. */
  lemma {:induction false} SpeedAfterMeals(meals: nat)
    ensures SpeedAfter(meals) == if BASE_SPEED2 + meals * SPEED_INCREASE2 < MAX_SPEED2
                                 then BASE_SPEED2 + meals * SPEED_INCREASE2 else MAX_SPEED2
    ensures BASE_SPEED2 <= SpeedAfter(meals) <= MAX_SPEED2
  {
    if meals > 0 {
      SpeedAfterMeals(meals - 1);
    }
  }

  /** More food never means a lower speed. */
  lemma SpeedAfterMonotone(fewer: nat, more: nat)
    requires fewer <= more
    ensures SpeedAfter(fewer) <= SpeedAfter(more)
  {
    SpeedAfterMeals(fewer);
    SpeedAfterMeals(more);
  }

  predicate StepDue(accMs: nat, speed2: nat) {
    accMs * speed2 >= STEP_THRESHOLD
  }

  // ---------------------------------------------------------------- effect timer

  /** Advance the food-eaten effect by `dt` ms; it disappears once its time reaches its duration. */
  function TickEffect(e: Option<Effect>, dt: nat): (r: Option<Effect>)
    ensures r.Some? <==> e.Some? && e.value.time + dt < e.value.duration
    ensures r.Some? ==> r.value.time == e.value.time + dt
    ensures r.Some? ==> r.value == e.value.(time := r.value.time)
  {
    match e
    case None => None
    case Some(eff) =>
      var advanced := eff.(time := eff.time + dt);
      if advanced.time >= advanced.duration then None else Some(advanced)
  }

  // ---------------------------------------------------------------- body

  predicate OnSnake(c: Cell, segs: seq<Segment>) {
    exists i :: 0 <= i < |segs| && segs[i].pos == c
  }

  /** The head shares its cell with a segment at index 2 or later; indices 0 and 1 never count. */
  predicate Collides(segs: seq<Segment>)
    requires |segs| >= 1
  {
    exists i :: 2 <= i < |segs| && segs[i].pos == segs[0].pos
  }

  function Memes(segs: seq<Segment>): (r: seq<Option<nat>>)
    ensures |r| == |segs| && forall i :: 0 <= i < |segs| ==> r[i] == segs[i].meme
  {
    seq(|segs|, i requires 0 <= i < |segs| => segs[i].meme)
  }

  /** Segment 0 is the head and has no meme; every other segment is a body tile with a meme
      image; every segment is on the board. */
  ghost predicate WellFormed(segs: seq<Segment>) {
    && |segs| >= 1
    && segs[0].isHead && segs[0].meme == None
    && (forall i :: 0 <= i < |segs| ==> InGrid(segs[i].pos))
    && (forall i :: 1 <= i < |segs| ==>
          !segs[i].isHead && segs[i].meme.Some? && segs[i].meme.value < MEME_COUNT)
  }

  function Last(segs: seq<Segment>): Segment
    requires |segs| >= 1
  {
    segs[|segs| - 1]
  }

  /** The follow-the-leader shift of a non-eating step: the new head on `head`, every other
      segment on its predecessor's old cell, keeping its own meme. */
  function Shifted(segs: seq<Segment>, head: Cell): seq<Segment>
    requires |segs| >= 1
  {
    [Segment(head, true, None)]
      + seq(|segs| - 1, i requires 0 <= i < |segs| - 1 => Segment(segs[i].pos, false, segs[i + 1].meme))
  }

  /** The growth of an eating step: a new last segment on the old tail's cell, with the food's meme. */
  function Grown(segs: seq<Segment>, food: Food): seq<Segment>
    requires |segs| >= 1
  {
    segs + [Segment(Last(segs).pos, false, Some(food.meme))]
  }

  lemma {:induction false} ShiftedFollowsLeader(segs: seq<Segment>, head: Cell)
    requires |segs| >= 1 && segs[0].meme == None
    ensures |Shifted(segs, head)| == |segs|
    ensures Shifted(segs, head)[0] == Segment(head, true, None)
    ensures forall i :: 1 <= i < |segs| ==> Shifted(segs, head)[i].pos == segs[i - 1].pos
    ensures Memes(Shifted(segs, head)) == Memes(segs)
  {
    var r := Shifted(segs, head);
    forall i | 0 <= i < |segs|
      ensures Memes(r)[i] == Memes(segs)[i]
    {
      if i > 0 {
        assert r[i] == Segment(segs[i - 1].pos, false, segs[i].meme);
      }
    }
  }

  /** Growth occupies no new cell: the new segment sits on a cell the snake already covers. */
  lemma GrownSameCells(segs: seq<Segment>, food: Food, c: Cell)
    requires |segs| >= 1
    ensures OnSnake(c, Grown(segs, food)) <==> OnSnake(c, segs)
  {
    var g := Grown(segs, food);
    if OnSnake(c, g) {
      var i :| 0 <= i < |g| && g[i].pos == c;
      if i == |segs| {
        assert segs[|segs| - 1].pos == c;
      } else {
        assert segs[i].pos == c;
      }
    }
    if OnSnake(c, segs) {
      var i :| 0 <= i < |segs| && segs[i].pos == c;
      assert g[i].pos == c;
    }
  }

  // ---------------------------------------------------------------- food

  predicate DrawInRange(d: Draw) {
    0 <= d.x < GRID_SIZE && 0 <= d.y < GRID_SIZE && 0 <= d.meme < MEME_COUNT
  }

  predicate Free(segs: seq<Segment>, d: Draw) {
    !OnSnake(Cell(d.x, d.y), segs)
  }

  /** Some round of draws lands off the snake. */
  predicate SomeFree(segs: seq<Segment>, draws: seq<Draw>)
    decreases |draws|
  {
    |draws| > 0 && (Free(segs, draws[0]) || SomeFree(segs, draws[1..]))
  }

  /** The draws Math.random will deliver are in range and one of them lands off the snake,
      so the resampling loop of `generateFood` ends. */
  predicate FoodDraws(segs: seq<Segment>, draws: seq<Draw>) {
    && (forall i :: 0 <= i < |draws| ==> DrawInRange(draws[i]))
    && SomeFree(segs, draws)
  }

  /** Growing the body keeps the same draws free. */
  lemma {:induction false} SomeFreeGrown(segs: seq<Segment>, food: Food, draws: seq<Draw>)
    requires |segs| >= 1 && SomeFree(segs, draws)
    ensures SomeFree(Grown(segs, food), draws)
    decreases |draws|
  {
    GrownSameCells(segs, food, Cell(draws[0].x, draws[0].y));
    if !Free(segs, draws[0]) {
      SomeFreeGrown(segs, food, draws[1..]);
    }
  }

  /** The food one round of draws proposes: its meme is bumped by one (cyclically) when it
      equals the last segment's meme. */
  function Candidate(segs: seq<Segment>, d: Draw): (f: Food)
    requires DrawInRange(d)
    ensures f.pos == Cell(d.x, d.y) && f.meme < MEME_COUNT
    ensures |segs| > 0 && Last(segs).meme.Some? ==> f.meme != Last(segs).meme.value
    ensures (|segs| == 0 || Last(segs).meme != Some(d.meme as nat)) ==> f.meme == d.meme
    ensures |segs| > 0 && Last(segs).meme == Some(d.meme as nat) ==> f.meme == (d.meme + 1) % MEME_COUNT
  {
    var m := if |segs| > 0 && Last(segs).meme == Some(d.meme as nat)
             then (d.meme + 1) % MEME_COUNT else d.meme;
    Food(Cell(d.x, d.y), m)
  }

  /** `generateFood`: the candidate of the first round of draws that is off the snake. */
  function PlaceFood(segs: seq<Segment>, draws: seq<Draw>): (f: Food)
    requires FoodDraws(segs, draws)
    ensures InGrid(f.pos) && f.meme < MEME_COUNT
    ensures !OnSnake(f.pos, segs)
    ensures |segs| > 0 && Last(segs).meme.Some? ==> f.meme != Last(segs).meme.value
    decreases |draws|
  {
    if Free(segs, draws[0]) then Candidate(segs, draws[0]) else PlaceFood(segs, draws[1..])
  }

  /** The placed food is the candidate of the first round of draws that lands off the snake:
      every earlier round is rejected, none is skipped. */
  lemma {:induction false} PlaceFoodFirstFree(segs: seq<Segment>, draws: seq<Draw>)
    requires FoodDraws(segs, draws)
    ensures exists k :: && 0 <= k < |draws| && Free(segs, draws[k])
                        && PlaceFood(segs, draws) == Candidate(segs, draws[k])
                        && forall j :: 0 <= j < k ==> !Free(segs, draws[j])
    decreases |draws|
  {
    if !Free(segs, draws[0]) {
      var rest := draws[1..];
      PlaceFoodFirstFree(segs, rest);
      var k :| && 0 <= k < |rest| && Free(segs, rest[k])
               && PlaceFood(segs, rest) == Candidate(segs, rest[k])
               && forall j :: 0 <= j < k ==> !Free(segs, rest[j]);
      assert draws[k + 1] == rest[k];
      forall j | 0 <= j < k + 1
        ensures !Free(segs, draws[j])
      {
        if j > 0 {
          assert draws[j] == rest[j - 1];
        }
      }
    }
  }

  // ---------------------------------------------------------------- direction

  function RequestDir(r: Request): Dir {
    match r
    case GoUp => UP
    case GoDown => DOWN
    case GoLeft => LEFT
    case GoRight => RIGHT
  }

  /** The acceptance rule of both input handlers: up and down only while `direction.y` is 0,
      left and right only while `direction.x` is 0; otherwise `nextDirection` stays. */
  function Steer(direction: Dir, next: Dir, r: Request): (d: Dir)
    ensures Perpendicular(RequestDir(r), direction) ==> d == RequestDir(r)
    ensures !Perpendicular(RequestDir(r), direction) ==> d == next
  {
    match r
    case GoUp | GoDown => if direction.y == 0 then RequestDir(r) else next
    case GoLeft | GoRight => if direction.x == 0 then RequestDir(r) else next
  }

  /** The buffered direction is the current one or at a right angle to it. */
  predicate Aligned(next: Dir, direction: Dir) {
    next == direction || Perpendicular(next, direction)
  }

  /** Steering keeps the buffered direction a unit direction that is never the reverse of the
      current one: a request along the axis of travel is dropped, a perpendicular one is taken. */
  lemma SteerNeverReverses(direction: Dir, next: Dir, r: Request)
    requires IsUnit(direction) && IsUnit(next) && Aligned(next, direction)
    ensures IsUnit(Steer(direction, next, r)) && Aligned(Steer(direction, next, r), direction)
    ensures !Reverse(Steer(direction, next, r), direction)
  {
  }

  /** `"W".toLowerCase()` on the ASCII letters; other characters are left alone. */
  function AsciiLower(s: string): (r: string)
    ensures |r| == |s|
    ensures forall i :: 0 <= i < |s| ==> r[i] == if 'A' <= s[i] <= 'Z' then (s[i] as int + 32) as char else s[i]
  {
    if s == [] then [] else
      var c := if 'A' <= s[0] <= 'Z' then (s[0] as int + 32) as char else s[0];
      [c] + AsciiLower(s[1..])
  }

  /** The keys of the keyboard handler that ask for a direction (arrows and WASD, any case). */
  function KeyRequest(key: string): (r: Option<Request>)
    ensures r == Some(GoUp) <==> AsciiLower(key) in {"arrowup", "w"}
    ensures r == Some(GoDown) <==> AsciiLower(key) in {"arrowdown", "s"}
    ensures r == Some(GoLeft) <==> AsciiLower(key) in {"arrowleft", "a"}
    ensures r == Some(GoRight) <==> AsciiLower(key) in {"arrowright", "d"}
  {
    var k := AsciiLower(key);
    if k == "arrowup" || k == "w" then Some(GoUp)
    else if k == "arrowdown" || k == "s" then Some(GoDown)
    else if k == "arrowleft" || k == "a" then Some(GoLeft)
    else if k == "arrowright" || k == "d" then Some(GoRight)
    else None
  }

  /** Lower-casing twice is lower-casing once. */
  lemma {:induction false} AsciiLowerIdempotent(s: string)
    ensures AsciiLower(AsciiLower(s)) == AsciiLower(s)
  {
    if s != [] {
      AsciiLowerIdempotent(s[1..]);
    }
  }

  /** The keyboard handler ignores case: "W" and "w" ask for the same direction. */
  lemma KeyRequestIgnoresCase(key: string)
    ensures KeyRequest(AsciiLower(key)) == KeyRequest(key)
  {
    AsciiLowerIdempotent(key);
  }

  /** The minimum swipe length in pixels. */
  const MIN_SWIPE: int := 30

  /** The swipe handler: the axis with the larger movement wins, and only a movement longer
      than the minimum swipe asks for a direction. */
  function SwipeRequest(dx: int, dy: int): (r: Option<Request>)
    ensures r == Some(GoRight) <==> Abs(dx) > Abs(dy) && dx > MIN_SWIPE
    ensures r == Some(GoLeft) <==> Abs(dx) > Abs(dy) && dx < -MIN_SWIPE
    ensures r == Some(GoDown) <==> Abs(dx) <= Abs(dy) && dy > MIN_SWIPE
    ensures r == Some(GoUp) <==> Abs(dx) <= Abs(dy) && dy < -MIN_SWIPE
  {
    if Abs(dx) > Abs(dy) then
      if Abs(dx) > MIN_SWIPE then (if dx > 0 then Some(GoRight) else Some(GoLeft)) else None
    else
      if Abs(dy) > MIN_SWIPE then (if dy > 0 then Some(GoDown) else Some(GoUp)) else None
  }

  /** The effect of an input event on a running game: a recognised direction request goes
      through the acceptance rule; anything else changes nothing. */
  function Steered(s: GameState, req: Option<Request>): GameState {
    match req
    case None => s
    case Some(r) => s.(nextDirection := Steer(s.direction, s.nextDirection, r))
  }

  // ---------------------------------------------------------------- frame timing

  /** The delta time `animate` hands to `update`: zero while `lastTime` is still 0, otherwise
      the time since the previous frame. */
  function FrameDelta(lastTime: nat, now: nat): (delta: nat)
    requires lastTime == 0 || lastTime <= now
    ensures lastTime == 0 ==> delta == 0
    ensures lastTime != 0 ==> lastTime + delta == now
  {
    if lastTime == 0 then 0 else now - lastTime
  }

  // ---------------------------------------------------------------- the game

  /** What `reset` leaves behind; `gameOver` is whatever it was before. */
  function NewGame(gameOver: bool, draws: seq<Draw>): GameState
    requires FoodDraws([Segment(START, true, None)], draws)
  {
    var segs := [Segment(START, true, None)];
    GameState(segs, RIGHT, RIGHT, PlaceFood(segs, draws), 0, BASE_SPEED2, 0, segs, gameOver, 0, None)
  }

  /** The invariant of every game, kept by `reset` and by every update and input. */
  ghost predicate Inv(s: GameState) {
    && WellFormed(s.segments)
    && |s.segments| == s.score + 1
    && |s.lastPositions| == |s.segments|
    && IsUnit(s.direction) && IsUnit(s.nextDirection) && Aligned(s.nextDirection, s.direction)
    && InGrid(s.food.pos) && s.food.meme < MEME_COUNT && !OnSnake(s.food.pos, s.segments)
    && s.speed2 == SpeedAfter(s.score)
    && !StepDue(s.accMs, s.speed2)
    && (!s.gameOver ==> !Collides(s.segments))
    && (s.effect.Some? ==> s.effect.value.duration == EFFECT_DURATION && s.effect.value.time < EFFECT_DURATION)
  }

  /** This update performs a grid step. */
  predicate Stepping(s: GameState, dt: nat) {
    !s.gameOver && StepDue(s.accMs + dt, s.speed2)
  }

  /** This update performs a grid step whose new head lands on the food. */
  predicate Eats(s: GameState, dt: nat)
    requires |s.segments| >= 1
  {
    Stepping(s, dt) && Moved(s.segments[0].pos, s.nextDirection) == s.food.pos
  }

  /** The eating branch: the head stays, the body grows at the tail (and so does the snapshot),
      food is placed again, the score and the speed go up, and the effect starts on the eaten food. */
  function Eat(s: GameState, draws: seq<Draw>): GameState
    requires |s.segments| >= 1 && FoodDraws(s.segments, draws)
  {
    var grown := Grown(s.segments, s.food);
    SomeFreeGrown(s.segments, s.food, draws);
    s.(effect := Some(Effect(s.food.pos, s.food.meme, 0, EFFECT_DURATION)),
       segments := grown, lastPositions := s.lastPositions + [Last(s.segments)],
       food := PlaceFood(grown, draws), score := s.score + 1, speed2 := IncreaseSpeed(s.speed2))
  }

  /** The moving branch: every segment follows its predecessor and the head takes `head`. */
  function Move(s: GameState, head: Cell): GameState
    requires |s.segments| >= 1
  {
    s.(segments := Shifted(s.segments, head))
  }

  /** One call of `update(dt)`. */
  function Step(s: GameState, dt: nat, draws: seq<Draw>): GameState
    requires |s.segments| >= 1
    requires Eats(s, dt) ==> FoodDraws(s.segments, draws)
  {
    if s.gameOver then s
    else
      var ticked := s.(foodAnimMs := s.foodAnimMs + dt, effect := TickEffect(s.effect, dt),
                       accMs := s.accMs + dt);
      if !StepDue(ticked.accMs, s.speed2) then ticked else GridStep(ticked, draws)
  }

  /** The grid step of an update whose accumulator reached the move interval: zero the
      accumulator, snapshot the body, commit the buffered direction, eat or move, and end the
      game on a collision. */
  function GridStep(s: GameState, draws: seq<Draw>): GameState
    requires |s.segments| >= 1
    requires Moved(s.segments[0].pos, s.nextDirection) == s.food.pos ==> FoodDraws(s.segments, draws)
  {
    var begun := s.(accMs := 0, lastPositions := s.segments, direction := s.nextDirection);
    var head := Moved(s.segments[0].pos, s.nextDirection);
    var after := if head == s.food.pos then Eat(begun, draws) else Move(begun, head);
    after.(gameOver := Collides(after.segments))
  }
}

/** The game state of Fakeout as a value, and every step of the game loop
    (input handling, physics, scoring, scene changes) as a function of it.
    The class Game.Fakeout performs the same steps in place and is proved
    to agree with these functions; the lemmas in Properties are about them. */
module Rules {
  import opened Geometry
  import Scoreboard

  const BAT_HEIGHT: real := 15.0
  const BAT_WIDTH: real := 60.0
  const BRICK_HEIGHT: real := 15.0
  const BRICK_WIDTH: real := 40.0
  const BALL_DIA: real := 5.0
  const BAT_SPEED: real := 8.0
  const BALL_SPEED: real := 4.0
  const SCORE_INCREMENT: nat := 40
  /** Fixed height of the bat's centre. */
  const BAT_Y: real := 440.0
  /** Divisor of the horizontal offset in the deflection after a hit. */
  const DEFLECTION_DIVISOR: real := 13.0
  /** Lives at the start of a game. */
  const START_LIVES: int := 4
  /** The brick grid: columns at x = 2, 3, ..., 14 brick widths and rows at
      y = 6, 7, ..., 12 brick heights. */
  const COLUMNS: nat := 13
  const ROWS: nat := 7

  /** The screen currently shown; each has its own per-frame behaviour. */
  datatype Scene = Title | Play | GameOver

  /** Key codes. The four the game reacts to are distinct opaque codes;
      every other code is kept apart from them. */
  datatype Key = Left | Right | Space | Enter | Other(code: int)

  datatype Ball = Ball(x: real, y: real, h: real, w: real, velX: real, velY: real, active: bool)
  {
    function Extent(): Box { Box(x, y, w, h) }
  }

  datatype Bat = Bat(x: real, y: real, h: real, w: real)
  {
    function Extent(): Box { Box(x, y, w, h) }
  }

  datatype Brick = Brick(x: real, y: real, h: real, w: real, smashed: bool)
  {
    function Extent(): Box { Box(x, y, w, h) }
  }

  /** Size of the drawing surface; it comes from the canvas. */
  datatype Screen = Screen(width: real, height: real)

  /** Everything the game updates from frame to frame. */
  datatype State = State(
    controller: map<Key, bool>,
    score: nat,
    lives: int,
    level: nat,
    bricks: seq<Brick>,
    ball: Ball,
    bat: Bat,
    scene: Scene)

  /** What the page shows beside the canvas each frame. */
  datatype Hud = Hud(scoreboard: string, lives: int, level: nat)

  datatype Option<T> = None | Some(value: T)

  /** A key counts as held only when its entry is exactly true. */
  predicate Held(controller: map<Key, bool>, k: Key)
  {
    k in controller && controller[k]
  }

  // ---------------------------------------------------------------- set-up

  function GridBrick(col: nat, row: nat): Brick
  {
    Brick(BRICK_WIDTH * (2 + col) as real, BRICK_HEIGHT * (6 + row) as real,
          BRICK_HEIGHT, BRICK_WIDTH, false)
  }

  /** The bricks of column `col`, top to bottom, the first `n` rows of it. */
  function ColumnPrefix(col: nat, n: nat): seq<Brick>
  {
    seq(n, (row: int) requires 0 <= row => GridBrick(col, row))
  }

  /** The first `n` full columns, left to right. */
  function Columns(n: nat): seq<Brick>
  {
    if n == 0 then [] else Columns(n - 1) + ColumnPrefix(n - 1, ROWS)
  }

  /** The fresh brick wall, in the order the set-up loops push it. */
  function Grid(): seq<Brick>
  {
    Columns(COLUMNS)
  }

  /** The state `initialize` produces: every field reset, the scene kept. */
  function Initialized(scene: Scene, screen: Screen): State
  {
    State(map[], 0, START_LIVES, 1, Grid(),
          Ball(screen.width / 2.0, 0.0, BALL_DIA, BALL_DIA, 0.0, 0.0, false),
          Bat(screen.width / 2.0, BAT_Y, BAT_HEIGHT, BAT_WIDTH),
          scene)
  }

  /** The state right after construction: the title screen over a fresh game. */
  function New(screen: Screen): State
  {
    Initialized(Title, screen)
  }

  // ---------------------------------------------------------------- input

  /** The key-down listener: k is held, every other key is as it was, and
      nothing else changes. */
  function KeyDown(s: State, k: Key): (r: State)
    ensures r == s.(controller := r.controller)
    ensures Held(r.controller, k)
    ensures forall j :: j != k ==> Held(r.controller, j) == Held(s.controller, j)
  {
    s.(controller := s.controller[k := true])
  }

  /** The key-up listener: k is released, every other key is as it was,
      and nothing else changes. */
  function KeyUp(s: State, k: Key): (r: State)
    ensures r == s.(controller := r.controller)
    ensures !Held(r.controller, k)
    ensures forall j :: j != k ==> Held(r.controller, j) == Held(s.controller, j)
  {
    s.(controller := s.controller[k := false])
  }

  /** One press of "left": a step while the bat's left edge is right of 0,
      otherwise the bat is snapped to touch the left edge. */
  function MoveLeft(bat: Bat): (r: Bat)
    ensures r == bat.(x := r.x)
    ensures r.x == bat.x - BAT_SPEED || r.x - r.w / 2.0 == 0.0
    ensures bat.x - BAT_SPEED <= r.x && r.x - r.w / 2.0 > -BAT_SPEED
  {
    if bat.x - bat.w / 2.0 > 0.0 then bat.(x := bat.x - BAT_SPEED) else bat.(x := bat.w / 2.0)
  }

  /** One press of "right", symmetric against the screen width. */
  function MoveRight(bat: Bat, screen: Screen): (r: Bat)
    ensures r == bat.(x := r.x)
    ensures r.x == bat.x + BAT_SPEED || r.x + r.w / 2.0 == screen.width
    ensures r.x <= bat.x + BAT_SPEED && r.x + r.w / 2.0 < screen.width + BAT_SPEED
  {
    if bat.x + bat.w / 2.0 < screen.width then bat.(x := bat.x + BAT_SPEED)
    else bat.(x := screen.width - bat.w / 2.0)
  }

  /** Puts the ball in play above the bat; the horizontal speed is kept.
      The served ball falls towards the bat and, for the game's own sizes,
      starts clear of it. */
  function Serve(s: State): (r: State)
    ensures r == s.(ball := r.ball)
    ensures r.ball.active && r.ball.velY > 0.0 && r.ball.x == s.bat.x
    ensures r.ball.velX == s.ball.velX && r.ball.w == s.ball.w && r.ball.h == s.ball.h
    ensures s.bat.h == BAT_HEIGHT && s.ball.h == BALL_DIA ==>
      !Collision(s.bat.Extent(), r.ball.Extent()) && r.ball.y < s.bat.y
  {
    s.(ball := s.ball.(active := true, x := s.bat.x, y := s.bat.y - BAT_HEIGHT * 8.0,
                       velY := BALL_SPEED))
  }

  /** Reads the held keys: in play they move the bat and serve; on the
      title and game-over screens Enter starts a new game. */
  function Controls(s: State, screen: Screen): State
  {
    if s.scene == Play then
      var bat1 := if Held(s.controller, Left) then MoveLeft(s.bat) else s.bat;
      var bat2 := if Held(s.controller, Right) then MoveRight(bat1, screen) else bat1;
      var s1 := s.(bat := bat2);
      if Held(s.controller, Space) && !s.ball.active then Serve(s1) else s1
    else if Held(s.controller, Enter) then
      Initialized(s.scene, screen).(scene := Play)
    else
      s
  }

  // ---------------------------------------------------------------- physics

  // The boundary tests use the constant diameter, not the ball's own size;
  // for a ball of that size each is a test on an edge of its box.

  /** The ball's top edge is above the top of the screen. */
  predicate HittingCeiling(ball: Ball): (r: bool)
    ensures ball.h == BALL_DIA ==> (r <==> ball.Extent().y - ball.Extent().h / 2.0 < 0.0)
  {
    ball.y - BALL_DIA / 2.0 < 0.0
  }

  /** The ball's left edge is left of the screen. */
  predicate HittingLeft(ball: Ball): (r: bool)
    ensures ball.w == BALL_DIA ==> (r <==> ball.Extent().x - ball.Extent().w / 2.0 < 0.0)
  {
    ball.x - BALL_DIA / 2.0 < 0.0
  }

  /** The ball's right edge is right of the screen. */
  predicate HittingRight(ball: Ball, screen: Screen): (r: bool)
    ensures ball.w == BALL_DIA ==> (r <==> ball.Extent().x + ball.Extent().w / 2.0 > screen.width)
  {
    ball.x + BALL_DIA / 2.0 > screen.width
  }

  /** The ball has left through the bottom: its centre is within a diameter
      of the bottom edge, so its bottom edge is less than half a diameter
      above it (the ball counts as lost just before it touches). */
  predicate OutOfBounds(ball: Ball, screen: Screen): (r: bool)
    ensures ball.h == BALL_DIA ==>
      (r <==> ball.Extent().y + ball.Extent().h / 2.0 > screen.height - BALL_DIA / 2.0)
  {
    ball.y + BALL_DIA > screen.height
  }

  /** Horizontal speed after the ball hits something centred at `cx`. */
  function Deflection(ball: Ball, cx: real): real
  {
    BALL_SPEED * (ball.x - cx) / DEFLECTION_DIVISOR
  }

  function Moved(ball: Ball): Ball
  {
    ball.(x := ball.x + ball.velX, y := ball.y + ball.velY)
  }

  /** Bounce off the bat: deflect, lift by half the bat's height, reverse. */
  function BatBounce(ball: Ball, bat: Bat): Ball
  {
    if Collision(bat.Extent(), ball.Extent()) then
      ball.(velX := Deflection(ball, bat.x), y := ball.y - bat.h / 2.0, velY := -ball.velY)
    else ball
  }

  /** Bounces off the ceiling, then the left wall, then the right wall. */
  function WallBounce(ball: Ball, screen: Screen): Ball
  {
    var b1 := if HittingCeiling(ball) then ball.(velY := -ball.velY) else ball;
    var b2 := if HittingLeft(b1) then b1.(velX := -b1.velX) else b1;
    if HittingRight(b2, screen) then b2.(velX := -b2.velX) else b2
  }

  /** A ball below the bottom edge costs a life and leaves play. */
  function Fall(s: State, screen: Screen): State
  {
    if OutOfBounds(s.ball, screen) then
      s.(lives := s.lives - 1, ball := s.ball.(active := false, velX := 0.0))
    else s
  }

  /** A brick the ball can smash now. */
  predicate Hits(brick: Brick, ball: Ball)
  {
    !brick.smashed && Collision(brick.Extent(), ball.Extent())
  }

  /** Index of the first brick, in storage order, that the ball can smash. */
  function FirstHit(bricks: seq<Brick>, ball: Ball): (r: Option<nat>)
    ensures r.Some? ==> r.value < |bricks| && Hits(bricks[r.value], ball) &&
                        forall j :: 0 <= j < r.value ==> !Hits(bricks[j], ball)
    ensures r.None? ==> forall j :: 0 <= j < |bricks| ==> !Hits(bricks[j], ball)
  {
    if |bricks| == 0 then None
    else if Hits(bricks[0], ball) then Some(0)
    else match FirstHit(bricks[1..], ball)
      case None => None
      case Some(i) => Some(i + 1)
  }

  /** Smashes the first brick the ball hits, scores it and bounces the ball. */
  function Smash(s: State): State
  {
    match FirstHit(s.bricks, s.ball)
    case None => s
    case Some(i) =>
      s.(bricks := s.bricks[i := s.bricks[i].(smashed := true)],
         score := s.score + SCORE_INCREMENT * s.level,
         ball := s.ball.(velX := Deflection(s.ball, s.bricks[i].x), velY := -s.ball.velY))
  }

  /** The ball after moving and bouncing off the bat and the walls. */
  function Travel(ball: Ball, bat: Bat, screen: Screen): Ball
  {
    WallBounce(BatBounce(Moved(ball), bat), screen)
  }

  /** The part of a frame that runs only while the ball is in play. */
  function Flight(s: State, screen: Screen): State
  {
    Smash(Fall(s.(ball := Travel(s.ball, s.bat, screen)), screen))
  }

  predicate AllSmashed(bricks: seq<Brick>)
  {
    forall i :: 0 <= i < |bricks| ==> bricks[i].smashed
  }

  /** A frame of play up to, not including, the check for a cleared wall. */
  function BeforeLevelCheck(s: State, screen: Screen): State
  {
    var s1 := if s.ball.active then Flight(s, screen) else s;
    if s1.lives == 0 then s1.(scene := GameOver) else s1
  }

  /** One frame of play. When the wall is cleared the level goes up and the
      ball leaves play (the wall is not rebuilt). The keys are not read, the
      keys and the bat are not changed, the wall keeps its size, and neither
      the score nor the level goes down. */
  function Update(s: State, screen: Screen): (r: State)
    ensures r.controller == s.controller && r.bat == s.bat
    ensures |r.bricks| == |s.bricks|
    ensures r.score >= s.score && r.level >= s.level
  {
    var s2 := BeforeLevelCheck(s, screen);
    if AllSmashed(s2.bricks) then s2.(level := s2.level + 1, ball := s2.ball.(active := false))
    else s2
  }

  /** How a frame of fakeout.js as written ends: it either completes, or throws
      and the frame loop is never scheduled again. */
  datatype Outcome = Running(state: State) | Crashed(state: State)

  /** One frame of play as fakeout.js is written: after a cleared
      wall raises the level, the assignment to the undeclared global `ball`
      throws, leaving the state as it was at that point. */
  function UpdateAsWritten(s: State, screen: Screen): Outcome
  {
    var s2 := BeforeLevelCheck(s, screen);
    if AllSmashed(s2.bricks) then Crashed(s2.(level := s2.level + 1)) else Running(s2)
  }

  /** One frame of the game loop: controls first, then the scene's hook,
      of which only Play changes the state. */
  function Tick(s: State, screen: Screen): State
  {
    var s1 := Controls(s, screen);
    if s1.scene == Play then Update(s1, screen) else s1
  }

  /** The text shown beside the canvas: a scoreboard of at least PLACES
      digits that reads back as the score, and the lives and the level. */
  function Display(s: State): (r: Hud)
    ensures |r.scoreboard| >= Scoreboard.PLACES && Scoreboard.AllDigits(r.scoreboard)
    ensures Scoreboard.Value(r.scoreboard) == s.score
    ensures r.lives == s.lives && r.level == s.level
  {
    Scoreboard.BoardRoundTrip(s.score);
    Hud(Scoreboard.Board(s.score), s.lives, s.level)
  }

  // ---------------------------------------------------------------- runs

  /** Something that happens between or at frames: a key event from the
      browser, or a frame of the game loop. */
  datatype Event = Press(key: Key) | Release(key: Key) | Frame

  function Step(s: State, e: Event, screen: Screen): State
  {
    match e
    case Press(k) => KeyDown(s, k)
    case Release(k) => KeyUp(s, k)
    case Frame => Tick(s, screen)
  }

  function Replay(s: State, events: seq<Event>, screen: Screen): State
    decreases |events|
  {
    if |events| == 0 then s else Replay(Step(s, events[0], screen), events[1..], screen)
  }

  // ---------------------------------------------------------------- invariant

  /** The bat stays within one step of the screen: its centre is between
      half its width minus a step and the width minus that. */
  predicate BatInRange(bat: Bat, screen: Screen)
  {
    bat.w == BAT_WIDTH &&
    BAT_WIDTH / 2.0 - BAT_SPEED <= bat.x <= screen.width - BAT_WIDTH / 2.0 + BAT_SPEED
  }

  /** What holds of every state the game can reach. */
  predicate Inv(s: State, screen: Screen)
  {
    0 <= s.lives <= START_LIVES && 1 <= s.level &&
    (s.scene == Play ==> 1 <= s.lives) &&
    (s.scene == GameOver ==> s.lives == 0) &&
    (s.scene == Title ==> s.score == 0 && s.lives == START_LIVES && s.level == 1) &&
    |s.bricks| == COLUMNS * ROWS &&
    s.bat.y == BAT_Y && s.bat.h == BAT_HEIGHT && s.bat.w == BAT_WIDTH &&
    (screen.width >= BAT_WIDTH - BAT_SPEED ==> BatInRange(s.bat, screen))
  }
}

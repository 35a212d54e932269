# Fakeout game state, modelled in Dafny

Fakeout is a brick-breaker game for the browser. The player moves a bat along
the bottom of the screen and keeps a ball in play, which smashes a wall of
13 × 7 bricks. The game keeps a score, a number of lives and a level, and it
switches between a title screen, the play screen and a game-over screen. Each
animation frame the game object first reads the keys held down (`controls`).
Then it runs the current scene; only the play scene changes the state
(`update`).

This project models the game state and those per-frame steps. It does not
model drawing.

- `Geometry` (geometry.dfy): boxes given by centre and size, and the `collision`
  test, with lemmas about what that test means.
- `Scoreboard` (scoreboard.dfy): the score as decimal text, left-padded with
  `'0'` to 10 places. `WriteScoreboard` does this with the source's
  prepend-while-short loop. The parser `Value` is its round-trip partner.
- `Rules` (rules.dfy): the whole game state as one value (`State`). Every step
  is a function of it: `Initialized`, `Controls`, `Serve`, `MoveLeft`,
  `MoveRight`, `Update` and its parts, `Tick` (one frame), and `Replay` (any
  run of key events and frames). The boundary tests `HittingCeiling`,
  `HittingLeft`, `HittingRight` and `OutOfBounds` (fakeout.js:269-283) are
  predicates here. `Inv` is an invariant that holds in every reachable state.
  `UpdateAsWritten` is the frame update as the source literally reads (see
  Findings).
- `Properties` (properties.dfy): lemmas about `Rules`: the fresh layout, bat
  clamping, serving, one brick per frame, scoring, life accounting, scene
  transitions, and that the invariant is kept.
- `Game` (game.dfy): the class `Fakeout`. Its fields are the fields of the
  source's game object, and its methods change them in place the way the
  source does: nested `for` loops that push bricks, a `for…of` scan that
  stops at the first hit, a loop that returns early. Each method is proved to
  leave exactly the state that the matching `Rules` function gives.

Modelling decisions:

- The scene is a datatype `Title | Play | GameOver`. In the source it is a
  reference to a method, compared by identity.
- The key codes `KEY_LEFT`, `KEY_RIGHT`, `KEY_SPACE` and `KEY_ENTER` are not
  defined in fakeout.js. They are modelled as four distinct opaque keys, plus
  `Other(code)` for every other code.
- The held-key map is a field. `KeyDown` and `KeyUp` stand for the two
  listeners. A key counts as held only when its entry is `true`, as
  `=== true` requires. `initialize` empties the map.
- The canvas width and height are a `Screen` value given to the constructor.
- Positions and speeds are exact `real`s.
- A frame (`Run`, `Tick`) runs `controls`, then reports the text shown beside
  the canvas (scoreboard, lives, level), then runs `update` if the scene is
  now Play. This matches `run`: the scene is read after `controls`, so the
  frame in which Enter starts a game already runs `update` once.

Behaviour of fakeout.js worth noting:

- Boxes whose edges only touch collide. Each of the four separation tests in
  `collision` (fakeout.js:263-266) is a strict `<` or `>`. So two boxes are
  apart only when a gap lies between them on some axis
  (`Geometry.FlushEdgesCollide`).
- A bat move (fakeout.js:159-171) takes a full step of 8 whenever the bat's
  edge is still inside the screen. It snaps the bat flush to the edge only
  once the edge has reached or passed it. The bat can therefore overshoot an
  edge by up to one step. The range that is kept is `[w/2 − 8, width − w/2 +
  8]`, on a screen at least 52 wide (`Rules.MoveLeft`, `Rules.MoveRight`,
  `Rules.BatInRange`).
- The boundary tests (fakeout.js:269-283) use the constant `BALL_DIA`, not the
  ball's own size. `outOfBounds` adds a whole diameter to the centre, so the
  ball is lost while its bottom edge is still within half a diameter above
  the bottom of the screen.

## Model

| member | source | states |
|---|---|---|
| `Geometry.Collision` | fakeout.js:262-267 | the four strict separation tests of `collision`; what they mean is stated by `CollisionByDistance`, `CollisionIsSharedPoint` and `FlushEdgesCollide` |
| `Geometry.CollisionSymmetric` | fakeout.js:262-267 | the collision test gives the same answer whichever box comes first |
| `Geometry.CollisionByDistance` | fakeout.js:262-267 | boxes collide iff on each axis the centres are at most half the summed sizes apart |
| `Geometry.FlushEdgesCollide` | fakeout.js:262-267 | boxes whose edges meet exactly on one axis, and that overlap or touch on the other, collide; any gap on that axis separates them |
| `Geometry.CollisionIsSharedPoint` | fakeout.js:262-267 | boxes of non-negative size collide iff some point lies in both closed boxes |
| `Scoreboard.DecimalString` | fakeout.js:92 | the score's decimal text is non-empty, all digits, with no leading zero unless it is "0" |
| `Scoreboard.PadLeft` | fakeout.js:93-95 | prepending '0' while shorter than the places gives length max(places, length), the original text as suffix, and only '0' before it |
| `Scoreboard.Board` | fakeout.js:90-95 | the padded decimal text of the score; `Scoreboard.BoardRoundTrip` and `WriteScoreboard` state its properties |
| `Scoreboard.WriteScoreboard` | fakeout.js:90-97 | the loop yields the padded score, of length max(10, digit count), and leaves text of 10 or more digits unchanged |
| `Scoreboard.ValueOfDecimal` | fakeout.js:92 | parsing the decimal text gives the score back |
| `Scoreboard.PadLeftValue` | fakeout.js:93-95 | leading zeros do not change the value of the digits |
| `Scoreboard.BoardRoundTrip` | fakeout.js:90-97 | the scoreboard is at least 10 digits long and reads back as exactly the score |
| `Rules.Initialized` | fakeout.js:50-74 | the state `initialize` leaves: every field reset and the scene kept; its contents are stated by `Properties.InitializedFacts` |
| `Rules.MoveLeft` | fakeout.js:158-165 | only the bat's x changes; the bat moves left at most one step, ends one step left or flush with the left edge, and its left edge is never a full step past the screen |
| `Rules.MoveRight` | fakeout.js:166-173 | only the bat's x changes; the bat moves right at most one step, ends one step right or flush with the right edge, and its right edge is never a full step past the screen |
| `Rules.KeyDown` | fakeout.js:41-43 | the key-down listener: the key is held, every other key is as it was, and nothing else changes |
| `Rules.KeyUp` | fakeout.js:45-47 | the key-up listener: the key is released, every other key is as it was, and nothing else changes |
| `Rules.Serve` | fakeout.js:285-291 | only the ball changes: it is active, over the bat and falling, with its horizontal speed and size kept; with the game's sizes it starts above the bat and clear of it |
| `Rules.Controls` | fakeout.js:152-187 | the controls as one step on the state; `Properties.ControlsOffPlay`, `ControlsInPlay`, `ControlsServe`, `ControlsKeepBatInRange` and `ControlsKeepsInv` state what they do |
| `Rules.HittingCeiling` | fakeout.js:269-271 | for a ball of diameter `BALL_DIA`, true iff the top edge of its box is above the screen |
| `Rules.HittingLeft` | fakeout.js:273-275 | for a ball of diameter `BALL_DIA`, true iff the left edge of its box is left of the screen |
| `Rules.HittingRight` | fakeout.js:277-279 | for a ball of diameter `BALL_DIA`, true iff the right edge of its box is right of the screen |
| `Rules.OutOfBounds` | fakeout.js:281-283 | for a ball of diameter `BALL_DIA`, true iff its bottom edge is lower than half a diameter above the screen's bottom |
| `Rules.Travel` | fakeout.js:215-231 | the move, the bat bounce and the ceiling, left and right bounces, through `Moved`, `BatBounce` and `WallBounce`; `Properties.UpdateVelocities`, `CeilingBounce` and `UpdateLives` state what they do |
| `Rules.Fall` | fakeout.js:234-238 | a ball for which `outOfBounds` holds costs a life and leaves play with velX 0; `Properties.UpdateLives` states it |
| `Rules.Smash` | fakeout.js:240-249 | the first whole brick the ball touches is smashed and scored, and the ball deflected and reversed; `Properties.UpdateSmashesTarget`, `SmashOnlyThatBrick`, `UpdateSmashesAtMostOne` and `UpdateVelocities` state it |
| `Rules.Update` | fakeout.js:206-260 | a frame of play, with line 258 corrected, does not read the keys, changes neither the keys nor the bat, keeps the number of bricks, and never lowers the score or the level; the `Properties.Update…` lemmas state the rest |
| `Rules.UpdateAsWritten` | fakeout.js:206-260 | the frame as written, which throws at line 258 after raising the level; `Properties.AsWrittenCrashesOnClearWall` relates it to `Update` |
| `Rules.Display` | fakeout.js:79-81 | the text written beside the canvas: a scoreboard of at least 10 digits that reads back as the score, and the lives and the level |
| `Rules.Tick` | fakeout.js:76-88 | one frame: the controls, then `update` if the scene is then Play; `Properties.TickScenes` and `TickKeepsInv` state what it does |
| `Rules.FirstHit` | fakeout.js:240-241 | the scan finds the first whole brick in storage order that touches the ball, or reports that none does |
| `Game.Fakeout.constructor` | fakeout.js:24-34 | a new game object shows the title screen over a freshly initialised state, and the invariant holds |
| `Game.Fakeout.KeyDown` | fakeout.js:41-43 | a key-down event marks that key held and changes nothing else |
| `Game.Fakeout.KeyUp` | fakeout.js:45-47 | a key-up event marks that key released and changes nothing else |
| `Game.Fakeout.Initialize` | fakeout.js:50-74 | the nested loops push exactly the 13 × 7 grid column by column; every other field is reset and the scene is kept |
| `Game.Fakeout.WallDestroyed` | fakeout.js:143-150 | the early-return scan reports true iff every brick is smashed |
| `Game.Fakeout.Controls` | fakeout.js:152-187 | the state after reading the keys is exactly `Rules.Controls` of the state before, and the invariant is kept |
| `Game.Fakeout.Serve` | fakeout.js:285-291 | the ball is set active, over the bat, 8 bat heights above it, with vertical speed BALL_SPEED; nothing else changes |
| `Game.Fakeout.Update` | fakeout.js:206-260 | the state after a frame of play is exactly `Rules.Update` of the state before, with the level-up deactivating `this.ball` |
| `Game.Fakeout.Fly` | fakeout.js:213-238 | moving, bouncing off the bat, ceiling, left and right walls, and falling out cost a life exactly as `Rules.Travel` and `Rules.Fall` say |
| `Game.Fakeout.SmashFirstBrick` | fakeout.js:240-249 | the scan with `break` smashes the first hit brick only, adds SCORE_INCREMENT × level and deflects the ball, or changes nothing |
| `Game.Fakeout.Run` | fakeout.js:76-88 | one frame is controls, then the text shown, then the current scene; the invariant is kept |
| `Properties.ColumnsLayout` | fakeout.js:60-66 | the first n columns hold 7n bricks, brick i in column i / 7 and row i % 7 |
| `Properties.InitializedFacts` | fakeout.js:54-73 | a fresh game has score 0, 4 lives, level 1, no held keys, a still inactive ball, and 91 whole bricks at x = 80..560 step 40, y = 90..180 step 15, column-major |
| `Properties.MovesKeepBatInRange` | fakeout.js:158-173 | a move left or right keeps the bat centre in [w/2 − 8, width − w/2 + 8] |
| `Properties.MovesOvershoot` | fakeout.js:159-171 | while the bat's edge is inside the screen a move takes a full step, so from less than a step inside it the edge ends past the screen |
| `Properties.ControlsKeepBatInRange` | fakeout.js:156-173 | reading the controls, whatever is held, keeps the bat in that range |
| `Properties.ControlsOffPlay` | fakeout.js:156-185 | off the play screen nothing moves or serves; Enter starts a fresh game in Play, and without it nothing changes |
| `Properties.ControlsInPlay` | fakeout.js:156-179 | in play the controls change only the bat's x and, by a serve only, the ball |
| `Properties.ControlsServe` | fakeout.js:174-178 | Space with the ball inactive serves: active, x = bat x after this frame's moves, y = bat y − 120, velY = 4, velX kept |
| `Properties.SmashAddsOne` | fakeout.js:242 | smashing a whole brick raises the count of smashed bricks by exactly one |
| `Properties.FirstHitDependsOnExtent` | fakeout.js:241 | which brick is hit depends only on the ball's position and size |
| `Properties.UpdateSmashesTarget` | fakeout.js:213-249 | a frame smashes exactly the first whole brick the moved ball touches and scores SCORE_INCREMENT × level for it; otherwise bricks and score are unchanged, and always so while the ball is inactive |
| `Properties.SmashOnlyThatBrick` | fakeout.js:242 | smashing one brick changes no other brick and un-smashes none |
| `Properties.UpdateSmashesAtMostOne` | fakeout.js:240-249 | at most one brick changes per frame, smashed bricks stay smashed, and the score rises by SCORE_INCREMENT × level per brick smashed |
| `Properties.UpdateLives` | fakeout.js:234-238 | a life is lost iff the ball is active and, after moving and the bat bounce, `outOfBounds` holds (its bottom edge is less than half a diameter above the screen's bottom); the ball then leaves play with velX 0 unless the same frame hits a brick |
| `Properties.UpdateIdleBall` | fakeout.js:213 | an inactive ball neither moves nor costs a life |
| `Properties.UpdateVelocities` | fakeout.js:215-245 | a frame only ever reverses the vertical speed, never changes its size; with no bat contact and no brick hit it is reversed iff the ball is at the ceiling, and the horizontal speed keeps its size unless the ball falls out; after bat contact it is the bat's deflection or its reverse; after a brick hit the horizontal speed is that brick's deflection of the moved ball and the vertical speed is reversed |
| `Properties.CeilingBounce` | fakeout.js:223-225 | a ball at (100, 0) rising at speed 4 on a 640 × 480 screen, away from the bat and the bricks, is at (100, −4) falling at speed 4 after one frame, with bricks, score and lives unchanged |
| `Properties.UpdateScene` | fakeout.js:252-254 | a frame of play ends on the game-over screen iff no lives are left, otherwise it stays in play |
| `Properties.UpdateLevel` | fakeout.js:256-259 | the level rises by one iff the wall is clear after the frame, and the ball is then out of play |
| `Properties.ClearWallLevelsUpEveryFrame` | fakeout.js:256-259 | with line 258 corrected, a clear wall is never rebuilt, so every later frame in play raises the level again |
| `Properties.TickScenes` | fakeout.js:180-254 | the only scene changes are Title/GameOver to Play on Enter (after initialising) and Play to GameOver iff lives reach 0; the title screen is never re-entered |
| `Properties.TickScoreMonotone` | fakeout.js:243 | during play the score never decreases |
| `Properties.NewSatisfiesInv` | fakeout.js:30-34 | the constructed state satisfies the invariant |
| `Properties.ControlsKeepsInv` | fakeout.js:152-187 | reading the controls keeps the invariant |
| `Properties.TickKeepsInv` | fakeout.js:76-88 | every frame keeps 0 ≤ lives ≤ 4, lives ≥ 1 in play, lives = 0 at game over, level ≥ 1, 91 bricks, the bat's row and size, and, on a screen at least 52 wide, its range |
| `Properties.StepKeepsInv` | fakeout.js:41-47 | key events and frames each keep the invariant |
| `Properties.ReplayKeepsInv` | fakeout.js:76-88 | any sequence of key events and frames keeps the invariant |
| `Properties.BatAlwaysInRange` | fakeout.js:158-173 | from construction on, after any sequence of events, the bat stays within one step of the screen edges |
| `Properties.AsWrittenCrashesOnClearWall` | fakeout.js:256-258 | the update as written agrees with the corrected one on every frame that leaves a brick whole, and throws on every frame that clears the wall |
| `Properties.LastBrickCrashes` | fakeout.js:240-258 | the frame that smashes the last whole brick throws as written, after the level is raised; corrected, it raises the level and takes the ball out of play |

## Findings

| source | as written | input that shows it | evidently intended | confidence | as-written member | corrected member |
|---|---|---|---|---|---|---|
| fakeout.js:258 | `ball.active = false` reads an undeclared global `ball`. It throws after `level++`, so `run` never schedules the next frame and the game freezes | any frame that smashes the last whole brick (`Properties.LastBrickCrashes`) | `this.ball.active = false`: the level goes up and the ball leaves play | high; not executed; assumes no other script on the page, and no element with id `ball`, defines a global `ball` (the key codes such as `KEY_ENTER`, read at fakeout.js:182, must come from another script) | `Rules.UpdateAsWritten`, with `Properties.AsWrittenCrashesOnClearWall` and `Properties.LastBrickCrashes` | `Rules.Update`, with `Properties.UpdateLevel`; `Game.Fakeout.Update` implements it |

With line 258 corrected (`Rules.Update`), the wall is never rebuilt. Once it
is clear, every later frame in play raises the level again
(`Properties.ClearWallLevelsUpEveryFrame`). As written, no later frame runs.

## Left out

- Drawing: `title`, `gameOver`, the drawing half of `play`, `drawBat`, `drawBall` and `drawBricks` (fakeout.js:99-141, 189-204) only paint the canvas.
- DOM and audio: the element lookups, the `innerHTML` writes and the unused sound elements (fakeout.js:2-5, 16-19, 79-81, 96). `Run` returns the text that would be written instead.
- The registration of the key listeners and the `requestAnimationFrame` scheduling (fakeout.js:41-47, 86-87). They are browser I/O and loop plumbing. One frame is the method `Run`; a run of frames and key events is `Rules.Replay`.
- IEEE-754 double rounding (the `/13` deflection, the halved sizes, `screen.width/2`). Positions and speeds are exact reals, so the boundary comparisons may differ from the browser's in the last bit.
- Number-to-text conversion for scores of 10^21 and above, which JavaScript writes in exponent notation. Also integer precision above 2^53. Scores are unbounded naturals in decimal.
- `Properties.MovesKeepBatInRange`, `Properties.ControlsKeepBatInRange`, `Properties.BatAlwaysInRange`: the range [w/2 − 8, width − w/2 + 8] is kept only on screens at least 52 wide (bat width less one step). On a narrower screen a left move from the low end of that range snaps the bat to w/2, outside it. The bound the moves keep on such a screen is not stated.

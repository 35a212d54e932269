/** What the rules of the game guarantee: the layout of a fresh game, the
    clamping of the bat, serving, one brick per frame, life accounting,
    the scene transitions, and an invariant of every reachable state. */
module Properties {
  import opened Geometry
  import opened Rules

  // ---------------------------------------------------------------- set-up

  /** The first n columns hold 7n bricks; brick i sits in column i / 7 and
      row i % 7 (column-major order). */
  lemma {:induction false} ColumnsLayout(n: nat)
    ensures |Columns(n)| == ROWS * n
    ensures forall i :: 0 <= i < ROWS * n ==> Columns(n)[i] == GridBrick(i / ROWS, i % ROWS)
  {
    if n > 0 {
      ColumnsLayout(n - 1);
      var c := Columns(n);
      forall i | 0 <= i < ROWS * n
        ensures c[i] == GridBrick(i / ROWS, i % ROWS)
      {
        if i >= ROWS * (n - 1) {
          var row := i - ROWS * (n - 1);
          assert i / ROWS == n - 1 && i % ROWS == row;
          assert c[i] == ColumnPrefix(n - 1, ROWS)[row];
        }
      }
    }
  }

  /** A fresh game: score 0, 4 lives, level 1, no keys held, the ball out
      of play and still, and a wall of 13 x 7 = 91 whole bricks whose
      centres run x = 80, 120, ..., 560 and y = 90, 105, ..., 180, column
      by column. The scene is left as it was. */
  lemma InitializedFacts(scene: Scene, screen: Screen)
    ensures var s := Initialized(scene, screen);
      s.score == 0 && s.lives == 4 && s.level == 1 && s.controller == map[] &&
      s.scene == scene &&
      !s.ball.active && s.ball.velX == 0.0 && s.ball.velY == 0.0 &&
      s.ball.x == screen.width / 2.0 && s.bat.x == screen.width / 2.0 && s.bat.y == 440.0 &&
      |s.bricks| == 91 &&
      (forall i :: 0 <= i < 91 ==>
         !s.bricks[i].smashed && s.bricks[i].w == 40.0 && s.bricks[i].h == 15.0 &&
         s.bricks[i].x == 80.0 + 40.0 * (i / 7) as real &&
         s.bricks[i].y == 90.0 + 15.0 * (i % 7) as real &&
         80.0 <= s.bricks[i].x <= 560.0 && 90.0 <= s.bricks[i].y <= 180.0) &&
      s.bricks[0].x == 80.0 && s.bricks[0].y == 90.0 &&
      s.bricks[90].x == 560.0 && s.bricks[90].y == 180.0
  {
    ColumnsLayout(COLUMNS);
  }

  // ---------------------------------------------------------------- bat

  /** Each move keeps the bat within one step of the screen edges, provided
      the screen is at least a bat width less a step wide. */
  lemma MovesKeepBatInRange(bat: Bat, screen: Screen)
    requires screen.width >= BAT_WIDTH - BAT_SPEED
    requires BatInRange(bat, screen)
    ensures BatInRange(MoveLeft(bat), screen) && BatInRange(MoveRight(bat, screen), screen)
  {
  }

    /** A move takes a full step whenever the bat's edge is still inside the
      screen, so from less than a step inside the edge ends past it: the
      bat overshoots rather than stopping at the edge. */
  lemma MovesOvershoot(bat: Bat, screen: Screen)
    ensures bat.x - bat.w / 2.0 > 0.0 ==> MoveLeft(bat).x == bat.x - BAT_SPEED
    ensures bat.x + bat.w / 2.0 < screen.width ==> MoveRight(bat, screen).x == bat.x + BAT_SPEED
    ensures 0.0 < bat.x - bat.w / 2.0 < BAT_SPEED ==> MoveLeft(bat).x - bat.w / 2.0 < 0.0
    ensures screen.width - BAT_SPEED < bat.x + bat.w / 2.0 < screen.width ==>
      MoveRight(bat, screen).x + bat.w / 2.0 > screen.width
  {
  }

/** The controls keep the bat within range, whatever keys are held. */
  lemma ControlsKeepBatInRange(s: State, screen: Screen)
    requires screen.width >= BAT_WIDTH - BAT_SPEED
    requires BatInRange(s.bat, screen)
    ensures BatInRange(Controls(s, screen).bat, screen)
  {
    if s.scene == Play {
      MovesKeepBatInRange(s.bat, screen);
      if Held(s.controller, Left) {
        MovesKeepBatInRange(MoveLeft(s.bat), screen);
      }
    }
  }

  // ---------------------------------------------------------------- controls

  /** Off the play screen the controls do nothing unless Enter is held,
      and then they start a fresh game on the play screen. */
  lemma ControlsOffPlay(s: State, screen: Screen)
    requires s.scene != Play
    ensures Held(s.controller, Enter) ==> Controls(s, screen) == Initialized(Play, screen)
    ensures !Held(s.controller, Enter) ==> Controls(s, screen) == s
  {
  }

  /** On the play screen the controls change only the bat's x and the ball,
      and the ball only by a serve. */
  lemma ControlsInPlay(s: State, screen: Screen)
    requires s.scene == Play
    ensures var r := Controls(s, screen);
      r.(bat := s.bat, ball := s.ball) == s && r.bat.(x := s.bat.x) == s.bat &&
      (!(Held(s.controller, Space) && !s.ball.active) ==> r.ball == s.ball)
  {
  }

  /** Space on the play screen with the ball out of play serves it: the
      ball is in play, centred over the bat's new position, 120 above it,
      moving down at BALL_SPEED, with its horizontal speed kept. */
  lemma ControlsServe(s: State, screen: Screen)
    requires s.scene == Play && Held(s.controller, Space) && !s.ball.active
    ensures var r := Controls(s, screen);
      r.ball.active && r.ball.x == r.bat.x && r.ball.y == r.bat.y - 120.0 &&
      r.ball.velY == 4.0 && r.ball.velX == s.ball.velX &&
      r.ball.w == s.ball.w && r.ball.h == s.ball.h
  {
  }

  // ---------------------------------------------------------------- bricks

  /** Number of smashed bricks. */
  function SmashedCount(bricks: seq<Brick>): nat
  {
    if |bricks| == 0 then 0
    else (if bricks[0].smashed then 1 else 0) + SmashedCount(bricks[1..])
  }

  /** Smashing a whole brick adds exactly one to the count. */
  lemma {:induction false} SmashAddsOne(bricks: seq<Brick>, i: nat)
    requires i < |bricks| && !bricks[i].smashed
    ensures SmashedCount(bricks[i := bricks[i].(smashed := true)]) == SmashedCount(bricks) + 1
  {
    var after := bricks[i := bricks[i].(smashed := true)];
    if i == 0 {
      assert after[1..] == bricks[1..];
    } else {
      assert after[1..] == bricks[1..][i - 1 := bricks[i].(smashed := true)];
      SmashAddsOne(bricks[1..], i - 1);
    }
  }

  /** Whether a brick can be smashed depends only on where the ball is and
      how big it is. */
  lemma {:induction false} FirstHitDependsOnExtent(bricks: seq<Brick>, a: Ball, b: Ball)
    requires a.Extent() == b.Extent()
    ensures FirstHit(bricks, a) == FirstHit(bricks, b)
  {
    if |bricks| > 0 {
      FirstHitDependsOnExtent(bricks[1..], a, b);
    }
  }

  /** The brick smashed in a frame, if any: the first whole brick, in
      storage order, that the ball touches after moving and bouncing. */
  function Target(s: State, screen: Screen): Option<nat>
  {
    if s.ball.active then FirstHit(s.bricks, Travel(s.ball, s.bat, screen)) else None
  }

  /** A frame of play smashes exactly the target brick, if there is one,
      scoring SCORE_INCREMENT times the level for it; otherwise the bricks
      and the score stay as they were. No brick is smashed while the ball
      is out of play. */
  lemma UpdateSmashesTarget(s: State, screen: Screen)
    ensures var r := Update(s, screen);
      match Target(s, screen)
      case Some(i) =>
        i < |s.bricks| && !s.bricks[i].smashed &&
        r.bricks == s.bricks[i := s.bricks[i].(smashed := true)] &&
        r.score == s.score + SCORE_INCREMENT * s.level
      case None =>
        r.bricks == s.bricks && r.score == s.score
    ensures !s.ball.active ==> Target(s, screen) == None
  {
    if s.ball.active {
      var t := s.(ball := Travel(s.ball, s.bat, screen));
      FirstHitDependsOnExtent(s.bricks, t.ball, Fall(t, screen).ball);
    }
  }

  /** Smashing brick i changes no other brick and keeps smashed bricks
      smashed. */
  lemma SmashOnlyThatBrick(bricks: seq<Brick>, i: nat)
    requires i < |bricks| && !bricks[i].smashed
    ensures var after := bricks[i := bricks[i].(smashed := true)];
      (forall k :: 0 <= k < |bricks| && bricks[k].smashed ==> after[k].smashed) &&
      (forall k, l :: 0 <= k < l < |bricks| ==> after[k] == bricks[k] || after[l] == bricks[l]) &&
      SmashedCount(after) == SmashedCount(bricks) + 1
  {
    SmashAddsOne(bricks, i);
  }

  /** A frame smashes at most one brick: smashed bricks stay smashed, at
      most one brick changes, and the score grows by SCORE_INCREMENT times
      the level for each brick smashed. */
  lemma UpdateSmashesAtMostOne(s: State, screen: Screen)
    ensures var r := Update(s, screen);
      |r.bricks| == |s.bricks| &&
      (forall i :: 0 <= i < |s.bricks| && s.bricks[i].smashed ==> r.bricks[i].smashed) &&
      (forall i, j :: 0 <= i < j < |s.bricks| ==> r.bricks[i] == s.bricks[i] || r.bricks[j] == s.bricks[j]) &&
      SmashedCount(s.bricks) <= SmashedCount(r.bricks) <= SmashedCount(s.bricks) + 1 &&
      r.score == s.score + SCORE_INCREMENT * s.level * (SmashedCount(r.bricks) - SmashedCount(s.bricks))
  {
    UpdateSmashesTarget(s, screen);
    var r := Update(s, screen);
    match Target(s, screen)
    case Some(i) =>
      SmashOnlyThatBrick(s.bricks, i);
      assert SmashedCount(r.bricks) - SmashedCount(s.bricks) == 1;
    case None =>
      assert r.bricks == s.bricks;
  }

  // ---------------------------------------------------------------- lives

  /** A life is lost exactly when the ball is in play and, after moving and
      bouncing, OutOfBounds holds of it (its bottom edge is less than half a
      diameter above the screen's bottom); the ball then leaves
      play, and its horizontal speed is 0 unless a brick is hit in the same
      frame. */
  lemma UpdateLives(s: State, screen: Screen)
    ensures var r := Update(s, screen);
      var lost := s.ball.active && OutOfBounds(Travel(s.ball, s.bat, screen), screen);
      r.lives == (if lost then s.lives - 1 else s.lives) &&
      (lost ==> !r.ball.active) &&
      (lost && Target(s, screen) == None ==> r.ball.velX == 0.0)
  {
    UpdateSmashesTarget(s, screen);
    if s.ball.active {
      var t := s.(ball := Travel(s.ball, s.bat, screen));
      FirstHitDependsOnExtent(s.bricks, t.ball, Fall(t, screen).ball);
    }
  }

  /** A ball out of play does not move. */
  lemma UpdateIdleBall(s: State, screen: Screen)
    requires !s.ball.active
    ensures Update(s, screen).ball == s.ball && Update(s, screen).lives == s.lives
  {
  }

  // ---------------------------------------------------------------- ball

  /** The vertical speed only ever changes sign, so its size is kept. While
      the ball is in play and neither touches the bat after moving nor hits
      a brick, the vertical speed is reversed exactly when the ball is at
      the ceiling, and the horizontal speed keeps its size unless the ball
      falls out. After touching the bat, again with no brick hit and no
      fall, the horizontal speed is the bat's deflection, or its reverse
      from a side wall. After a brick hit, the ball, as it was after moving
      and bouncing, is deflected by that brick and its vertical speed
      reversed. */
  lemma UpdateVelocities(s: State, screen: Screen)
    ensures var v := Update(s, screen).ball.velY; v == s.ball.velY || v == -s.ball.velY
    ensures var r := Update(s, screen); var m := Moved(s.ball);
      s.ball.active && !Collision(s.bat.Extent(), m.Extent()) && Target(s, screen) == None ==>
        r.ball.velY == (if HittingCeiling(m) then -s.ball.velY else s.ball.velY) &&
        (!OutOfBounds(Travel(s.ball, s.bat, screen), screen) ==>
           r.ball.velX == s.ball.velX || r.ball.velX == -s.ball.velX)
    ensures var r := Update(s, screen); var m := Moved(s.ball);
      s.ball.active && Collision(s.bat.Extent(), m.Extent()) && Target(s, screen) == None &&
      !OutOfBounds(Travel(s.ball, s.bat, screen), screen) ==>
        r.ball.velX == Deflection(m, s.bat.x) || r.ball.velX == -Deflection(m, s.bat.x)
    ensures var r := Update(s, screen); var b := Travel(s.ball, s.bat, screen);
      Target(s, screen).Some? ==>
        Target(s, screen).value < |s.bricks| &&
        r.ball.velX == Deflection(b, s.bricks[Target(s, screen).value].x) &&
        r.ball.velY == -b.velY
  {
    UpdateSmashesTarget(s, screen);
    if s.ball.active {
      var t := s.(ball := Travel(s.ball, s.bat, screen));
      FirstHitDependsOnExtent(s.bricks, t.ball, Fall(t, screen).ball);
    }
  }

  /** A ball in play moving up at the ball speed, at the top of the screen
      and far from the bat and the bricks, comes back down at the same
      speed after one frame (on a wall not yet cleared, which would take the
      ball out of play). */
  lemma CeilingBounce(s: State)
    requires s.ball == Ball(100.0, 0.0, BALL_DIA, BALL_DIA, 0.0, -BALL_SPEED, true)
    requires s.bat == Bat(320.0, BAT_Y, BAT_HEIGHT, BAT_WIDTH)
    requires forall i :: 0 <= i < |s.bricks| ==> s.bricks[i].y - s.bricks[i].h / 2.0 > 0.0
    requires !AllSmashed(s.bricks)
    ensures var r := Update(s, Screen(640.0, 480.0));
      r.ball == Ball(100.0, -BALL_SPEED, BALL_DIA, BALL_DIA, 0.0, BALL_SPEED, true) &&
      r.bricks == s.bricks && r.score == s.score && r.lives == s.lives
  {
    var screen := Screen(640.0, 480.0);
    UpdateSmashesTarget(s, screen);
    UpdateVelocities(s, screen);
    assert Target(s, screen) == None by {
      var b := Travel(s.ball, s.bat, screen);
      assert b.y == -BALL_SPEED;
      forall i | 0 <= i < |s.bricks| ensures !Hits(s.bricks[i], b) {
      }
    }
  }

  // ---------------------------------------------------------------- scenes

  /** In play, a frame ends on the game-over screen exactly when no lives
      are left, and otherwise stays in play. */
  lemma UpdateScene(s: State, screen: Screen)
    requires s.scene == Play
    ensures Update(s, screen).scene == (if Update(s, screen).lives == 0 then GameOver else Play)
  {
  }

  /** When the wall is clear after a frame the level rises by one and the
      ball leaves play; otherwise the level is kept. */
  lemma UpdateLevel(s: State, screen: Screen)
    ensures var r := Update(s, screen);
      r.level == (if AllSmashed(r.bricks) then s.level + 1 else s.level) &&
      (AllSmashed(r.bricks) ==> !r.ball.active)
  {
  }

  /** The wall is never rebuilt: once it is clear, every later frame in
      play raises the level again. */
  lemma ClearWallLevelsUpEveryFrame(s: State, screen: Screen)
    requires s.scene == Play && AllSmashed(s.bricks)
    ensures AllSmashed(Tick(s, screen).bricks) && Tick(s, screen).level == s.level + 1
  {
    ControlsInPlay(s, screen);
    var c := Controls(s, screen);
    UpdateSmashesAtMostOne(c, screen);
  }

  /** The three transitions of the scene machine. From the title or
      game-over screen, Enter starts a new game that is in play at the end
      of the frame; without Enter nothing changes. From play the game goes
      to game over exactly when the lives run out. The title screen is
      never entered again. */
  lemma TickScenes(s: State, screen: Screen)
    ensures s.scene != Play && Held(s.controller, Enter) ==>
      Tick(s, screen) == Update(Initialized(Play, screen), screen) && Tick(s, screen).scene == Play
    ensures s.scene != Play && !Held(s.controller, Enter) ==> Tick(s, screen) == s
    ensures s.scene == Play ==>
      Tick(s, screen).scene == (if Tick(s, screen).lives == 0 then GameOver else Play)
    ensures Tick(s, screen).scene == Title ==> s.scene == Title
  {
    if s.scene != Play {
      ControlsOffPlay(s, screen);
      if Held(s.controller, Enter) {
        var i := Initialized(Play, screen);
        assert !i.ball.active;
        UpdateIdleBall(i, screen);
      }
    } else {
      ControlsInPlay(s, screen);
      UpdateScene(Controls(s, screen), screen);
    }
  }

  /** In play (not restarting) the score never goes down. */
  lemma TickScoreMonotone(s: State, screen: Screen)
    requires s.scene == Play
    ensures Tick(s, screen).score >= s.score
  {
    ControlsInPlay(s, screen);
    UpdateSmashesAtMostOne(Controls(s, screen), screen);
  }

  // ---------------------------------------------------------------- invariant

  lemma NewSatisfiesInv(screen: Screen)
    ensures Inv(New(screen), screen)
  {
    ColumnsLayout(COLUMNS);
  }

  /** Reading the controls keeps the invariant: moves keep the bat's row,
      size and range, a serve touches only the ball, and Enter starts a
      fresh game in play. */
  lemma ControlsKeepsInv(s: State, screen: Screen)
    requires Inv(s, screen)
    ensures Inv(Controls(s, screen), screen)
  {
    if s.scene == Play {
      ControlsInPlay(s, screen);
    } else {
      ControlsOffPlay(s, screen);
      ColumnsLayout(COLUMNS);
    }
    if screen.width >= BAT_WIDTH - BAT_SPEED {
      ControlsKeepBatInRange(s, screen);
    }
  }

  /** Every frame keeps the invariant: lives stay within 0..4 and are at
      least 1 in play and 0 on the game-over screen, the level is at least
      1, the wall keeps 91 bricks, and the bat keeps its row, its size and
      (on a wide enough screen) its range. */
  lemma TickKeepsInv(s: State, screen: Screen)
    requires Inv(s, screen)
    ensures Inv(Tick(s, screen), screen)
  {
    var c := Controls(s, screen);
    ControlsKeepsInv(s, screen);
    if c.scene == Play {
      UpdateLives(c, screen);
      UpdateScene(c, screen);
      UpdateLevel(c, screen);
      UpdateSmashesAtMostOne(c, screen);
    }
  }

  lemma StepKeepsInv(s: State, e: Event, screen: Screen)
    requires Inv(s, screen)
    ensures Inv(Step(s, e, screen), screen)
  {
    if e.Frame? {
      TickKeepsInv(s, screen);
    }
  }

  /** Any sequence of key events and frames keeps the invariant; in
      particular the bat never leaves its range. */
  lemma {:induction false} ReplayKeepsInv(s: State, events: seq<Event>, screen: Screen)
    requires Inv(s, screen)
    ensures Inv(Replay(s, events, screen), screen)
    decreases |events|
  {
    if |events| > 0 {
      StepKeepsInv(s, events[0], screen);
      ReplayKeepsInv(Step(s, events[0], screen), events[1..], screen);
    }
  }

  /** From construction on, whatever happens, the bat stays within one
      step of the screen edges. */
  lemma BatAlwaysInRange(events: seq<Event>, screen: Screen)
    requires screen.width >= BAT_WIDTH - BAT_SPEED
    ensures BatInRange(Replay(New(screen), events, screen).bat, screen)
  {
    NewSatisfiesInv(screen);
    ReplayKeepsInv(New(screen), events, screen);
  }

  // ---------------------------------------------------------------- the level-up defect

  /** The code as written agrees with Update on every frame that does not
      clear the wall, and crashes on every frame that does. */
  lemma AsWrittenCrashesOnClearWall(s: State, screen: Screen)
    ensures UpdateAsWritten(s, screen).Crashed? <==> AllSmashed(Update(s, screen).bricks)
    ensures UpdateAsWritten(s, screen).Running? ==> UpdateAsWritten(s, screen).state == Update(s, screen)
  {
  }

  /** The frame in which the last whole brick is smashed: the code as
      written crashes, with the level already raised; the corrected update
      raises the level and takes the ball out of play. */
  lemma LastBrickCrashes(s: State, screen: Screen, i: nat)
    requires Target(s, screen) == Some(i)
    requires forall j :: 0 <= j < |s.bricks| && j != i ==> s.bricks[j].smashed
    ensures UpdateAsWritten(s, screen).Crashed?
    ensures UpdateAsWritten(s, screen).state.level == s.level + 1
    ensures Update(s, screen).level == s.level + 1 && !Update(s, screen).ball.active
  {
    UpdateSmashesTarget(s, screen);
    assert AllSmashed(Update(s, screen).bricks);
  }
}

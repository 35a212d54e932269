/** The game object: its fields are the game state and its methods change
    them in place, frame by frame. Each method is proved to compute exactly
    the corresponding function of Rules. */
module Game {
  import opened Geometry
  import opened Rules
  import Scoreboard
  import Properties

  class Fakeout {
    /** Size of the canvas the game is drawn on. */
    const screen: Screen

    /** Held keys, written by the browser's key listeners. */
    var controller: map<Key, bool>
    var score: nat
    var lives: int
    var level: nat
    var bricks: seq<Brick>
    var ball: Ball
    var bat: Bat
    var scene: Scene

    /** The fields as one value. */
    function Model(): State
      reads this
    {
      State(controller, score, lives, level, bricks, ball, bat, scene)
    }

    ghost predicate Valid()
      reads this
    {
      Inv(Model(), screen)
    }

    /** Starts on the title screen over a freshly initialised game. */
    constructor (screen: Screen)
      ensures this.screen == screen
      ensures Model() == New(screen)
      ensures Valid()
    {
      this.screen := screen;
      scene := Title;
      new;
      Initialize();
      Properties.NewSatisfiesInv(screen);
    }

    /** The key-down listener. */
    method KeyDown(k: Key)
      requires Valid()
      modifies this
      ensures Model() == Rules.KeyDown(old(Model()), k)
      ensures Valid()
    {
      controller := controller[k := true];
    }

    /** The key-up listener. */
    method KeyUp(k: Key)
      requires Valid()
      modifies this
      ensures Model() == Rules.KeyUp(old(Model()), k)
      ensures Valid()
    {
      controller := controller[k := false];
    }

    /** Resets every part of the state except the scene, and builds the
        brick wall column by column. Like Serve, Update, Fly and
        SmashFirstBrick below, it is called only from the constructor, Run
        or Controls, which keep Valid() across the call. */
    method Initialize()
      modifies this
      ensures Model() == Initialized(old(scene), screen)
    {
      controller := map[];
      score := 0;
      lives := START_LIVES;
      level := 1;
      bricks := [];
      var colLimit := BRICK_HEIGHT * 12.0;
      var rowLimit := BRICK_WIDTH * 14.0;
      var cx := BRICK_WIDTH * 2.0;
      ghost var col: nat := 0;
      while cx <= rowLimit
        invariant col <= COLUMNS
        invariant cx == BRICK_WIDTH * (2 + col) as real
        invariant bricks == Columns(col)
        invariant scene == old(scene)
        invariant controller == map[] && score == 0 && lives == START_LIVES && level == 1
        decreases COLUMNS - col
      {
        var cy := BRICK_HEIGHT * 6.0;
        ghost var row: nat := 0;
        while cy <= colLimit
          invariant row <= ROWS
          invariant cy == BRICK_HEIGHT * (6 + row) as real
          invariant bricks == Columns(col) + ColumnPrefix(col, row)
          invariant scene == old(scene)
          invariant controller == map[] && score == 0 && lives == START_LIVES && level == 1
          decreases ROWS - row
        {
          bricks := bricks + [Brick(cx, cy, BRICK_HEIGHT, BRICK_WIDTH, false)];
          assert ColumnPrefix(col, row) + [GridBrick(col, row)] == ColumnPrefix(col, row + 1);
          cy := cy + BRICK_HEIGHT;
          row := row + 1;
        }
        cx := cx + BRICK_WIDTH;
        col := col + 1;
      }
      ball := Ball(screen.width / 2.0, 0.0, BALL_DIA, BALL_DIA, 0.0, 0.0, false);
      bat := Bat(screen.width / 2.0, BAT_Y, BAT_HEIGHT, BAT_WIDTH);
    }

    /** Whether every brick is smashed; stops at the first whole brick. */
    method WallDestroyed() returns (destroyed: bool)
      ensures destroyed == AllSmashed(bricks)
    {
      var i := 0;
      while i < |bricks|
        invariant 0 <= i <= |bricks|
        invariant forall j :: 0 <= j < i ==> bricks[j].smashed
      {
        if !bricks[i].smashed {
          return false;
        }
        i := i + 1;
      }
      return true;
    }

    /** Reads the held keys and moves the bat, serves, or starts a game. */
    method Controls()
      requires Valid()
      modifies this
      ensures Model() == Rules.Controls(old(Model()), screen)
      ensures Valid()
    {
      Properties.ControlsKeepsInv(Model(), screen);
      if scene == Play {
        if Held(controller, Left) {
          if bat.x - bat.w / 2.0 > 0.0 {
            bat := bat.(x := bat.x - BAT_SPEED);
          } else {
            bat := bat.(x := bat.w / 2.0);
          }
        }
        if Held(controller, Right) {
          if bat.x + bat.w / 2.0 < screen.width {
            bat := bat.(x := bat.x + BAT_SPEED);
          } else {
            bat := bat.(x := screen.width - bat.w / 2.0);
          }
        }
        if Held(controller, Space) {
          if !ball.active {
            Serve();
          }
        }
      }
      if scene == Title || scene == GameOver {
        if Held(controller, Enter) {
          Initialize();
          scene := Play;
        }
      }
    }

    /** Drops the ball onto the bat and puts it in play. */
    method Serve()
      modifies this
      ensures Model() == Rules.Serve(old(Model()))
    {
      ball := ball.(active := true);
      ball := ball.(x := bat.x);
      ball := ball.(y := bat.y - BAT_HEIGHT * 8.0);
      ball := ball.(velY := BALL_SPEED);
    }

    /** One frame of play: move and bounce the ball, lose a life below the
        screen, smash at most one brick, then check for the end of the game
        and for a cleared wall. */
    method Update()
      modifies this
      ensures Model() == Rules.Update(old(Model()), screen)
    {
      if ball.active {
        Fly();
        SmashFirstBrick();
      }
      if lives == 0 {
        scene := GameOver;
      }
      var destroyed := WallDestroyed();
      if destroyed {
        level := level + 1;
        ball := ball.(active := false);
      }
    }

    /** The ball's flight in a frame of play: move, bounce off the bat and
        the walls, and leave play below the screen at the cost of a life. */
    method Fly()
      modifies this
      ensures Model() == Fall(old(Model()).(ball := Travel(old(ball), old(bat), screen)), screen)
    {
      var b := ball;
      b := b.(x := b.x + b.velX);
      b := b.(y := b.y + b.velY);
      if Collision(bat.Extent(), b.Extent()) {
        b := b.(velX := BALL_SPEED * (b.x - bat.x) / DEFLECTION_DIVISOR);
        b := b.(y := b.y - bat.h / 2.0);
        b := b.(velY := -b.velY);
      }
      assert b == BatBounce(Moved(ball), bat);
      if HittingCeiling(b) {
        b := b.(velY := -b.velY);
      }
      if HittingLeft(b) {
        b := b.(velX := -b.velX);
      }
      if HittingRight(b, screen) {
        b := b.(velX := -b.velX);
      }
      assert b == Travel(ball, bat, screen);
      if OutOfBounds(b, screen) {
        lives := lives - 1;
        b := b.(active := false);
        b := b.(velX := 0.0);
      }
      ball := b;
    }

    /** Scans the bricks in order and smashes the first whole one the ball
        touches, then stops. */
    method SmashFirstBrick()
      modifies this
      ensures Model() == Smash(old(Model()))
    {
      var i := 0;
      while i < |bricks|
        invariant 0 <= i <= |bricks|
        invariant Model() == old(Model())
        invariant forall j :: 0 <= j < i ==> !Hits(bricks[j], ball)
      {
        if !bricks[i].smashed && Collision(bricks[i].Extent(), ball.Extent()) {
          assert FirstHit(bricks, ball) == Some(i);
          bricks := bricks[i := bricks[i].(smashed := true)];
          score := score + SCORE_INCREMENT * level;
          ball := ball.(velX := BALL_SPEED * (ball.x - bricks[i].x) / DEFLECTION_DIVISOR);
          ball := ball.(velY := -ball.velY);
          return;
        }
        i := i + 1;
      }
    }

    /** One frame of the game loop. Reads the controls, reports the text
        shown beside the canvas, and runs the current scene, of which only
        Play changes the state. */
    method Run() returns (hud: Hud)
      requires Valid()
      modifies this
      ensures Model() == Tick(old(Model()), screen)
      ensures hud == Display(Rules.Controls(old(Model()), screen))
      ensures Valid()
    {
      Properties.TickKeepsInv(Model(), screen);
      Controls();
      var board := Scoreboard.WriteScoreboard(score);
      hud := Hud(board, lives, level);
      if scene == Play {
        Update();
      }
    }
  }
}

/**
  Dino Run, free practice mode: the same engine as the paid mode with a
  difficulty switch and no lives. Easy mode spawns an obstacle every 3000 ms
  and caps the speed at 20; hard mode draws the delay from {2000, 3000, 4000}
  ms after each spawn and caps the speed at 10. Any collision ends the game
  at once, and the loop then requests no further frame.
*/
module FreePage {
  import opened Wrappers
  import opened DinoRun

  datatype Difficulty = Easy | Hard

  /** The fixed spawn delay of easy mode. */
  const EasyDelay: int := 3000

  /** `maxSpeed` of updateSpeed: 20 in easy mode, 10 in hard mode. */
  function Cap(d: Difficulty): (cap: real)
    ensures StartSpeed < cap <= 20.0
  {
    match d
    case Easy => 20.0
    case Hard => 10.0
  }

  /** The largest cap; the speed never exceeds it, whatever difficulty is chosen when. */
  const TopSpeed: real := 20.0

  class FreeGame {
    // React state of the page.
    var score: int
    var gameStarted: bool
    var gameOver: bool
    var isPaused: bool
    var difficulty: Difficulty
    var showGameOverModal: bool
    var finalScore: int

    // gameStateRef.current.
    var engine: Engine

    /** What every step keeps. */
    ghost predicate Valid()
      reads this
    {
      && EngineValid(engine, TopSpeed)
      && score >= 0
    }

    /** The page as first shown: hard difficulty selected, no game yet. */
    constructor ()
      ensures Valid()
      ensures score == 0 && !gameStarted && !gameOver && !isPaused && difficulty == Hard
      ensures !showGameOverModal && finalScore == 0 && engine == FreshEngine(0)
    {
      score := 0;
      gameStarted, gameOver, isPaused := false, false, false;
      difficulty := Hard;
      showGameOverModal, finalScore := false, 0;
      engine := FreshEngine(0);
    }

    /** The difficulty buttons, which stay clickable during a game. */
    method SetDifficulty(d: Difficulty)
      modifies this`difficulty
      ensures difficulty == d
    {
      difficulty := d;
    }

    /** The gravity step at the start of every frame. */
    method ApplyGravity()
      requires Valid()
      modifies this`engine
      ensures Valid()
      ensures var r := Fall(old(engine.dinoY), old(engine.dinoDy));
              engine == old(engine).(dinoY := r.0, dinoDy := r.1)
    {
      var dy := engine.dinoDy + Gravity;
      var y := engine.dinoY + dy;
      if y > GroundY {
        y := GroundY;
        dy := 0.0;
      }
      engine := engine.(dinoY := y, dinoDy := dy);
    }

    /** `jump`: only a dino on the ground gets the jump impulse; otherwise nothing changes. */
    method Jump()
      requires Valid()
      modifies this`engine
      ensures Valid()
      ensures engine == old(engine).(dinoDy := Jumped(old(engine.dinoY), old(engine.dinoDy)))
    {
      if engine.dinoY == GroundY {
        engine := engine.(dinoDy := JumpImpulse);
      }
    }

    /**
      `updateSpeed` with the cap of the current difficulty. A speed already
      under that cap stays under it; a speed above it (left over from easy
      mode before a switch to hard) is not lowered, only no longer raised.
    */
    method UpdateSpeed(now: int)
      requires Valid()
      modifies this`engine
      ensures Valid()
      ensures var r := SpeedRamp(old(engine.speed), old(engine.lastSpeedIncreaseTime), now, Cap(difficulty));
              engine == old(engine).(speed := r.0, lastSpeedIncreaseTime := r.1)
      ensures old(engine.speed) <= Cap(difficulty) ==> engine.speed <= Cap(difficulty)
      ensures old(engine.speed) <= engine.speed <= old(engine.speed) + SpeedStep
    {
      var maxSpeed := Cap(difficulty);
      SpeedRampBounds(engine.speed, engine.lastSpeedIncreaseTime, now, maxSpeed);
      if now - engine.lastSpeedIncreaseTime >= SpeedInterval && engine.speed < maxSpeed {
        var s := engine.speed + SpeedStep;
        if s > maxSpeed {
          s := maxSpeed;
        }
        engine := engine.(speed := s, lastSpeedIncreaseTime := now);
      }
    }

    /**
      `createObstacle`. Easy: spawn when EasyDelay ms have passed and the
      newest obstacle is far enough; the delay field is never touched. Hard:
      spawn when the current delay has passed and the newest obstacle is far
      enough, then draw the next delay. rHeight and rDelay are the draws of
      `Math.random()`.
    */
    method CreateObstacle(now: int, rHeight: real, rDelay: real) returns (spawned: bool)
      requires Valid()
      requires 0.0 <= rHeight < 1.0 && 0.0 <= rDelay < 1.0
      modifies this`engine
      ensures Valid()
      ensures difficulty == Easy ==>
                (spawned <==> now - old(engine.lastObstacleTime) >= EasyDelay && HasDistance(old(engine.obstacles)))
      ensures difficulty == Hard ==>
                (spawned <==> now - old(engine.lastObstacleTime) >= old(engine.nextObstacleDelay)
                              && HasDistance(old(engine.obstacles)))
      ensures spawned && difficulty == Easy ==>
                engine == old(engine).(obstacles := old(engine.obstacles) + [SpawnedObstacle(rHeight)],
                                       lastObstacleTime := now)
      ensures spawned && difficulty == Hard ==>
                engine == old(engine).(obstacles := old(engine.obstacles) + [SpawnedObstacle(rHeight)],
                                       lastObstacleTime := now,
                                       nextObstacleDelay := DelayPick(rDelay))
      ensures !spawned ==> engine == old(engine)
      ensures difficulty == Easy ==> engine.nextObstacleDelay == old(engine.nextObstacleDelay)
    {
      spawned := false;
      if difficulty == Easy {
        if now - engine.lastObstacleTime >= EasyDelay {
          if HasDistance(engine.obstacles) {
            SpawnKeepsSpaced(engine.obstacles, rHeight);
            engine := engine.(obstacles := engine.obstacles + [SpawnedObstacle(rHeight)],
                              lastObstacleTime := now);
            spawned := true;
          }
        }
      } else {
        if now - engine.lastObstacleTime >= engine.nextObstacleDelay {
          if HasDistance(engine.obstacles) {
            SpawnKeepsSpaced(engine.obstacles, rHeight);
            engine := engine.(obstacles := engine.obstacles + [SpawnedObstacle(rHeight)],
                              lastObstacleTime := now,
                              nextObstacleDelay := DelayPick(rDelay));
            spawned := true;
          }
        }
      }
    }

    /** `updateObstacles`: move every obstacle left by the speed, drop those off screen, one point per drop. */
    method UpdateObstacles()
      requires Valid()
      modifies this`engine, this`score
      ensures Valid()
      ensures engine == old(engine).(obstacles := Survivors(old(engine.obstacles), old(engine.speed)))
      ensures score == old(score) + (|old(engine.obstacles)| - |engine.obstacles|)
    {
      SurvivorsKeepSpaced(engine.obstacles, engine.speed);
      var kept, removed := ShiftAndCull(engine.obstacles, engine.speed);
      engine := engine.(obstacles := kept);
      score := score + removed;
    }

    /**
      `detectCollision`: on any overlap the game is over and the current score
      is recorded; the obstacle list is left as it is.
    */
    method DetectCollision() returns (hit: bool)
      requires Valid()
      modifies this`gameOver, this`finalScore, this`showGameOverModal
      ensures Valid()
      ensures hit <==> AnyOverlap(engine.obstacles, engine.dinoY)
      ensures hit ==> gameOver && finalScore == score && showGameOverModal
      ensures !hit ==> && gameOver == old(gameOver) && finalScore == old(finalScore)
                       && showGameOverModal == old(showGameOverModal)
    {
      var first := FirstOverlap(engine.obstacles, engine.dinoY);
      hit := first.Some?;
      if hit {
        gameOver := true;
        finalScore := score;
        showGameOverModal := true;
      }
    }

    /**
      One call of `gameLoop` at time now. Nothing happens when the game is
      over or paused; otherwise gravity, speed, spawn, move-and-cull and
      collision run in that order, and the next frame is requested only when
      there was no collision. `scheduled` says whether it was requested. The
      new state is the composition of the five steps: the dino as Fall gives
      it, the speed as SpeedRamp gives it with the cap of the difficulty, the
      list with the spawned obstacle (when one was due under the rule of the
      difficulty) moved and culled by Survivors, one point per culled
      obstacle, and game over exactly when the dino then overlaps an obstacle.
    */
    method Frame(now: int, rHeight: real, rDelay: real) returns (scheduled: bool)
      requires Valid()
      requires 0.0 <= rHeight < 1.0 && 0.0 <= rDelay < 1.0
      modifies this`engine, this`score, this`gameOver, this`finalScore, this`showGameOverModal
      ensures Valid()
      ensures old(gameOver) || old(isPaused) ==> !scheduled && unchanged(this)
      ensures !old(gameOver) && !old(isPaused) ==>
                var fall := Fall(old(engine.dinoY), old(engine.dinoDy));
                var ramp := SpeedRamp(old(engine.speed), old(engine.lastSpeedIncreaseTime), now, Cap(difficulty));
                var wait := if difficulty == Easy then EasyDelay else old(engine.nextObstacleDelay);
                var due := now - old(engine.lastObstacleTime) >= wait && HasDistance(old(engine.obstacles));
                var pushed := if due then old(engine.obstacles) + [SpawnedObstacle(rHeight)] else old(engine.obstacles);
                var kept := Survivors(pushed, ramp.0);
                var hit := AnyOverlap(kept, fall.0);
                && engine.dinoY == fall.0 && engine.dinoDy == fall.1
                && engine.speed == ramp.0 && engine.lastSpeedIncreaseTime == ramp.1
                && engine.lastObstacleTime == (if due then now else old(engine.lastObstacleTime))
                && engine.nextObstacleDelay == (if due && difficulty == Hard then DelayPick(rDelay)
                                                else old(engine.nextObstacleDelay))
                && engine.gameStartTime == old(engine.gameStartTime)
                && engine.obstacles == kept
                && score == old(score) + (|pushed| - |kept|)
                && (scheduled <==> !hit) && (gameOver <==> hit)
                && (hit ==> finalScore == score && showGameOverModal)
                && (!hit ==> finalScore == old(finalScore) && showGameOverModal == old(showGameOverModal))
      ensures old(score) <= score
      ensures old(engine.speed) <= engine.speed
      ensures old(engine.speed) <= Cap(difficulty) ==> engine.speed <= Cap(difficulty)
    {
      if gameOver || isPaused {
        return false;
      }
      ApplyGravity();
      UpdateSpeed(now);
      var _ := CreateObstacle(now, rHeight, rDelay);
      ghost var pushed := engine.obstacles;
      UpdateObstacles();
      assert score == old(score) + (|pushed| - |engine.obstacles|);
      var hit := DetectCollision();
      scheduled := !hit;
    }

    /** `startGame` at time now: score 0, no obstacle, speed 3, the dino at rest, the three timers at now. */
    method StartGame(now: int)
      requires Valid()
      modifies this`gameStarted, this`gameOver, this`isPaused, this`score, this`engine
      ensures Valid()
      ensures gameStarted && !gameOver && !isPaused && score == 0 && engine == FreshEngine(now)
    {
      gameStarted, gameOver, isPaused := true, false, false;
      score := 0;
      engine := FreshEngine(now);
    }

    /** `resetGame`: back to "no game" with no score; the engine record is left as it was. */
    method ResetGame()
      requires Valid()
      modifies this`gameStarted, this`gameOver, this`isPaused, this`score
      ensures Valid()
      ensures !gameStarted && !gameOver && !isPaused && score == 0
    {
      gameStarted, gameOver, isPaused := false, false, false;
      score := 0;
    }

    /** `pauseGame`: toggles the pause. */
    method PauseGame()
      requires Valid()
      modifies this`isPaused
      ensures Valid()
      ensures isPaused == !old(isPaused)
    {
      isPaused := !isPaused;
    }

    /**
      The space key (or a touch): starts a game when none is running,
      otherwise jumps unless the game is over. Nothing else changes.
    */
    method PressSpace(now: int)
      requires Valid()
      modifies this`gameStarted, this`gameOver, this`isPaused, this`score, this`engine
      ensures Valid()
      ensures !old(gameStarted) ==> gameStarted && !gameOver && !isPaused && score == 0 && engine == FreshEngine(now)
      ensures old(gameStarted) && old(gameOver) ==> unchanged(this)
      ensures old(gameStarted) && !old(gameOver) ==>
                && engine == old(engine).(dinoDy := Jumped(old(engine.dinoY), old(engine.dinoDy)))
                && gameStarted && !gameOver && isPaused == old(isPaused) && score == old(score)
    {
      if !gameStarted {
        StartGame(now);
      } else if !gameOver {
        Jump();
      }
    }
  }
}

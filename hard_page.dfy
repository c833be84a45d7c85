/**
  Dino Run, paid mode: the state of one game page (its React state and the
  mutable record `gameStateRef.current`) as one object, and the per-frame
  steps as methods that update it in place.

  In this mode the speed is capped at 10, the delay before the next obstacle
  is drawn from {2000, 3000, 4000} ms after each spawn, a collision costs one
  life and removes the obstacle hit, the game is over when no life is left,
  and a bonus check may grant a free life.
*/
module HardPage {
  import opened Wrappers
  import opened DinoRun

  const MaxSpeed: real := 10.0
  const StartLives: int := 1
  /** A bonus check is due whenever the score is a positive multiple of this. */
  const BonusScoreStep: int := 50
  /** At most one successful bonus check per this many milliseconds. */
  const BonusInterval: int := 10000

  class HardGame {
    // React state of the page.
    var score: int
    var lives: int
    var gameStarted: bool
    var gameOver: bool
    var isPaused: bool
    var showGameOverModal: bool
    var showFreeLifeModal: bool
    var email: string
    var finalScore: int

    // gameStateRef.current: the engine record, and the time of the last
    // successful bonus check. The dino's x, radius, gravity and jump impulse
    // never change and are the constants of DinoRun.
    var engine: Engine
    var lastBonusCheck: int

    /** What every step keeps. */
    ghost predicate Valid()
      reads this
    {
      && EngineValid(engine, MaxSpeed)
      && score >= 0
      && lives >= 0
      && (!gameOver ==> lives >= 1)
    }

    /** The page as first shown: no game yet, one life, the dino on the ground. */
    constructor ()
      ensures Valid()
      ensures score == 0 && lives == StartLives && !gameStarted && !gameOver && !isPaused
      ensures !showGameOverModal && !showFreeLifeModal && email == "" && finalScore == 0
      ensures engine == FreshEngine(0) && lastBonusCheck == 0
    {
      score, lives := 0, StartLives;
      gameStarted, gameOver, isPaused := false, false, false;
      showGameOverModal, showFreeLifeModal := false, false;
      email, finalScore := "", 0;
      engine := FreshEngine(0);
      lastBonusCheck := 0;
    }

    /** The email typed into the page's email dialog. */
    method SetEmail(e: string)
      modifies this`email
      ensures email == e
    {
      email := e;
    }

    /** The gravity step at the start of every frame. */
    method ApplyGravity()
      requires Valid()
      modifies this`engine
      ensures Valid()
      ensures var r := Fall(old(engine.dinoY), old(engine.dinoDy));
              engine == old(engine).(dinoY := r.0, dinoDy := r.1)
    {
      var dy := engine.dinoDy + Gravity;
      var y := engine.dinoY + dy;
      if y > GroundY {
        y := GroundY;
        dy := 0.0;
      }
      engine := engine.(dinoY := y, dinoDy := dy);
    }

    /** `jump`: only a dino on the ground gets the jump impulse; otherwise nothing changes. */
    method Jump()
      requires Valid()
      modifies this`engine
      ensures Valid()
      ensures engine == old(engine).(dinoDy := Jumped(old(engine.dinoY), old(engine.dinoDy)))
      ensures engine.dinoY == GroundY ==> engine.dinoDy == JumpImpulse
      ensures engine.dinoY != GroundY ==> engine == old(engine)
    {
      if engine.dinoY == GroundY {
        engine := engine.(dinoDy := JumpImpulse);
      }
    }

    /** `updateSpeed` with the cap of this mode. */
    method UpdateSpeed(now: int)
      requires Valid()
      modifies this`engine
      ensures Valid()
      ensures var r := SpeedRamp(old(engine.speed), old(engine.lastSpeedIncreaseTime), now, MaxSpeed);
              engine == old(engine).(speed := r.0, lastSpeedIncreaseTime := r.1)
    {
      if now - engine.lastSpeedIncreaseTime >= SpeedInterval && engine.speed < MaxSpeed {
        var s := engine.speed + SpeedStep;
        if s > MaxSpeed {
          s := MaxSpeed;
        }
        engine := engine.(speed := s, lastSpeedIncreaseTime := now);
      }
    }

    /**
      `createObstacle`: when the current delay has passed and the newest
      obstacle is far enough, push one at SpawnX and draw the next delay.
      rHeight and rDelay are the two draws of `Math.random()`.
    */
    method CreateObstacle(now: int, rHeight: real, rDelay: real) returns (spawned: bool)
      requires Valid()
      requires 0.0 <= rHeight < 1.0 && 0.0 <= rDelay < 1.0
      modifies this`engine
      ensures Valid()
      ensures spawned <==> && now - old(engine.lastObstacleTime) >= old(engine.nextObstacleDelay)
                           && HasDistance(old(engine.obstacles))
      ensures spawned ==> engine == old(engine).(obstacles := old(engine.obstacles) + [SpawnedObstacle(rHeight)],
                                                 lastObstacleTime := now,
                                                 nextObstacleDelay := DelayPick(rDelay))
      ensures !spawned ==> engine == old(engine)
    {
      spawned := false;
      if now - engine.lastObstacleTime >= engine.nextObstacleDelay {
        if HasDistance(engine.obstacles) {
          SpawnKeepsSpaced(engine.obstacles, rHeight);
          engine := engine.(obstacles := engine.obstacles + [SpawnedObstacle(rHeight)],
                            lastObstacleTime := now,
                            nextObstacleDelay := DelayPick(rDelay));
          spawned := true;
        }
      }
    }

    /** `updateObstacles`: move every obstacle left by the speed, drop those off screen, one point per drop. */
    method UpdateObstacles()
      requires Valid()
      modifies this`engine, this`score
      ensures Valid()
      ensures engine == old(engine).(obstacles := Survivors(old(engine.obstacles), old(engine.speed)))
      ensures score == old(score) + (|old(engine.obstacles)| - |engine.obstacles|)
    {
      SurvivorsKeepSpaced(engine.obstacles, engine.speed);
      var kept, removed := ShiftAndCull(engine.obstacles, engine.speed);
      engine := engine.(obstacles := kept);
      score := score + removed;
    }

    /**
      `detectCollision`: the first obstacle overlapping the dino is removed and
      costs one life; the game is over, with the current score recorded, when
      no life is left. The score submission that follows is not modelled.
    */
    method DetectCollision() returns (hit: bool)
      requires Valid() && !gameOver
      modifies this`engine, this`lives, this`gameOver, this`finalScore, this`showGameOverModal
      ensures Valid()
      ensures hit <==> AnyOverlap(old(engine.obstacles), engine.dinoY)
      ensures !hit ==> && engine == old(engine) && lives == old(lives) && !gameOver
                       && finalScore == old(finalScore) && showGameOverModal == old(showGameOverModal)
      ensures hit ==> && (exists k: nat :: && IsFirstOverlap(old(engine.obstacles), engine.dinoY, k)
                                           && engine == old(engine).(obstacles := Without(old(engine.obstacles), k)))
                      && lives == old(lives) - 1
                      && (gameOver <==> lives <= 0)
      ensures hit && gameOver ==> finalScore == score && showGameOverModal
      ensures hit && !gameOver ==> finalScore == old(finalScore) && showGameOverModal == old(showGameOverModal)
    {
      var first := FirstOverlap(engine.obstacles, engine.dinoY);
      match first
      case None =>
        hit := false;
      case Some(k) =>
        var newLives := lives - 1;
        if newLives <= 0 {
          gameOver := true;
          finalScore := score;
          showGameOverModal := true;
        }
        lives := newLives;
        RemoveKeepsSpaced(engine.obstacles, k);
        engine := engine.(obstacles := Without(engine.obstacles, k));
        hit := true;
    }

    /**
      One call of `gameLoop` at time now. Nothing happens when the game is
      over or paused; otherwise gravity, speed, spawn, move-and-cull and
      collision run in that order, and the next frame is requested even after
      a collision. `scheduled` says whether a next frame was requested. The
      new state is the composition of the five steps: the dino as Fall gives
      it, the speed as SpeedRamp gives it, the list with the spawned obstacle
      (when one was due) moved and culled by Survivors, one point per culled
      obstacle, and then the collision rule of DetectCollision on that list.
    */
    method Frame(now: int, rHeight: real, rDelay: real) returns (scheduled: bool)
      requires Valid()
      requires 0.0 <= rHeight < 1.0 && 0.0 <= rDelay < 1.0
      modifies this`engine, this`score, this`lives, this`gameOver, this`finalScore, this`showGameOverModal
      ensures Valid()
      ensures scheduled == !(old(gameOver) || old(isPaused))
      ensures !scheduled ==> unchanged(this)
      ensures scheduled ==>
                var fall := Fall(old(engine.dinoY), old(engine.dinoDy));
                var ramp := SpeedRamp(old(engine.speed), old(engine.lastSpeedIncreaseTime), now, MaxSpeed);
                var due := now - old(engine.lastObstacleTime) >= old(engine.nextObstacleDelay)
                           && HasDistance(old(engine.obstacles));
                var pushed := if due then old(engine.obstacles) + [SpawnedObstacle(rHeight)] else old(engine.obstacles);
                var kept := Survivors(pushed, ramp.0);
                && engine.dinoY == fall.0 && engine.dinoDy == fall.1
                && engine.speed == ramp.0 && engine.lastSpeedIncreaseTime == ramp.1
                && engine.lastObstacleTime == (if due then now else old(engine.lastObstacleTime))
                && engine.nextObstacleDelay == (if due then DelayPick(rDelay) else old(engine.nextObstacleDelay))
                && engine.gameStartTime == old(engine.gameStartTime)
                && score == old(score) + (|pushed| - |kept|)
                && (!AnyOverlap(kept, fall.0) ==>
                      && engine.obstacles == kept && lives == old(lives) && !gameOver
                      && finalScore == old(finalScore) && showGameOverModal == old(showGameOverModal))
                && (AnyOverlap(kept, fall.0) ==>
                      && (exists k: nat :: IsFirstOverlap(kept, fall.0, k) && engine.obstacles == Without(kept, k))
                      && lives == old(lives) - 1 && (gameOver <==> lives <= 0)
                      && (gameOver ==> finalScore == score && showGameOverModal)
                      && (!gameOver ==> finalScore == old(finalScore) && showGameOverModal == old(showGameOverModal)))
      ensures old(score) <= score && old(lives) - 1 <= lives <= old(lives)
      ensures old(gameOver) ==> gameOver
      ensures engine.speed >= old(engine.speed)
    {
      if gameOver || isPaused {
        return false;
      }
      ApplyGravity();
      UpdateSpeed(now);
      SpeedRampBounds(old(engine.speed), old(engine.lastSpeedIncreaseTime), now, MaxSpeed);
      var _ := CreateObstacle(now, rHeight, rDelay);
      ghost var pushed := engine.obstacles;
      UpdateObstacles();
      assert score == old(score) + (|pushed| - |engine.obstacles|);
      var _ := DetectCollision();
      return true;
    }

    /** The trigger of the bonus-check effect: a game running, an email given, a positive score that is a multiple of 50. */
    function BonusCheckDue(): (due: bool)
      reads this
      ensures due ==> gameStarted && !gameOver && email != "" && score >= BonusScoreStep
    {
      gameStarted && !gameOver && email != "" && score > 0 && score % BonusScoreStep == 0
    }

    /**
      `checkBonusToken`, started by the bonus-check effect. The request is sent
      only when the check is due and BonusInterval ms have passed since the
      last successful check; `responseOk` and `freeLife` stand for the server's
      answer (an ok response, and a token of type `free_life`). A free life
      opens its dialog and pauses the game.
    */
    method CheckBonusToken(now: int, responseOk: bool, freeLife: bool) returns (requested: bool)
      requires Valid()
      modifies this`lastBonusCheck, this`showFreeLifeModal, this`isPaused
      ensures Valid()
      ensures requested <==> BonusCheckDue() && now - old(lastBonusCheck) >= BonusInterval
      ensures lastBonusCheck == if requested && responseOk then now else old(lastBonusCheck)
      ensures requested && responseOk && freeLife ==> showFreeLifeModal && isPaused
      ensures !(requested && responseOk && freeLife) ==>
                showFreeLifeModal == old(showFreeLifeModal) && isPaused == old(isPaused)
    {
      requested := false;
      if BonusCheckDue() {
        if now - lastBonusCheck < BonusInterval {
          return;
        }
        requested := true;
        if responseOk {
          lastBonusCheck := now;
          if freeLife {
            showFreeLifeModal := true;
            isPaused := true;
          }
        }
      }
    }

    /** `handleFreeLifeClaim`: one more life, the dialog closed, the game resumed. */
    method ClaimFreeLife()
      requires Valid()
      modifies this`lives, this`showFreeLifeModal, this`isPaused
      ensures Valid()
      ensures lives == old(lives) + 1 && !showFreeLifeModal && !isPaused
    {
      lives := lives + 1;
      showFreeLifeModal := false;
      isPaused := false;
    }

    /** `startGame` at time now: a fresh game with one life, no obstacle, the dino at rest, the three timers at now. */
    method StartGame(now: int)
      requires Valid()
      modifies this`gameStarted, this`gameOver, this`isPaused, this`score, this`lives, this`engine, this`lastBonusCheck
      ensures Valid()
      ensures gameStarted && !gameOver && !isPaused && score == 0 && lives == StartLives
      ensures engine == FreshEngine(now) && lastBonusCheck == 0
    {
      gameStarted, gameOver, isPaused := true, false, false;
      score, lives := 0, StartLives;
      engine := FreshEngine(now);
      lastBonusCheck := 0;
    }

    /** `resetGame`: back to "no game", one life and no score; the engine record is left as it was. */
    method ResetGame()
      requires Valid()
      modifies this`gameStarted, this`gameOver, this`isPaused, this`score, this`lives
      ensures Valid()
      ensures !gameStarted && !gameOver && !isPaused && score == 0 && lives == StartLives
    {
      gameStarted, gameOver, isPaused := false, false, false;
      score, lives := 0, StartLives;
    }

    /** `pauseGame`: toggles the pause. */
    method PauseGame()
      requires Valid()
      modifies this`isPaused
      ensures Valid()
      ensures isPaused == !old(isPaused)
    {
      isPaused := !isPaused;
    }

    /**
      The space key (or a touch): starts a game when none is running,
      otherwise jumps unless the game is over. Nothing else changes.
    */
    method PressSpace(now: int)
      requires Valid()
      modifies this`gameStarted, this`gameOver, this`isPaused, this`score, this`lives, this`engine, this`lastBonusCheck
      ensures Valid()
      ensures !old(gameStarted) ==> && gameStarted && !gameOver && !isPaused && score == 0 && lives == StartLives
                                    && engine == FreshEngine(now) && lastBonusCheck == 0
      ensures old(gameStarted) && old(gameOver) ==> unchanged(this)
      ensures old(gameStarted) && !old(gameOver) ==>
                && engine == old(engine).(dinoDy := Jumped(old(engine.dinoY), old(engine.dinoDy)))
                && gameStarted && !gameOver && isPaused == old(isPaused)
                && score == old(score) && lives == old(lives) && lastBonusCheck == old(lastBonusCheck)
    {
      if !gameStarted {
        StartGame(now);
      } else if !gameOver {
        Jump();
      }
    }
  }
}

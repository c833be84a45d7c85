/**
  The Diana timing game: a marker bounces along a track 800 units wide and
  the player presses when it is over the target at 400. The distance to the
  target decides the points (10 in the perfect zone of radius 20, 5 in the
  good zone of radius 40, 0 outside) and an accuracy percentage, which is
  shown rounded with a colour and a message. Every fifth attempt the marker
  gets 0.3 faster, up to 6.
*/
module DianaPage {
  import opened Wrappers
  import opened JsMath

  const TargetCenter: real := 400.0
  const PerfectZone: real := 20.0
  const GoodZone: real := 40.0

  /** The canvas width; the marker turns back 50 units before either edge. */
  const TrackWidth: real := 800.0
  const Margin: real := 50.0

  const StartPosition: real := 400.0
  const StartSpeed: real := 2.0
  const SpeedBump: real := 0.3
  const MaxSpeed: real := 6.0
  /** The speed rises after every fifth attempt. */
  const BumpEvery: int := 5

  // ---------------------------------------------------------------------
  // Scoring (pure)
  // ---------------------------------------------------------------------

  /** `Math.abs(position - targetCenter)`. */
  function Distance(position: real): (d: real)
    ensures d >= 0.0
    ensures d == position - TargetCenter || d == TargetCenter - position
  {
    if position >= TargetCenter then position - TargetCenter else TargetCenter - position
  }

  /** The points of a press at distance d from the target. */
  function Points(d: real): (p: int)
    ensures p == 10 || p == 5 || p == 0
  {
    if d <= PerfectZone then 10
    else if d <= GoodZone then 5
    else 0
  }

  /**
    The accuracy percentage: falls linearly from 100 to 90 across the perfect
    zone and from 90 to 50 across the good zone; 0 outside.
  */
  function Accuracy(d: real): (a: real)
    requires d >= 0.0
    ensures d <= PerfectZone ==> 90.0 <= a <= 100.0
    ensures PerfectZone < d <= GoodZone ==> 50.0 <= a < 90.0
    ensures GoodZone < d ==> a == 0.0
    ensures a == 100.0 <==> d == 0.0
  {
    if d <= PerfectZone then 100.0 - (d / PerfectZone) * 10.0
    else if d <= GoodZone then 90.0 - ((d - PerfectZone) / (GoodZone - PerfectZone)) * 40.0
    else 0.0
  }

  /** A press further from the target never earns a higher accuracy, across zone borders too. */
  lemma AccuracyNonIncreasing(d1: real, d2: real)
    requires 0.0 <= d1 <= d2
    ensures Accuracy(d2) <= Accuracy(d1)
  {
    if d2 <= PerfectZone {
      assert Accuracy(d1) == 100.0 - d1 / 2.0;
      assert Accuracy(d2) == 100.0 - d2 / 2.0;
    } else if d2 <= GoodZone {
      assert Accuracy(d2) == 90.0 - (d2 - 20.0) * 2.0;
      if d1 > PerfectZone {
        assert Accuracy(d1) == 90.0 - (d1 - 20.0) * 2.0;
      }
    }
  }

  /** Points and accuracy agree: 10 points exactly when accuracy is at least 90, none exactly when it is 0. */
  lemma PointsMatchAccuracy(d: real)
    requires d >= 0.0
    ensures Points(d) == 10 <==> Accuracy(d) >= 90.0
    ensures Points(d) == 5 <==> 50.0 <= Accuracy(d) < 90.0
    ensures Points(d) == 0 <==> Accuracy(d) == 0.0
  {
  }

  /** The accuracy as stored in `lastHitAccuracy`. */
  function ShownAccuracy(d: real): (n: int)
    requires d >= 0.0
    ensures d <= PerfectZone ==> 90 <= n <= 100
    ensures PerfectZone < d <= GoodZone ==> 50 <= n <= 90
    ensures GoodZone < d ==> n == 0
  {
    Round(Accuracy(d))
  }

  /** Rounding keeps the order: a press further away never shows a higher number. */
  lemma ShownAccuracyNonIncreasing(d1: real, d2: real)
    requires 0.0 <= d1 <= d2
    ensures ShownAccuracy(d2) <= ShownAccuracy(d1)
  {
    AccuracyNonIncreasing(d1, d2);
    RoundMonotone(Accuracy(d2), Accuracy(d1));
  }

  // ---------------------------------------------------------------------
  // Colour and message of the last press (pure)
  // ---------------------------------------------------------------------

  datatype Color = Gray | Green | Yellow | Red

  datatype Message = NoMessage | Perfect | Excellent | VeryGood | Good | Missed

  /** `getAccuracyColor`: gray with no press yet, then green from 90, yellow from 50, red below. */
  function AccuracyColor(accuracy: Option<int>): (c: Color)
    ensures c == Gray <==> accuracy.None?
    ensures c == Green <==> accuracy.Some? && accuracy.value >= 90
    ensures c == Yellow <==> accuracy.Some? && 50 <= accuracy.value < 90
    ensures c == Red <==> accuracy.Some? && accuracy.value < 50
  {
    match accuracy
    case None => Gray
    case Some(a) =>
      if a >= 90 then Green
      else if a >= 50 then Yellow
      else Red
  }

  /** `getAccuracyMessage`, by the thresholds 95, 85, 70 and 50. */
  function AccuracyMessage(accuracy: Option<int>): (m: Message)
    ensures m == NoMessage <==> accuracy.None?
    ensures m == Perfect <==> accuracy.Some? && accuracy.value >= 95
    ensures m == Excellent <==> accuracy.Some? && 85 <= accuracy.value < 95
    ensures m == VeryGood <==> accuracy.Some? && 70 <= accuracy.value < 85
    ensures m == Good <==> accuracy.Some? && 50 <= accuracy.value < 70
    ensures m == Missed <==> accuracy.Some? && accuracy.value < 50
  {
    match accuracy
    case None => NoMessage
    case Some(a) =>
      if a >= 95 then Perfect
      else if a >= 85 then Excellent
      else if a >= 70 then VeryGood
      else if a >= 50 then Good
      else Missed
  }

  /** The messages from best to worst: a higher accuracy never gets a worse message. */
  function MessageRank(m: Message): nat
  {
    match m
    case Perfect => 4
    case Excellent => 3
    case VeryGood => 2
    case Good => 1
    case Missed => 0
    case NoMessage => 0
  }

  lemma MessageMonotone(a: int, b: int)
    requires a <= b
    ensures MessageRank(AccuracyMessage(Some(a))) <= MessageRank(AccuracyMessage(Some(b)))
  {
  }

  /** Colour and message tell the same story: red exactly on a miss, and a perfect is always green. */
  lemma ColorAgreesWithMessage(accuracy: Option<int>)
    ensures AccuracyColor(accuracy) == Red <==> AccuracyMessage(accuracy) == Missed
    ensures AccuracyColor(accuracy) == Gray <==> AccuracyMessage(accuracy) == NoMessage
    ensures AccuracyMessage(accuracy) == Perfect ==> AccuracyColor(accuracy) == Green
    ensures AccuracyMessage(accuracy) in {VeryGood, Good} ==> AccuracyColor(accuracy) == Yellow
  {
  }

  /**
    What a press at distance d shows: red and "missed" exactly when it
    scores nothing, green whenever it scores 10.
  */
  lemma PressFeedback(d: real)
    requires d >= 0.0
    ensures AccuracyColor(Some(ShownAccuracy(d))) == Red <==> Points(d) == 0
    ensures AccuracyMessage(Some(ShownAccuracy(d))) == Missed <==> Points(d) == 0
    ensures Points(d) == 10 ==> AccuracyColor(Some(ShownAccuracy(d))) == Green
  {
  }

  /**
    Rounding blurs the zone border: a press just outside the perfect zone
    earns 5 points, yet its accuracy 89.6 is shown as 90, in green.
  */
  lemma BorderPressShowsGreen()
    ensures Points(20.2) == 5
    ensures Accuracy(20.2) == 89.6 && ShownAccuracy(20.2) == 90
    ensures AccuracyColor(Some(ShownAccuracy(20.2))) == Green
  {
  }

  // ---------------------------------------------------------------------
  // The marker (pure step)
  // ---------------------------------------------------------------------

  /** Strictly between the two turning points. */
  predicate OnTrack(position: real)
  {
    Margin < position < TrackWidth - Margin
  }

  /**
    The bounce step of `gameLoop`: move by direction times speed; when that
    reaches a turning point, flip the direction and move the other way.
  */
  function Bounce(position: real, direction: int, speed: real): (r: (real, int))
    ensures r.1 == direction || r.1 == -direction
    ensures r.0 == position + r.1 as real * speed
  {
    var tentative := position + direction as real * speed;
    if tentative <= Margin || tentative >= TrackWidth - Margin then
      (position + (-direction) as real * speed, -direction)
    else
      (tentative, direction)
  }

  /**
    A marker on the track stays on it, moves by exactly the speed and keeps
    a direction of +1 or -1; the direction flips exactly when the tentative
    step would have reached a turning point.
  */
  lemma BounceStaysOnTrack(position: real, direction: int, speed: real)
    requires OnTrack(position) && (direction == 1 || direction == -1)
    requires 0.0 < speed <= MaxSpeed
    ensures var r := Bounce(position, direction, speed);
            && OnTrack(r.0)
            && (r.1 == 1 || r.1 == -1)
            && (r.0 - position == speed || position - r.0 == speed)
            && r.0 - position == r.1 as real * speed
            && (r.1 == -direction <==> !OnTrack(position + direction as real * speed))
  {
  }

  // ---------------------------------------------------------------------
  // The page
  // ---------------------------------------------------------------------

  /** The attempt that brings the counter to a multiple of five speeds the marker up, up to 6. */
  function SpeedAfter(attempts: int, speed: real): (s: real)
    ensures (attempts + 1) % BumpEvery != 0 ==> s == speed
    ensures (attempts + 1) % BumpEvery == 0 ==> s <= MaxSpeed && (s == speed + SpeedBump || s == MaxSpeed)
    ensures (attempts + 1) % BumpEvery == 0 && speed < MaxSpeed ==> speed < s
    ensures speed <= MaxSpeed ==> speed <= s <= MaxSpeed
    ensures s <= speed + SpeedBump
  {
    if (attempts + 1) % BumpEvery == 0 then
      if speed + SpeedBump < MaxSpeed then speed + SpeedBump else MaxSpeed
    else speed
  }

  /** The marker's speed after n attempts of a round, each one stepping SpeedAfter from the start speed. */
  function SpeedAfterAttempts(n: nat): (s: real)
    ensures StartSpeed <= s <= MaxSpeed
  {
    if n == 0 then StartSpeed else SpeedAfter(n - 1, SpeedAfterAttempts(n - 1))
  }

  /**
    The speed schedule of a round: after n attempts the marker has been sped
    up once per completed group of five, by 0.3 each time, and never past 6.
  */
  lemma {:induction false} SpeedSchedule(n: nat)
    ensures var bumped := StartSpeed + SpeedBump * (n / BumpEvery) as real;
            SpeedAfterAttempts(n) == if bumped < MaxSpeed then bumped else MaxSpeed
  {
    if n > 0 {
      SpeedSchedule(n - 1);
      if n % BumpEvery == 0 {
        assert (n - 1) / BumpEvery == n / BumpEvery - 1;
      } else {
        assert (n - 1) / BumpEvery == n / BumpEvery;
      }
    }
  }

  class DianaGame {
    var gameStarted: bool
    var score: int
    var attempts: int
    var bestScore: int
    var lastHitAccuracy: Option<int>

    // gameStateRef.current; targetCenter and the zones are the constants above.
    var position: real
    var direction: int
    var speed: real

    ghost predicate Valid()
      reads this
    {
      && (direction == 1 || direction == -1)
      && StartSpeed <= speed <= MaxSpeed
      && attempts >= 0 && speed == SpeedAfterAttempts(attempts)
      && (gameStarted ==> OnTrack(position))
      && score >= 0 && bestScore >= 0
    }

    /** The page as first shown. */
    constructor ()
      ensures Valid()
      ensures !gameStarted && score == 0 && attempts == 0 && bestScore == 0 && lastHitAccuracy.None?
      ensures position == 0.0 && direction == 1 && speed == StartSpeed
    {
      gameStarted := false;
      score, attempts, bestScore := 0, 0, 0;
      lastHitAccuracy := None;
      position, direction, speed := 0.0, 1, StartSpeed;
    }

    /**
      One call of `gameLoop`: the bounce step while a game runs, nothing
      otherwise. `scheduled` says whether the next frame was requested, which
      is exactly while a game runs.
    */
    method Frame() returns (scheduled: bool)
      requires Valid()
      modifies this`position, this`direction
      ensures Valid()
      ensures scheduled == old(gameStarted)
      ensures old(gameStarted) ==> (position, direction) == Bounce(old(position), old(direction), speed)
      ensures !old(gameStarted) ==> position == old(position) && direction == old(direction)
    {
      if !gameStarted {
        return false;
      }
      scheduled := true;
      ghost var next := Bounce(position, direction, speed);
      assert OnTrack(next.0) && (next.1 == 1 || next.1 == -1) by {
        BounceStaysOnTrack(position, direction, speed);
      }
      var newPosition := position + direction as real * speed;
      var newDirection := direction;
      if newPosition <= Margin || newPosition >= TrackWidth - Margin {
        newDirection := -direction;
        newPosition := position + newDirection as real * speed;
      }
      assert (newPosition, newDirection) == next;
      position := newPosition;
      direction := newDirection;
    }

    /**
      `checkAccuracy`: scores the press at the current position, records the
      rounded accuracy, counts the attempt and speeds up on every fifth one.
    */
    method CheckAccuracy() returns (points: int)
      requires Valid()
      modifies this`score, this`attempts, this`lastHitAccuracy, this`speed
      ensures Valid()
      ensures points == Points(Distance(position))
      ensures lastHitAccuracy == Some(ShownAccuracy(Distance(position)))
      ensures score == old(score) + points && old(score) <= score
      ensures attempts == old(attempts) + 1
      ensures speed == SpeedAfter(old(attempts), old(speed))
    {
      var distance := Distance(position);
      points := 0;
      var accuracy := 0.0;
      if distance <= PerfectZone {
        points := 10;
        accuracy := 100.0 - (distance / PerfectZone) * 10.0;
      } else if distance <= GoodZone {
        points := 5;
        accuracy := 90.0 - ((distance - PerfectZone) / (GoodZone - PerfectZone)) * 40.0;
      }
      lastHitAccuracy := Some(Round(accuracy));
      score := score + points;
      if (attempts + 1) % BumpEvery == 0 {
        speed := if speed + SpeedBump < MaxSpeed then speed + SpeedBump else MaxSpeed;
      }
      attempts := attempts + 1;
    }

    /** `handleHit`: a press counts only while a game runs. */
    method Hit()
      requires Valid()
      modifies this`score, this`attempts, this`lastHitAccuracy, this`speed
      ensures Valid()
      ensures !old(gameStarted) ==> unchanged(this)
      ensures old(gameStarted) ==>
                && score == old(score) + Points(Distance(position))
                && lastHitAccuracy == Some(ShownAccuracy(Distance(position)))
                && attempts == old(attempts) + 1
                && speed == SpeedAfter(old(attempts), old(speed))
    {
      if gameStarted {
        var _ := CheckAccuracy();
      }
    }

    /** `startGame`: a new round with score and attempts at 0, the marker at the centre moving right at speed 2. */
    method StartGame()
      requires Valid()
      modifies this`gameStarted, this`score, this`attempts, this`lastHitAccuracy,
               this`position, this`direction, this`speed
      ensures Valid()
      ensures gameStarted && score == 0 && attempts == 0 && lastHitAccuracy.None?
      ensures position == StartPosition && direction == 1 && speed == StartSpeed
      ensures bestScore == old(bestScore)
    {
      gameStarted := true;
      score, attempts := 0, 0;
      lastHitAccuracy := None;
      position, direction, speed := StartPosition, 1, StartSpeed;
    }

    /** `stopGame`: ends the round and keeps the better of the best and the current score. */
    method StopGame()
      requires Valid()
      modifies this`gameStarted, this`bestScore
      ensures Valid()
      ensures !gameStarted
      ensures bestScore == (if old(score) > old(bestScore) then old(score) else old(bestScore))
      ensures old(bestScore) <= bestScore && score <= bestScore
    {
      gameStarted := false;
      if score > bestScore {
        bestScore := score;
      }
    }

    /** The space key (or a touch): starts a round when none runs, otherwise presses. */
    method PressSpace()
      requires Valid()
      modifies this`gameStarted, this`score, this`attempts, this`lastHitAccuracy,
               this`position, this`direction, this`speed
      ensures Valid()
      ensures !old(gameStarted) ==> && gameStarted && score == 0 && attempts == 0 && lastHitAccuracy.None?
                                    && position == StartPosition && direction == 1 && speed == StartSpeed
      ensures old(gameStarted) ==>
                && gameStarted && position == old(position) && direction == old(direction)
                && score == old(score) + Points(Distance(position))
                && lastHitAccuracy == Some(ShownAccuracy(Distance(position)))
                && attempts == old(attempts) + 1
                && speed == SpeedAfter(old(attempts), old(speed))
    {
      if !gameStarted {
        StartGame();
      } else {
        Hit();
      }
    }
  }
}

/**
  The pieces of the Dino Run engine that the paid ("hard page") and the free
  page share: the constants of the dino and of the obstacles, the obstacle
  record, the spacing invariant of the obstacle list, the gravity and speed
  steps as specification functions, the axis-aligned overlap test, and the two
  loops over the obstacle list (shift-and-cull, first overlap).

  Coordinates are those of the 800-pixel-wide canvas: x grows to the right and
  y grows downwards, so a jump makes y smaller. Times are integer milliseconds.
*/
module DinoRun {
  import opened Wrappers

  // The dino: a ball of radius 15 whose bounding box has its top-left corner
  // at (DinoX, y); it rests on the ground when y == GroundY.
  const DinoX: real := 50.0
  const DinoRadius: real := 15.0
  const GroundY: real := 150.0
  const Gravity: real := 0.3
  const JumpImpulse: real := -12.0

  // Obstacles: 25 wide, standing on the line y == 160, 30 to 70 high,
  // created at x == 800 and only when the newest one is more than 180 away.
  const SpawnX: real := 800.0
  const MinGap: real := 180.0
  const ObstacleWidth: real := 25.0
  const BaseLine: real := 160.0
  const MinHeight: real := 30.0
  const HeightRange: real := 40.0

  // Speed: starts at 3 and rises by 0.1 at most once every 5000 ms.
  const StartSpeed: real := 3.0
  const SpeedStep: real := 0.1
  const SpeedInterval: int := 5000

  /** `[2000, 3000, 4000]`, the delays one of which is drawn after a spawn. */
  const Delays: seq<int> := [2000, 3000, 4000]

  datatype Obstacle = Obstacle(x: real, y: real, width: real, height: real)

  predicate IsDelay(d: int) {
    d == 2000 || d == 3000 || d == 4000
  }

  /** The shape every spawned obstacle has; moving it left keeps it. */
  predicate WellFormed(o: Obstacle) {
    && o.width == ObstacleWidth
    && o.y + o.height == BaseLine
    && MinHeight <= o.height < MinHeight + HeightRange
  }

  predicate AllWellFormed(obs: seq<Obstacle>) {
    forall i :: 0 <= i < |obs| ==> WellFormed(obs[i])
  }

  /**
    The order invariant of the obstacle list: x strictly increases with the
    index, and any two obstacles are more than MinGap apart.
  */
  predicate Spaced(obs: seq<Obstacle>) {
    forall i, j :: 0 <= i < j < |obs| ==> obs[j].x - obs[i].x > MinGap
  }

  /**
    The spacing check of createObstacle: no obstacle yet, or the newest is
    more than MinGap left of SpawnX. On a spaced list, looking at the newest
    obstacle alone is the same as looking at all of them.
  */
  function HasDistance(obs: seq<Obstacle>): (b: bool)
    ensures Spaced(obs) ==> (b <==> forall i :: 0 <= i < |obs| ==> SpawnX - obs[i].x > MinGap)
  {
    obs == [] || SpawnX - obs[|obs| - 1].x > MinGap
  }

  /**
    The record `gameStateRef.current` of a Dino Run page (without the
    animation-frame id, and without the paid mode's time of the last bonus
    check, which that page keeps beside it).
  */
  datatype Engine = Engine(
    dinoY: real,
    dinoDy: real,
    obstacles: seq<Obstacle>,
    speed: real,
    lastObstacleTime: int,
    nextObstacleDelay: int,
    gameStartTime: int,
    lastSpeedIncreaseTime: int)

  /** What every step keeps of the record, for a mode whose speed cap is `cap`. */
  predicate EngineValid(e: Engine, cap: real) {
    && e.dinoY <= GroundY
    && StartSpeed <= e.speed <= cap
    && IsDelay(e.nextObstacleDelay)
    && AllWellFormed(e.obstacles)
    && Spaced(e.obstacles)
  }

  /** The record `startGame` installs at time now: dino at rest, no obstacle, speed 3, delay 2000, the timers at now. */
  function FreshEngine(now: int): (e: Engine)
    ensures forall cap :: cap >= StartSpeed ==> EngineValid(e, cap)
    ensures e.dinoY == GroundY && e.dinoDy == 0.0 && e.obstacles == [] && e.speed == StartSpeed
    ensures e.lastObstacleTime == now && e.nextObstacleDelay == Delays[0]
    ensures e.gameStartTime == now && e.lastSpeedIncreaseTime == now
  {
    Engine(GroundY, 0.0, [], StartSpeed, now, 2000, now, now)
  }

  // ---------------------------------------------------------------------------
  // Random draws. `Math.random()` is a parameter r with 0 <= r < 1.

  /** The obstacle createObstacle pushes: height r*40 + 30, standing on BaseLine at SpawnX. */
  function SpawnedObstacle(r: real): (o: Obstacle)
    requires 0.0 <= r < 1.0
    ensures WellFormed(o) && o.x == SpawnX && o.width == ObstacleWidth
    ensures o.y + o.height == BaseLine && MinHeight <= o.height < MinHeight + HeightRange
  {
    var height := r * HeightRange + MinHeight;
    Obstacle(SpawnX, BaseLine - height, ObstacleWidth, height)
  }

  /** `delays[Math.floor(Math.random() * delays.length)]`. */
  function DelayPick(r: real): (d: int)
    requires 0.0 <= r < 1.0
    ensures IsDelay(d)
    ensures r < 1.0 / 3.0 ==> d == 2000
    ensures 2.0 / 3.0 <= r ==> d == 4000
  {
    var k := (r * 3.0).Floor;
    assert 0 <= k < 3;
    Delays[k]
  }

  // ---------------------------------------------------------------------------
  // The dino.

  /**
    The gravity step of the frame: dy grows by Gravity, y moves by the new dy,
    and a dino that went below the ground is put back on it and stopped.
    Result: (y, dy) after the step.
  */
  function Fall(y: real, dy: real): (r: (real, real))
    ensures r.0 <= GroundY
    ensures y + dy + Gravity > GroundY ==> r.0 == GroundY && r.1 == 0.0
    ensures y + dy + Gravity <= GroundY ==> r.1 == dy + Gravity && r.0 == y + r.1
  {
    var dy' := dy + Gravity;
    var y' := y + dy';
    if y' > GroundY then (GroundY, 0.0) else (y', dy')
  }

  /** `jump`: the new dy, which is the jump impulse only when the dino is on the ground. */
  function Jumped(y: real, dy: real): (dy': real)
    ensures y == GroundY ==> dy' == JumpImpulse
    ensures y != GroundY ==> dy' == dy
  {
    if y == GroundY then JumpImpulse else dy
  }

  /** A dino resting on the ground stays there, frame after frame. */
  lemma RestingStaysOnGround()
    ensures Fall(GroundY, 0.0) == (GroundY, 0.0)
  {
  }

  /** A jump lifts the dino off the ground on the next frame, so it cannot jump again at once. */
  lemma JumpLeavesGround(dy: real)
    ensures Fall(GroundY, Jumped(GroundY, dy)).0 < GroundY
    ensures forall dy2 :: Jumped(Fall(GroundY, Jumped(GroundY, dy)).0, dy2) == dy2
  {
  }

  // ---------------------------------------------------------------------------
  // The speed ramp.

  function Min(a: real, b: real): real {
    if a <= b then a else b
  }

  function Max(a: real, b: real): real {
    if a <= b then b else a
  }

  /**
    `updateSpeed` with the given cap: when at least SpeedInterval ms have
    passed since the last increase and the speed is below the cap, the speed
    rises by SpeedStep, clamped to the cap, and the increase time becomes
    now; otherwise nothing changes. Result: (speed, lastSpeedIncreaseTime).
  */
  function SpeedRamp(speed: real, lastIncrease: int, now: int, cap: real): (r: (real, int))
    ensures now - lastIncrease >= SpeedInterval && speed < cap ==>
              r.1 == now && r.0 == Min(speed + SpeedStep, cap)
    ensures !(now - lastIncrease >= SpeedInterval && speed < cap) ==> r == (speed, lastIncrease)
  {
    if now - lastIncrease >= SpeedInterval && speed < cap then
      var s := speed + SpeedStep;
      (if s > cap then cap else s, now)
    else
      (speed, lastIncrease)
  }

  /**
    What the ramp promises: the speed never decreases, grows by at most one
    step, never passes the cap from below, and changes only together with the
    increase time, which then moves at least SpeedInterval forward.
  */
  lemma SpeedRampBounds(speed: real, lastIncrease: int, now: int, cap: real)
    ensures var r := SpeedRamp(speed, lastIncrease, now, cap);
      && speed <= r.0 <= speed + SpeedStep
      && r.0 <= Max(speed, cap)
      && (speed <= cap ==> r.0 <= cap)
      && (r.0 != speed ==> r.1 == now && now - lastIncrease >= SpeedInterval)
      && (r.1 != lastIncrease ==> now - lastIncrease >= SpeedInterval)
  {
  }

  // ---------------------------------------------------------------------------
  // Collision: the dino's box [DinoX, DinoX + 2r] x [y, y + 2r] against an obstacle's box.

  /** v lies strictly between lo and hi. */
  predicate InSpan(v: real, lo: real, hi: real) {
    lo < v < hi
  }

  /** The open intervals (lo1, hi1) and (lo2, hi2) have a point in common. */
  ghost predicate SpansMeet(lo1: real, hi1: real, lo2: real, hi2: real) {
    exists v :: InSpan(v, lo1, hi1) && InSpan(v, lo2, hi2)
  }

  /** Two non-empty open intervals meet exactly when each starts before the other ends. */
  lemma SpansMeetIff(lo1: real, hi1: real, lo2: real, hi2: real)
    requires lo1 < hi1 && lo2 < hi2
    ensures SpansMeet(lo1, hi1, lo2, hi2) <==> lo1 < hi2 && lo2 < hi1
  {
    if lo1 < hi2 && lo2 < hi1 {
      var lo := if lo1 < lo2 then lo2 else lo1;
      var hi := if hi1 < hi2 then hi1 else hi2;
      assert InSpan((lo + hi) / 2.0, lo1, hi1) && InSpan((lo + hi) / 2.0, lo2, hi2);
    }
  }

  /**
    The four comparisons of detectCollision. For a well-formed obstacle they
    hold exactly when the two boxes share an interior point: they meet on the
    x axis and on the y axis.
  */
  function Overlaps(o: Obstacle, dinoY: real): (b: bool)
    ensures WellFormed(o) ==>
              (b <==> && SpansMeet(DinoX, DinoX + DinoRadius * 2.0, o.x, o.x + o.width)
                      && SpansMeet(dinoY, dinoY + DinoRadius * 2.0, o.y, o.y + o.height))
  {
    var b := && DinoX < o.x + o.width
             && DinoX + DinoRadius * 2.0 > o.x
             && dinoY < o.y + o.height
             && dinoY + DinoRadius * 2.0 > o.y;
    if WellFormed(o) then
      SpansMeetIff(DinoX, DinoX + DinoRadius * 2.0, o.x, o.x + o.width);
      SpansMeetIff(dinoY, dinoY + DinoRadius * 2.0, o.y, o.y + o.height);
      b
    else
      b
  }

  predicate AnyOverlap(obs: seq<Obstacle>, dinoY: real) {
    exists j :: 0 <= j < |obs| && Overlaps(obs[j], dinoY)
  }

  /** k is the index of the first obstacle overlapping the dino. */
  predicate IsFirstOverlap(obs: seq<Obstacle>, dinoY: real, k: nat) {
    && k < |obs|
    && Overlaps(obs[k], dinoY)
    && forall j :: 0 <= j < k ==> !Overlaps(obs[j], dinoY)
  }

  /** The `for…of` scan of detectCollision: the first overlapping obstacle, if any. */
  method FirstOverlap(obs: seq<Obstacle>, dinoY: real) returns (hit: Option<nat>)
    ensures hit.Some? ==> IsFirstOverlap(obs, dinoY, hit.value)
    ensures hit.None? <==> !AnyOverlap(obs, dinoY)
  {
    var k := 0;
    while k < |obs|
      invariant 0 <= k <= |obs|
      invariant forall j :: 0 <= j < k ==> !Overlaps(obs[j], dinoY)
    {
      if Overlaps(obs[k], dinoY) {
        return Some(k);
      }
      k := k + 1;
    }
    return None;
  }

  /** A dino standing on the ground hits an obstacle exactly when their x-ranges overlap. */
  lemma GroundedHitIsHorizontal(o: Obstacle)
    requires WellFormed(o)
    ensures Overlaps(o, GroundY) <==> DinoX < o.x + o.width && DinoX + DinoRadius * 2.0 > o.x
  {
  }

  /** A dino more than 70 above the base line never hits a well-formed obstacle. */
  lemma HighDinoIsSafe(o: Obstacle, dinoY: real)
    requires WellFormed(o)
    requires dinoY + DinoRadius * 2.0 <= BaseLine - (MinHeight + HeightRange)
    ensures !Overlaps(o, dinoY)
  {
  }

  // ---------------------------------------------------------------------------
  // Moving the obstacles.

  function Shift(o: Obstacle, speed: real): (o': Obstacle)
    ensures o'.x == o.x - speed && o'.y == o.y && o'.width == o.width && o'.height == o.height
  {
    o.(x := o.x - speed)
  }

  /** An obstacle whose right edge has left the canvas (the test `obstacle.x < -obstacle.width`). */
  function OffScreen(o: Obstacle): (b: bool)
    ensures b <==> o.x + o.width < 0.0
  {
    o.x < -o.width
  }

  /** Once off screen, an obstacle moved further left stays off screen. */
  lemma OffScreenStays(o: Obstacle, speed: real)
    requires speed >= 0.0
    ensures OffScreen(o) ==> OffScreen(Shift(o, speed))
  {
  }

  /** Every obstacle moved left by speed (before any is removed). */
  function ShiftAll(obs: seq<Obstacle>, speed: real): (r: seq<Obstacle>)
    ensures |r| == |obs|
    ensures forall i :: 0 <= i < |obs| ==> r[i] == Shift(obs[i], speed)
  {
    seq(|obs|, i requires 0 <= i < |obs| => Shift(obs[i], speed))
  }

  /**
    The list updateObstacles leaves: each obstacle moved left by speed, those
    that went off screen dropped, the others in their original order.
  */
  function Survivors(obs: seq<Obstacle>, speed: real): (r: seq<Obstacle>)
    ensures |r| <= |obs|
    ensures forall k :: 0 <= k < |r| ==> !OffScreen(r[k])
  {
    if obs == [] then []
    else
      var o := Shift(obs[0], speed);
      (if OffScreen(o) then [] else [o]) + Survivors(obs[1..], speed)
  }

  /**
    The backward loop of updateObstacles: moves every obstacle, splices out
    those that went off screen, and counts them (one point each).
  */
  method ShiftAndCull(obs: seq<Obstacle>, speed: real) returns (kept: seq<Obstacle>, removed: nat)
    ensures kept == Survivors(obs, speed)
    ensures removed == |obs| - |kept|
  {
    kept, removed := obs, 0;
    var i := |obs|;
    while i > 0
      invariant 0 <= i <= |obs|
      invariant kept == obs[..i] + Survivors(obs[i..], speed)
      invariant removed == (|obs| - i) - |Survivors(obs[i..], speed)|
    {
      i := i - 1;
      assert obs[i..][1..] == obs[i + 1..];
      var o := Shift(kept[i], speed);
      if OffScreen(o) {
        kept := kept[..i] + kept[i + 1..];
        removed := removed + 1;
      } else {
        kept := kept[..i] + [o] + kept[i + 1..];
      }
      assert obs[..i + 1][..i] == obs[..i];
    }
    assert obs[0..] == obs;
  }

  /** An obstacle is kept exactly when its moved copy is still on screen. */
  lemma {:induction false} SurvivorsMembership(obs: seq<Obstacle>, speed: real, o: Obstacle)
    ensures o in Survivors(obs, speed) <==> o in ShiftAll(obs, speed) && !OffScreen(o)
  {
    if obs != [] {
      SurvivorsMembership(obs[1..], speed, o);
      assert ShiftAll(obs, speed) == [Shift(obs[0], speed)] + ShiftAll(obs[1..], speed);
    }
  }

  /**
    On a spaced list of well-formed obstacles, the removed ones are exactly a
    prefix: updateObstacles drops the oldest obstacles and keeps the rest.
  */
  lemma {:induction false} CulledArePrefix(obs: seq<Obstacle>, speed: real)
    requires Spaced(obs) && AllWellFormed(obs)
    ensures Survivors(obs, speed) == ShiftAll(obs, speed)[|obs| - |Survivors(obs, speed)|..]
  {
    if obs != [] {
      var o := Shift(obs[0], speed);
      assert ShiftAll(obs, speed)[1..] == ShiftAll(obs[1..], speed);
      if OffScreen(o) {
        CulledArePrefix(obs[1..], speed);
      } else {
        NoneCulledAfter(obs, speed);
      }
    }
  }

  /** Helper of CulledArePrefix: if the first obstacle stays, they all stay. */
  lemma {:induction false} NoneCulledAfter(obs: seq<Obstacle>, speed: real)
    requires Spaced(obs) && AllWellFormed(obs)
    requires obs != [] && !OffScreen(Shift(obs[0], speed))
    ensures Survivors(obs, speed) == ShiftAll(obs, speed)
  {
    if |obs| == 1 {
      assert obs[1..] == [];
    } else {
      assert obs[1] == obs[1..][0];
      NoneCulledAfter(obs[1..], speed);
      assert ShiftAll(obs, speed) == [Shift(obs[0], speed)] + ShiftAll(obs[1..], speed);
    }
  }

  // ---------------------------------------------------------------------------
  // The spacing invariant is kept by every change the engine makes to the list.

  /** A spawn at SpawnX after the spacing check keeps the list spaced. */
  lemma SpawnKeepsSpaced(obs: seq<Obstacle>, r: real)
    requires 0.0 <= r < 1.0
    requires Spaced(obs) && HasDistance(obs)
    ensures Spaced(obs + [SpawnedObstacle(r)])
  {
    var s := obs + [SpawnedObstacle(r)];
    forall i, j | 0 <= i < j < |s|
      ensures s[j].x - s[i].x > MinGap
    {
      if j == |obs| && i < |obs| - 1 {
        assert obs[|obs| - 1].x - obs[i].x > MinGap;
      }
    }
  }

  /** Moving every obstacle by the same amount keeps the list spaced and well formed. */
  lemma ShiftKeepsSpaced(obs: seq<Obstacle>, speed: real)
    requires Spaced(obs) && AllWellFormed(obs)
    ensures Spaced(ShiftAll(obs, speed)) && AllWellFormed(ShiftAll(obs, speed))
  {
    var s := ShiftAll(obs, speed);
    forall i, j | 0 <= i < j < |s|
      ensures s[j].x - s[i].x > MinGap
    {
      assert obs[j].x - obs[i].x > MinGap;
    }
  }

  /** updateObstacles keeps the list spaced and well formed. */
  lemma SurvivorsKeepSpaced(obs: seq<Obstacle>, speed: real)
    requires Spaced(obs) && AllWellFormed(obs)
    ensures Spaced(Survivors(obs, speed)) && AllWellFormed(Survivors(obs, speed))
  {
    CulledArePrefix(obs, speed);
    ShiftKeepsSpaced(obs, speed);
    var all := ShiftAll(obs, speed);
    var c := |obs| - |Survivors(obs, speed)|;
    var s := all[c..];
    forall i, j | 0 <= i < j < |s|
      ensures s[j].x - s[i].x > MinGap
    {
      assert s[i] == all[c + i] && s[j] == all[c + j];
    }
  }

  /** The list with the obstacle at index k spliced out (`splice(k, 1)`). */
  function Without(obs: seq<Obstacle>, k: nat): (r: seq<Obstacle>)
    requires k < |obs|
    ensures |r| == |obs| - 1
    ensures forall i :: 0 <= i < |r| ==> r[i] == obs[if i < k then i else i + 1]
  {
    obs[..k] + obs[k + 1..]
  }

  /** Splicing one obstacle out (the collided one, in the paid mode) keeps the list spaced and well formed. */
  lemma RemoveKeepsSpaced(obs: seq<Obstacle>, k: nat)
    requires k < |obs|
    requires Spaced(obs) && AllWellFormed(obs)
    ensures Spaced(Without(obs, k)) && AllWellFormed(Without(obs, k))
  {
    var s := Without(obs, k);
    forall i, j | 0 <= i < j < |s|
      ensures s[j].x - s[i].x > MinGap
    {
      var i' := if i < k then i else i + 1;
      var j' := if j < k then j else j + 1;
      assert s[i] == obs[i'] && s[j] == obs[j'];
    }
  }
}

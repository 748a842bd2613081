/** Car kinematics of traffic2.py (Car.__init__ and Car.move) on values.
    The class Cars.Car is proved against these functions. */
module Kinematics {
  import opened Types
  import opened Config

  /** Everything a car object holds: its fixed draws and its changing state. */
  datatype CarState = CarState(
    intention: Intention,
    acceleration: real,
    topSpeed: real,
    safeD: real,
    arrivalTime: real,
    location: real,
    speed: real,
    react: real,
    throughTime: Option<real>,
    duration: Option<real>)

  datatype Placement = Placement(location: real, speed: real)

  /** Distance behind a car at frontLoc that a car with time-gap safeD keeps at speed v. */
  function SafeDistance(frontLoc: real, safeD: real, v: real): real
  {
    frontLoc + CarLength + safeD * v
  }

  /** Where a new car appears: at DefaultStart at its top speed, unless that is inside the
      safety envelope of the car in front, in which case it is pushed back and takes the
      front car's speed. */
  function Spawn(frontLoc: real, frontSpeed: real, safeD: real, topSpeed: real): (p: Placement)
    ensures p.location >= DefaultStart
    ensures p.location >= SafeDistance(frontLoc, safeD, topSpeed)
    ensures p.location == DefaultStart || p.location == SafeDistance(frontLoc, safeD, topSpeed)
    ensures p.speed == if p.location > DefaultStart then frontSpeed else topSpeed
  {
    var safeDist := SafeDistance(frontLoc, safeD, topSpeed);
    if safeDist > DefaultStart then Placement(safeDist, frontSpeed) else Placement(DefaultStart, topSpeed)
  }

  /** The car Car.__init__ builds from its draws, at time now. */
  function NewCar(frontLoc: real, frontSpeed: real, intention: Intention, now: real, a: Arrival): (c: CarState)
    ensures c.location >= DefaultStart
    ensures c.location >= SafeDistance(frontLoc, a.safeD, a.topSpeed)
    ensures c.intention == intention && c.arrivalTime == now
    ensures c.throughTime == None && c.duration == None
    ensures c.speed == if c.location > DefaultStart then frontSpeed else a.topSpeed
  {
    var p := Spawn(frontLoc, frontSpeed, a.safeD, a.topSpeed);
    CarState(intention, a.acceleration, a.topSpeed, a.safeD, now, p.location, p.speed, a.react, None, None)
  }

  /** The three things a car can do in a tick once it has reacted. Coast (neither speed
      nor location changes) is what a right-turning car does under a light its branch
      does not name. */
  datatype Action = Accel | Decel | Coast

  /** The intention-by-light decision of Car.move. The second disjunct of each light test
      is the source's own, and is dead: it repeats the first test under a conjunction. */
  function Decide(intention: Intention, light: Light, startSpeed: real, location: real,
                  timeToChange: real, gaps: Gaps): (a: Action)
    requires intention == RightTurn && light == GreenArrow ==> gaps.oncomingLeftTurn.Some?
    ensures intention == Straight ==> a == (if light == Green then Accel else Decel)
    ensures intention == LeftTurn && light == GreenArrow ==> a == Accel
    ensures intention == LeftTurn && light == Green ==>
      a == (if gaps.oncoming > SafeTurningGap then Accel else Decel)
    ensures intention == LeftTurn && light != Green && light != GreenArrow ==> a == Decel
    ensures intention == RightTurn && light == Green ==> a == Accel
    ensures intention == RightTurn && light == Red ==>
      a == (if gaps.lToR > SafeTurningGap then Accel else Decel)
    ensures intention == RightTurn && light == GreenArrow ==>
      a == (if gaps.oncomingLeftTurn.value > SafeTurningGap then Accel else Decel)
    ensures a == Coast <==> intention == RightTurn && light == Red2
  {
    match intention
    case Straight =>
      if light == Green || (light == Green && startSpeed * timeToChange > location) then Accel
      else Decel
    case LeftTurn =>
      if light == GreenArrow || (light == GreenArrow && startSpeed * timeToChange > location) then Accel
      else if light == Green || (light == Green && startSpeed * timeToChange > location) then
        (if gaps.oncoming > SafeTurningGap then Accel else Decel)
      else Decel
    case RightTurn =>
      if light == Green || (light == Green && startSpeed * timeToChange > location) then Accel
      else if light == Red then
        (if gaps.lToR > SafeTurningGap then Accel else Decel)
      else if light == GreenArrow then
        (if gaps.oncomingLeftTurn.value > SafeTurningGap then Accel else Decel)
      else Coast
  }

  /** Distance covered in chunk seconds while the speed changes linearly from u to v. */
  function Travel(u: real, v: real, chunk: real): (d: real)
    ensures u >= 0.0 && v >= 0.0 && chunk >= 0.0 ==> d >= 0.0
  {
    (u + v) / 2.0 * chunk
  }

  /** The accelerate branch: speed rises by chunk * acceleration, capped at the top speed,
      and the location falls by the trapezoidal distance. */
  function SpeedUp(c: CarState, chunk: real): (r: CarState)
    ensures r.speed <= c.topSpeed && r.speed <= c.speed + chunk * c.acceleration
    ensures r.speed == c.topSpeed || r.speed == c.speed + chunk * c.acceleration
    ensures c.location - r.location == Travel(c.speed, r.speed, chunk)
    ensures r == c.(speed := r.speed, location := r.location)
  {
    var v := c.speed + chunk * c.acceleration;
    var capped := if c.topSpeed <= v then c.topSpeed else v;
    c.(speed := capped, location := c.location - Travel(c.speed, capped, chunk))
  }

  /** The constant deceleration that takes a car from speed to rest over the distance to
      location 1 (v^2 = u^2 + 2as with v = 0); never positive while the car is short of it. */
  function Deceleration(speed: real, location: real): (a: real)
    requires location != 1.0
    ensures speed * speed + 2.0 * a * (location - 1.0) == 0.0
    ensures location > 1.0 ==> a <= 0.0
  {
    var n := 0.0 - speed * speed;
    var d := 2.0 * (location - 1.0);
    assert n <= 0.0 by { assert speed * speed >= 0.0; }
    assert (n / d) * d == n;
    n / d
  }

  /** The decelerate branch: that deceleration applied for one chunk, the speed kept
      non-negative, the location lowered by the trapezoidal distance. */
  function SlowDown(c: CarState, chunk: real): (r: CarState)
    requires c.location != 1.0
    ensures r.speed >= 0.0
    ensures c.location - r.location == Travel(c.speed, r.speed, chunk)
    ensures r == c.(speed := r.speed, location := r.location)
  {
    var v0 := c.speed + Deceleration(c.speed, c.location) * chunk;
    var v := if v0 >= 0.0 then v0 else 0.0;
    c.(speed := v, location := c.location - Travel(c.speed, v, chunk))
  }

  function Drive(c: CarState, chunk: real, a: Action): (r: CarState)
    requires a == Decel ==> c.location != 1.0
  {
    match a
    case Accel => SpeedUp(c, chunk)
    case Decel => SlowDown(c, chunk)
    case Coast => c
  }

  /** The final safety check of Car.move: a car inside the envelope of the car in front is
      put exactly at its edge, at the front car's speed. */
  function Clamp(c: CarState, frontLoc: real, frontSpeed: real): (r: CarState)
    ensures r.location >= SafeDistance(frontLoc, r.safeD, r.speed)
    ensures SafeDistance(frontLoc, c.safeD, c.speed) > c.location ==>
      r == c.(speed := frontSpeed, location := SafeDistance(frontLoc, c.safeD, frontSpeed))
    ensures SafeDistance(frontLoc, c.safeD, c.speed) <= c.location ==> r == c
  {
    if SafeDistance(frontLoc, c.safeD, c.speed) > c.location then
      c.(speed := frontSpeed, location := SafeDistance(frontLoc, c.safeD, frontSpeed))
    else c
  }

  /** A stopped car stays put when the car in front is within one car length and stopped. */
  predicate Blocked(c: CarState, frontLoc: real, frontSpeed: real)
  {
    c.speed == 0.0 && frontLoc >= c.location - CarLength && frontSpeed == 0.0
  }

  /** True when Car.move runs to its end rather than taking one of its early returns. */
  predicate Reacts(c: CarState, chunk: real, frontLoc: real, frontSpeed: real)
  {
    !Blocked(c, frontLoc, frontSpeed) && !(c.speed == 0.0 && c.react - chunk > 0.0)
  }

  /** One call of Car.move. newReact is the reaction time the source re-draws when a
      stopped car's reaction countdown runs out. */
  function Step(c: CarState, chunk: real, frontLoc: real, frontSpeed: real, light: Light,
                timeToChange: real, gaps: Gaps, newReact: real): (r: CarState)
    requires c.location != 1.0
    requires c.intention == RightTurn && light == GreenArrow ==> gaps.oncomingLeftTurn.Some?
    ensures Reacts(c, chunk, frontLoc, frontSpeed) ==>
      r.location >= SafeDistance(frontLoc, r.safeD, r.speed)
    ensures Blocked(c, frontLoc, frontSpeed) ==> r == c
    ensures !Blocked(c, frontLoc, frontSpeed) && c.speed == 0.0 && c.react - chunk > 0.0 ==>
      r == c.(react := c.react - chunk)
    ensures r.intention == c.intention && r.acceleration == c.acceleration
    ensures r.topSpeed == c.topSpeed && r.safeD == c.safeD && r.arrivalTime == c.arrivalTime
    ensures r.throughTime == c.throughTime && r.duration == c.duration
  {
    if Blocked(c, frontLoc, frontSpeed) then c
    else if c.speed == 0.0 && c.react - chunk > 0.0 then c.(react := c.react - chunk)
    else
      var reacted := if c.speed == 0.0 then c.(react := newReact) else c;
      var a := Decide(c.intention, light, c.speed, c.location, timeToChange, gaps);
      Clamp(Drive(reacted, chunk, a), frontLoc, frontSpeed)
  }

  /** The position and speed a reacting car reaches before the safety clamp. */
  function Unclamped(c: CarState, chunk: real, light: Light, timeToChange: real,
                     gaps: Gaps, newReact: real): (r: CarState)
    requires c.location != 1.0
    requires c.intention == RightTurn && light == GreenArrow ==> gaps.oncomingLeftTurn.Some?
  {
    var reacted := if c.speed == 0.0 then c.(react := newReact) else c;
    Drive(reacted, chunk, Decide(c.intention, light, c.speed, c.location, timeToChange, gaps))
  }

  /** Step is the unclamped move followed by the clamp, whenever the car reacts. */
  lemma StepIsClampedMove(c: CarState, chunk: real, frontLoc: real, frontSpeed: real, light: Light,
                          timeToChange: real, gaps: Gaps, newReact: real)
    requires c.location != 1.0
    requires c.intention == RightTurn && light == GreenArrow ==> gaps.oncomingLeftTurn.Some?
    requires Reacts(c, chunk, frontLoc, frontSpeed)
    ensures Step(c, chunk, frontLoc, frontSpeed, light, timeToChange, gaps, newReact)
         == Clamp(Unclamped(c, chunk, light, timeToChange, gaps, newReact), frontLoc, frontSpeed)
  {
  }

  /** Accelerate branch: the new speed is min(top speed, start speed + chunk * acceleration)
      and the car advances by exactly the trapezoidal distance. */
  lemma AccelerateBranch(c: CarState, chunk: real, light: Light, timeToChange: real,
                         gaps: Gaps, newReact: real)
    requires c.location != 1.0
    requires c.intention == RightTurn && light == GreenArrow ==> gaps.oncomingLeftTurn.Some?
    requires Decide(c.intention, light, c.speed, c.location, timeToChange, gaps) == Accel
    ensures var r := Unclamped(c, chunk, light, timeToChange, gaps, newReact);
      r.speed == (if c.topSpeed <= c.speed + chunk * c.acceleration then c.topSpeed
                  else c.speed + chunk * c.acceleration)
      && r.speed <= c.topSpeed
      && c.location - r.location == (c.speed + r.speed) / 2.0 * chunk
  {
  }

  /** Decelerate branch: approaching the line (location > 1) with a non-negative speed and
      a non-negative chunk, the new speed lies in [0, start speed] and the car does not move
      back. */
  lemma BrakeBranch(c: CarState, chunk: real, light: Light, timeToChange: real,
                    gaps: Gaps, newReact: real)
    requires c.location > 1.0 && c.speed >= 0.0 && chunk >= 0.0
    requires c.intention == RightTurn && light == GreenArrow ==> gaps.oncomingLeftTurn.Some?
    requires Decide(c.intention, light, c.speed, c.location, timeToChange, gaps) == Decel
    ensures var r := Unclamped(c, chunk, light, timeToChange, gaps, newReact);
      0.0 <= r.speed <= c.speed && r.location <= c.location
  {
    var decel := Deceleration(c.speed, c.location);
    assert decel * chunk <= 0.0;
  }

  /** A right-turning car under the arrow-to-green red keeps its speed and location until
      the clamp. */
  lemma CoastBranch(c: CarState, chunk: real, timeToChange: real, gaps: Gaps, newReact: real)
    requires c.location != 1.0 && c.intention == RightTurn
    ensures var r := Unclamped(c, chunk, Red2, timeToChange, gaps, newReact);
      r.speed == c.speed && r.location == c.location
  {
  }
}

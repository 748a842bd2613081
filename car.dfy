/** The Car class of traffic2.py: fixed draws as constants, the moving state as fields
    that Move updates in place. */
module Cars {
  import opened Types
  import opened Config
  import opened Kinematics

  class Car {
    const intention: Intention
    const acceleration: real
    const topSpeed: real
    const safeD: real
    const arrivalTime: real
    var location: real
    var speed: real
    var react: real
    var throughTime: Option<real>
    var duration: Option<real>

    /** The value this object currently holds. */
    function State(): CarState
      reads this
    {
      CarState(intention, acceleration, topSpeed, safeD, arrivalTime,
               location, speed, react, throughTime, duration)
    }

    /** Car.__init__: the car behind the one at (frontLoc, frontSpeed), created at time now. */
    constructor (frontLoc: real, frontSpeed: real, intention: Intention, now: real, draw: Arrival)
      ensures State() == NewCar(frontLoc, frontSpeed, intention, now, draw)
    {
      this.intention := intention;
      location := DefaultStart;
      acceleration := draw.acceleration;
      topSpeed := draw.topSpeed;
      safeD := draw.safeD;
      speed := draw.topSpeed;
      react := draw.react;
      arrivalTime := now;
      throughTime := None;
      duration := None;
      new;
      var safeDist := SafeDistance(frontLoc, safeD, speed);
      if safeDist > location {
        location := safeDist;
        speed := frontSpeed;
      }
    }

    method Accelerate(chunk: real, startSpeed: real)
      requires startSpeed == speed
      modifies this
      ensures State() == SpeedUp(old(State()), chunk)
    {
      var v := speed + chunk * acceleration;
      speed := if topSpeed <= v then topSpeed else v;
      location := location - Travel(startSpeed, speed, chunk);
    }

    method Decelerate(chunk: real, startSpeed: real)
      requires startSpeed == speed && location != 1.0
      modifies this
      ensures State() == SlowDown(old(State()), chunk)
    {
      var decel := Deceleration(speed, location);
      speed := speed + decel * chunk;
      speed := if speed >= 0.0 then speed else 0.0;
      location := location - Travel(startSpeed, speed, chunk);
    }

    /** The intention-by-light part of Car.move, applied to a car that reacts this tick. */
    method Respond(chunk: real, startSpeed: real, light: Light, timeToChange: real, gaps: Gaps)
      requires startSpeed == speed && location != 1.0
      requires intention == RightTurn && light == GreenArrow ==> gaps.oncomingLeftTurn.Some?
      modifies this
      ensures State() == Drive(old(State()), chunk, Decide(intention, light, startSpeed, old(location), timeToChange, gaps))
    {
      match intention {
      case Straight =>
        if light == Green || (light == Green && startSpeed * timeToChange > location) {
          Accelerate(chunk, startSpeed);
        } else {
          Decelerate(chunk, startSpeed);
        }
      case LeftTurn =>
        if light == GreenArrow || (light == GreenArrow && startSpeed * timeToChange > location) {
          Accelerate(chunk, startSpeed);
        } else if light == Green || (light == Green && startSpeed * timeToChange > location) {
          if gaps.oncoming > SafeTurningGap {
            Accelerate(chunk, startSpeed);
          } else {
            Decelerate(chunk, startSpeed);
          }
        } else {
          Decelerate(chunk, startSpeed);
        }
      case RightTurn =>
        if light == Green || (light == Green && startSpeed * timeToChange > location) {
          Accelerate(chunk, startSpeed);
        } else if light == Red {
          if gaps.lToR > SafeTurningGap {
            Accelerate(chunk, startSpeed);
          } else {
            Decelerate(chunk, startSpeed);
          }
        } else if light == GreenArrow {
          if gaps.oncomingLeftTurn.value > SafeTurningGap {
            Accelerate(chunk, startSpeed);
          } else {
            Decelerate(chunk, startSpeed);
          }
        }
      }
    }

    /** Car.move: one tick of this car behind a car at (frontLoc, frontSpeed). */
    method Move(chunk: real, frontLoc: real, frontSpeed: real, light: Light, timeToChange: real,
                gaps: Gaps, newReact: real)
      requires location != 1.0
      requires intention == RightTurn && light == GreenArrow ==> gaps.oncomingLeftTurn.Some?
      modifies this
      ensures State() == Step(old(State()), chunk, frontLoc, frontSpeed, light, timeToChange, gaps, newReact)
    {
      var startSpeed := speed;
      if startSpeed == 0.0 {
        if frontLoc >= location - CarLength && frontSpeed == 0.0 {
          return;
        }
        react := react - chunk;
        if react > 0.0 {
          return;
        } else {
          react := newReact;
        }
      }
      Respond(chunk, startSpeed, light, timeToChange, gaps);
      var safeDist := SafeDistance(frontLoc, safeD, speed);
      if safeDist > location {
        speed := frontSpeed;
        location := SafeDistance(frontLoc, safeD, speed);
      }
    }
  }

  /** The values held by a sequence of cars, in order. */
  function States(cs: seq<Car>): (r: seq<CarState>)
    reads cs
    ensures |r| == |cs|
    ensures forall k {:trigger r[k]} :: 0 <= k < |cs| ==> r[k] == cs[k].State()
  {
    seq(|cs|, k requires 0 <= k < |cs| reads cs => cs[k].State())
  }

  lemma StatesAppend(cs: seq<Car>, c: Car)
    ensures States(cs + [c]) == States(cs) + [c.State()]
  {
    assert forall k :: 0 <= k < |cs| ==> (cs + [c])[k] == cs[k];
  }
}

/** The traffic-light state machine at the end of Lane.run_chunk, on values. */
module Lights {
  import opened Types
  import opened Config
  import opened Kinematics
  import opened Queue

  datatype Signal = Signal(light: Light, timeToChange: real)

  /** One transition of the left-turn cycle red -> green arrow -> red2 -> green -> red,
      with the time each new phase lasts. */
  function LeftTurnNext(light: Light): (s: Signal)
    ensures s.light != light
    ensures s.timeToChange > 0.0
  {
    match light
    case Red => Signal(GreenArrow, GreenArrowT)
    case GreenArrow => Signal(Red2, ChangeLag)
    case Red2 => Signal(Green, GreenArrowT)
    case Green => Signal(Red, GreenT + ChangeLag)
  }

  /** The left-turn cycle visits its four phases in order and closes after four steps. */
  lemma LeftTurnCycle(light: Light)
    ensures LeftTurnNext(LeftTurnNext(LeftTurnNext(LeftTurnNext(light).light).light).light).light == light
    ensures LeftTurnNext(Red).light == GreenArrow && LeftTurnNext(GreenArrow).light == Red2
    ensures LeftTurnNext(Red2).light == Green && LeftTurnNext(Green).light == Red
  {
  }

  /** The light update of run_chunk. timeToChange has already been lowered by one chunk.
      Entering a green phase (red -> green arrow and red2 -> green in a left-turn lane,
      red -> green in a straight lane) re-draws the reaction time of the first stationary
      car. A left-turn lane changes only when the countdown has run out; a straight lane has
      no such test, so it flips on every call. */
  function LightStep(laneType: LaneType, light: Light, timeToChange: real,
                     cars: seq<CarState>, sample: real): (r: (Signal, seq<CarState>))
  {
    match laneType
    case LeftTurnLane =>
      if timeToChange <= 0.0 then
        match light
        case Red => (Signal(GreenArrow, GreenArrowT), Restart(cars, sample))
        case GreenArrow => (Signal(Red2, ChangeLag), cars)
        case Red2 => (Signal(Green, GreenArrowT), Restart(cars, sample))
        case Green => (Signal(Red, GreenT + ChangeLag), cars)
      else (Signal(light, timeToChange), cars)
    case StraightLane =>
      match light
      case Red => (Signal(Green, GreenT), Restart(cars, sample))
      case Green => (Signal(Red, GreenT + ChangeLag + GreenArrowT + ChangeLag), cars)
      case _ => (Signal(light, timeToChange), cars)
  }

  /** The transition table of the light update. */
  lemma LightStepTable(laneType: LaneType, light: Light, timeToChange: real,
                       cars: seq<CarState>, sample: real)
    ensures var r := LightStep(laneType, light, timeToChange, cars, sample);
      (laneType == LeftTurnLane && timeToChange > 0.0 ==> r == (Signal(light, timeToChange), cars))
      && (laneType == LeftTurnLane && timeToChange <= 0.0 ==> r.0 == LeftTurnNext(light) && r.1 == (if light == Red || light == Red2 then Restart(cars, sample) else cars))
      && (laneType == StraightLane && light == Red ==> r == (Signal(Green, GreenT), Restart(cars, sample)))
      && (laneType == StraightLane && light == Green ==> r == (Signal(Red, GreenT + ChangeLag + GreenArrowT + ChangeLag), cars))
      && (laneType == StraightLane && (light == Red || light == Green) ==> r.0.light != light && (r.0.light == Red || r.0.light == Green))
      && (laneType == StraightLane && light != Red && light != Green ==> r == (Signal(light, timeToChange), cars))
  {
  }

  /** The light update changes no car but the first stationary one, and only its reaction
      time: every car keeps its place and speed. */
  lemma LightStepMovesNoCar(laneType: LaneType, light: Light, timeToChange: real,
                            cars: seq<CarState>, sample: real, j: nat)
    requires j < |cars|
    ensures var r := LightStep(laneType, light, timeToChange, cars, sample).1;
      |r| == |cars| && r[j] == cars[j].(react := r[j].react)
      && (r[j].react != cars[j].react ==> FirstStationary(cars) == Some(j))
  {
  }

  /** A straight lane alternates on consecutive calls, and two calls bring it back to its
      light, with the through-green and the long red as the only countdown values. */
  lemma StraightLaneAlternates(light: Light, t1: real, t2: real, cars: seq<CarState>, s1: real, s2: real)
    requires light == Red || light == Green
    ensures var first := LightStep(StraightLane, light, t1, cars, s1);
      var second := LightStep(StraightLane, first.0.light, t2, first.1, s2);
      second.0.light == light
      && second.0.timeToChange == (if light == Red then GreenT + ChangeLag + GreenArrowT + ChangeLag else GreenT)
  {
  }
}

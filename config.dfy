/** Fixed configuration of the simulation: the module-level settings of traffic2.py.
    The sweep driver reassigns GreenT and GreenArrowT between runs; within one run
    they are constants, which is how the model treats all of them. */
module Config {
  /** Metres from the stop line at which new cars appear. */
  const DefaultStart: real := 100.0
  /** Default arrival rate (cars per minute per approach). */
  const L: real := 10.0
  /** Seconds simulated by one tick. */
  const Chunk: real := 0.1
  /** Car body plus the minimum bumper-to-bumper gap, metres. */
  const CarLength: real := 6.5
  const GreenT: real := 30.0
  const GreenArrowT: real := 10.0
  /** Seconds every light stays red between two green phases. */
  const ChangeLag: real := 2.0
  /** Proportions turning left, going straight and turning right. */
  const TurnProps: seq<real> := [0.1, 0.8, 0.1]
  /** A turning car needs the conflicting lane's head car to be more than this many seconds away. */
  const SafeTurningGap: real := 3.0
  /** Location and speed a car sees when nobody is in front of it. */
  const OpenRoad: real := -1000.0
  /** The gap a lane reports when it is empty or its head car is stopped. */
  const OpenGap: real := 1000.0

  /** Probability that a car arriving in a straight lane goes straight rather than turning right. */
  function StraightShare(): (p: real)
    ensures 0.0 < p < 1.0
  {
    TurnProps[1] / (TurnProps[1] + TurnProps[2])
  }
}

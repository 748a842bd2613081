/** The string tags of traffic2.py, as closed enumerations, and a few shared records. */
module Types {
  datatype Option<T> = None | Some(value: T)

  /** "straight", "left turn", "right turn" */
  datatype Intention = Straight | LeftTurn | RightTurn

  /** "red", "green", "green arrow", and "red2": the red between the arrow and the green. */
  datatype Light = Red | Green | GreenArrow | Red2

  /** "left turn" and "straight" lanes */
  datatype LaneType = LeftTurnLane | StraightLane

  /** The direction the lane's traffic comes from. */
  datatype Orientation = North | West | South | East

  /** The gaps a car may consult: its lane's oncoming_lane, its l_to_r_lane, and its
      oncoming_lt_lane, which the source never assigns (hence optional). */
  datatype Gaps = Gaps(oncoming: real, lToR: real, oncomingLeftTurn: Option<real>)

  /** The random draws that create one car: the uniform r that picks a straight lane's
      intention, then the car's acceleration, top speed, safe time distance and reaction time. */
  datatype Arrival = Arrival(r: real, acceleration: real, topSpeed: real, safeD: real, react: real)
}

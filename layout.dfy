/** The geometry of the four-way junction: the orientations, the conflicting approaches of
    each one, and the order in which Intersection.__init__ creates its eight lanes. */
module Layout {
  import opened Types

  const Orientations: seq<Orientation> := [North, West, South, East]
  const LaneTypes: seq<LaneType> := [LeftTurnLane, StraightLane]

  /** The name the source gives an orientation. */
  function OrientationName(o: Orientation): (s: string)
    ensures |s| >= 4
  {
    match o
    case North => "north"
    case West => "west"
    case South => "south"
    case East => "east"
  }

  /** Lane.__init__ makes a lane green when its orientation is "ns" or "sn". */
  predicate StartsGreen(o: Orientation)
  {
    OrientationName(o) == "ns" || OrientationName(o) == "sn"
  }

  /** No orientation has either of those names, so every lane starts red. */
  lemma NoLaneStartsGreen(o: Orientation)
    ensures !StartsGreen(o)
  {
    assert |OrientationName(o)| >= 4;
  }

  /** The approach facing o: its traffic is what a left turn from o must cross. */
  function OncomingOf(o: Orientation): Orientation
  {
    match o
    case North => South
    case South => North
    case West => East
    case East => West
  }

  /** The approach whose straight traffic crosses from left to right in front of o: what a
      right turn on red from o must yield to. */
  function LeftToRightOf(o: Orientation): Orientation
  {
    match o
    case North => East
    case South => West
    case West => North
    case East => South
  }

  /** Oncoming pairs the approaches; the left-to-right approach is a third one, and taking it
      twice lands on the oncoming approach. */
  lemma ConflictGeometry(o: Orientation)
    ensures OncomingOf(OncomingOf(o)) == o && OncomingOf(o) != o
    ensures LeftToRightOf(o) != o && LeftToRightOf(o) != OncomingOf(o)
    ensures LeftToRightOf(LeftToRightOf(o)) == OncomingOf(o)
  {
  }

  /** Intersection.__init__ loops over the orientations and, inside, over the lane types:
      lane i has orientation Orientations[i / 2] and type LaneTypes[i % 2]. */
  const LaneCount: nat := |Orientations| * |LaneTypes|

  function SlotOrientation(i: nat): Orientation
    requires i < LaneCount
  {
    Orientations[i / 2]
  }

  function SlotType(i: nat): LaneType
    requires i < LaneCount
  {
    LaneTypes[i % 2]
  }

  /** The position of the lane of orientation o and type t. */
  function SlotIndex(o: Orientation, t: LaneType): (i: nat)
    ensures i < LaneCount
    ensures SlotOrientation(i) == o && SlotType(i) == t
  {
    var oi := match o case North => 0 case West => 1 case South => 2 case East => 3;
    var ti := match t case LeftTurnLane => 0 case StraightLane => 1;
    2 * oi + ti
  }

  /** Each (orientation, type) pair occupies one slot only. */
  lemma SlotUnique(i: nat, o: Orientation, t: LaneType)
    requires i < LaneCount
    requires SlotOrientation(i) == o && SlotType(i) == t
    ensures i == SlotIndex(o, t)
  {
  }

  /** The lane whose gap lane i's left turns read after wiring: get_oncoming_lt_lane runs
      after get_oncoming_lane and overwrites oncoming_lane, so it is the LEFT-TURN lane of
      the oncoming approach. */
  function OncomingIndex(i: nat): (j: nat)
    requires i < LaneCount
    ensures j < LaneCount && SlotType(j) == LeftTurnLane
    ensures SlotOrientation(j) == OncomingOf(SlotOrientation(i))
  {
    SlotIndex(OncomingOf(SlotOrientation(i)), LeftTurnLane)
  }

  /** The straight lane of the left-to-right approach, read by right turns on red. */
  function LToRIndex(i: nat): (j: nat)
    requires i < LaneCount
    ensures j < LaneCount && SlotType(j) == StraightLane
    ensures SlotOrientation(j) == LeftToRightOf(SlotOrientation(i))
  {
    SlotIndex(LeftToRightOf(SlotOrientation(i)), StraightLane)
  }

  /** The wiring in full, in lane order N-LT, N-St, W-LT, W-St, S-LT, S-St, E-LT, E-St. */
  lemma WiringTable()
    ensures forall i :: 0 <= i < LaneCount ==> OncomingIndex(i) == [4, 4, 6, 6, 0, 0, 2, 2][i]
    ensures forall i :: 0 <= i < LaneCount ==> LToRIndex(i) == [7, 7, 1, 1, 3, 3, 5, 5][i]
    ensures forall i :: 0 <= i < LaneCount ==> OncomingIndex(i) != i && LToRIndex(i) != i
  {
  }
}

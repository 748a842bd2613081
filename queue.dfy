/** The lane-queue passes of traffic2.py on values: what generate_cars, move_cars and
    remove_cars do to the list of cars, the gap a lane reports, and the re-draw of the
    first stationary car's reaction time. The class Lanes.Lane is proved against these. */
module Queue {
  import opened Types
  import opened Config
  import opened Kinematics

  /** Location and speed of the last car of cs: the car in front of the next one. An empty
      list means open road. */
  function Leader(cs: seq<CarState>): (f: (real, real))
    ensures cs == [] ==> f == (OpenRoad, OpenRoad)
    ensures cs != [] ==> f == (cs[|cs| - 1].location, cs[|cs| - 1].speed)
  {
    if cs == [] then (OpenRoad, OpenRoad) else (cs[|cs| - 1].location, cs[|cs| - 1].speed)
  }

  /** Left-turn lanes only get left-turning cars; in a straight lane the uniform draw r
      decides between going straight and turning right. */
  function ArrivalIntention(laneType: LaneType, r: real): (i: Intention)
    ensures laneType == LeftTurnLane <==> i == LeftTurn
    ensures laneType == StraightLane ==> (i == Straight <==> r < StraightShare())
  {
    match laneType
    case StraightLane => if r < StraightShare() then Straight else RightTurn
    case LeftTurnLane => LeftTurn
  }

  // ---------------------------------------------------------------- generate_cars

  /** generate_cars with n == |arrivals|: each new car is created behind the current tail
      and appended. */
  function Generate(cs: seq<CarState>, laneType: LaneType, arrivals: seq<Arrival>, now: real): (r: seq<CarState>)
    ensures |r| == |cs| + |arrivals|
    ensures r[..|cs|] == cs
    ensures forall k :: |cs| <= k < |r| ==>
      r[k].intention == ArrivalIntention(laneType, arrivals[k - |cs|].r) && r[k].arrivalTime == now
    ensures forall k :: |cs| <= k < |r| ==> r[k].location >= DefaultStart
    decreases |arrivals|
  {
    if arrivals == [] then cs
    else
      var before := Generate(cs, laneType, arrivals[..|arrivals| - 1], now);
      var a := arrivals[|arrivals| - 1];
      var front := Leader(before);
      before + [NewCar(front.0, front.1, ArrivalIntention(laneType, a.r), now, a)]
  }

  /** One more arrival appends one car, placed behind the tail so far. */
  lemma GenerateSnoc(cs: seq<CarState>, laneType: LaneType, arrivals: seq<Arrival>, a: Arrival, now: real)
    ensures var before := Generate(cs, laneType, arrivals, now);
      var front := Leader(before);
      Generate(cs, laneType, arrivals + [a], now)
        == before + [NewCar(front.0, front.1, ArrivalIntention(laneType, a.r), now, a)]
  {
    assert (arrivals + [a])[..|arrivals|] == arrivals;
  }

  lemma {:induction false} GeneratePrefix(cs: seq<CarState>, laneType: LaneType, arrivals: seq<Arrival>,
                                          now: real, j: nat)
    requires j <= |arrivals|
    ensures Generate(cs, laneType, arrivals, now)[..|cs| + j] == Generate(cs, laneType, arrivals[..j], now)
    decreases |arrivals|
  {
    if j < |arrivals| {
      var n := |arrivals|;
      GeneratePrefix(cs, laneType, arrivals[..n - 1], now, j);
      assert arrivals[..n - 1][..j] == arrivals[..j];
      var r := Generate(cs, laneType, arrivals, now);
      assert r[..|cs| + j] == Generate(cs, laneType, arrivals[..n - 1], now)[..|cs| + j];
    } else {
      assert arrivals[..j] == arrivals;
    }
  }

  /** Each new car is placed as Car.__init__ places it behind the car that was the tail when
      it was created: at least DefaultStart, and at least the safe distance for its top
      speed behind that car (open road if the lane was empty). */
  lemma GenerateSpacing(cs: seq<CarState>, laneType: LaneType, arrivals: seq<Arrival>, now: real, k: nat)
    requires |cs| <= k < |cs| + |arrivals|
    ensures var r := Generate(cs, laneType, arrivals, now);
      var a := arrivals[k - |cs|];
      var front := Leader(r[..k]);
      r[k] == NewCar(front.0, front.1, ArrivalIntention(laneType, a.r), now, a)
      && r[k].location >= SafeDistance(front.0, a.safeD, a.topSpeed)
  {
    var j := k - |cs|;
    GeneratePrefix(cs, laneType, arrivals, now, j + 1);
    GeneratePrefix(cs, laneType, arrivals[..j + 1], now, j);
    assert arrivals[..j + 1][..j] == arrivals[..j];
    var r := Generate(cs, laneType, arrivals, now);
    var p := Generate(cs, laneType, arrivals[..j + 1], now);
    assert r[..k + 1] == p;
    assert r[..k] == p[..k];
  }

  // ---------------------------------------------------------------- move_cars

  /** What Car.move needs of every car: not exactly at location 1, and no right-turning car
      under a green arrow without an oncoming left-turn gap to read. */
  predicate Movable(cs: seq<CarState>, light: Light, gaps: Gaps)
  {
    forall i :: 0 <= i < |cs| ==>
      cs[i].location != 1.0 && (cs[i].intention == RightTurn && light == GreenArrow ==> gaps.oncomingLeftTurn.Some?)
  }

  /** move_cars: cars move front to back, each behind its predecessor's already updated
      state; reacts[i] is the reaction time car i draws if it reacts this tick. */
  function Advance(cs: seq<CarState>, light: Light, timeToChange: real, gaps: Gaps, reacts: seq<real>): (r: seq<CarState>)
    requires |reacts| >= |cs|
    requires Movable(cs, light, gaps)
    ensures |r| == |cs|
    decreases |cs|
  {
    if cs == [] then []
    else
      var n := |cs|;
      var done := Advance(cs[..n - 1], light, timeToChange, gaps, reacts);
      var front := Leader(done);
      done + [Step(cs[n - 1], Chunk, front.0, front.1, light, timeToChange, gaps, reacts[n - 1])]
  }

  lemma {:induction false} AdvancePrefix(cs: seq<CarState>, light: Light, timeToChange: real, gaps: Gaps,
                                         reacts: seq<real>, k: nat)
    requires |reacts| >= |cs| && Movable(cs, light, gaps) && k <= |cs|
    ensures Advance(cs, light, timeToChange, gaps, reacts)[..k] == Advance(cs[..k], light, timeToChange, gaps, reacts)
    decreases |cs|
  {
    if k < |cs| {
      var n := |cs|;
      AdvancePrefix(cs[..n - 1], light, timeToChange, gaps, reacts, k);
      assert cs[..n - 1][..k] == cs[..k];
    } else {
      assert cs[..k] == cs;
    }
  }

  /** Moving one more car: it moves behind the last car moved so far. */
  lemma AdvanceSnoc(cs: seq<CarState>, light: Light, timeToChange: real, gaps: Gaps, reacts: seq<real>, i: nat)
    requires |reacts| >= |cs| && Movable(cs, light, gaps) && i < |cs|
    ensures Movable(cs[..i], light, gaps) && Movable(cs[..i + 1], light, gaps)
    ensures var done := Advance(cs[..i], light, timeToChange, gaps, reacts);
      var front := Leader(done);
      Advance(cs[..i + 1], light, timeToChange, gaps, reacts)
        == done + [Step(cs[i], Chunk, front.0, front.1, light, timeToChange, gaps, reacts[i])]
  {
    assert cs[..i + 1][..i] == cs[..i];
  }

  /** Car k is moved once, by Car.move, behind car k - 1 as car k - 1 stands after its own
      move this tick (open road for the head car). */
  lemma AdvanceAt(cs: seq<CarState>, light: Light, timeToChange: real, gaps: Gaps, reacts: seq<real>, k: nat)
    requires |reacts| >= |cs| && Movable(cs, light, gaps) && k < |cs|
    ensures var r := Advance(cs, light, timeToChange, gaps, reacts);
      var front := Leader(r[..k]);
      r[k] == Step(cs[k], Chunk, front.0, front.1, light, timeToChange, gaps, reacts[k])
  {
    var r := Advance(cs, light, timeToChange, gaps, reacts);
    AdvancePrefix(cs, light, timeToChange, gaps, reacts, k + 1);
    AdvancePrefix(cs, light, timeToChange, gaps, reacts, k);
    AdvanceSnoc(cs, light, timeToChange, gaps, reacts, k);
    var done := Advance(cs[..k], light, timeToChange, gaps, reacts);
    var front := Leader(done);
    var step := Step(cs[k], Chunk, front.0, front.1, light, timeToChange, gaps, reacts[k]);
    assert r[..k + 1] == done + [step];
    assert r[k] == (done + [step])[k];
  }

  /** AdvanceAt with the car in front named directly: open road for the head car, otherwise
      car k - 1 after its move. */
  lemma AdvanceFront(cs: seq<CarState>, light: Light, timeToChange: real, gaps: Gaps, reacts: seq<real>, k: nat)
    requires |reacts| >= |cs| && Movable(cs, light, gaps) && k < |cs|
    ensures var r := Advance(cs, light, timeToChange, gaps, reacts);
      var frontLoc := if k == 0 then OpenRoad else r[k - 1].location;
      var frontSpeed := if k == 0 then OpenRoad else r[k - 1].speed;
      r[k] == Step(cs[k], Chunk, frontLoc, frontSpeed, light, timeToChange, gaps, reacts[k])
  {
    AdvanceAt(cs, light, timeToChange, gaps, reacts, k);
    if k > 0 {
      var r := Advance(cs, light, timeToChange, gaps, reacts);
      assert r[..k][k - 1] == r[k - 1];
    }
  }

  /** After move_cars every car that reacted this tick keeps at least its safe distance
      behind its predecessor's new position. */
  lemma AdvanceSpacing(cs: seq<CarState>, light: Light, timeToChange: real, gaps: Gaps, reacts: seq<real>, k: nat)
    requires |reacts| >= |cs| && Movable(cs, light, gaps) && 0 < k < |cs|
    requires var r := Advance(cs, light, timeToChange, gaps, reacts);
      Reacts(cs[k], Chunk, r[k - 1].location, r[k - 1].speed)
    ensures var r := Advance(cs, light, timeToChange, gaps, reacts);
      r[k].location >= SafeDistance(r[k - 1].location, r[k].safeD, r[k].speed)
  {
    AdvanceAt(cs, light, timeToChange, gaps, reacts, k);
  }

  /** move_cars changes only the moving state of each car: the draws, arrival time and
      removal stamps stay as they were. */
  lemma AdvanceKeepsIdentity(cs: seq<CarState>, light: Light, timeToChange: real, gaps: Gaps,
                             reacts: seq<real>, k: nat)
    requires |reacts| >= |cs| && Movable(cs, light, gaps) && k < |cs|
    ensures var r := Advance(cs, light, timeToChange, gaps, reacts);
      r[k].intention == cs[k].intention && r[k].safeD == cs[k].safeD
      && r[k].topSpeed == cs[k].topSpeed && r[k].acceleration == cs[k].acceleration
      && r[k].arrivalTime == cs[k].arrivalTime
      && r[k].throughTime == cs[k].throughTime && r[k].duration == cs[k].duration
  {
    AdvanceAt(cs, light, timeToChange, gaps, reacts, k);
  }

  // ---------------------------------------------------------------- remove_cars

  /** The record remove_cars gives a car that has crossed the line at time now. */
  function Stamp(c: CarState, now: real): (s: CarState)
    ensures s.throughTime == Some(now) && s.duration == Some(now - c.arrivalTime)
    ensures s.(throughTime := c.throughTime, duration := c.duration) == c
  {
    c.(throughTime := Some(now), duration := Some(now - c.arrivalTime))
  }

  /** remove_cars as written: a for loop over the list that removes the current car from the
      same list. Removing car i moves car i + 1 into slot i, which the loop has already
      passed, so the car right after every removed car is kept without being examined.
      The result is the cars kept and the cars moved to cars_through, stamped. */
  function Sweep(cs: seq<CarState>, now: real): (r: (seq<CarState>, seq<CarState>))
    ensures |r.0| + |r.1| == |cs|
    ensures forall k :: 0 <= k < |r.1| ==>
      r.1[k].location < 0.0 && r.1[k].throughTime == Some(now) && r.1[k].duration == Some(now - r.1[k].arrivalTime)
    decreases |cs|
  {
    if cs == [] then ([], [])
    else if cs[0].location < 0.0 then
      if |cs| == 1 then ([], [Stamp(cs[0], now)])
      else
        var rest := Sweep(cs[2..], now);
        ([cs[1]] + rest.0, [Stamp(cs[0], now)] + rest.1)
    else
      var rest := Sweep(cs[1..], now);
      ([cs[0]] + rest.0, rest.1)
  }

  /** One pass of the removal loop at slot n of the list as it currently stands. A kept car
      advances the slot; a removed car shifts its successor into the slot, which the loop then
      passes without looking at it. */
  lemma SweepAt(s: seq<CarState>, n: nat, now: real)
    requires n < |s|
    ensures s[n].location >= 0.0 ==>
      Sweep(s[n..], now) == ([s[n]] + Sweep(s[n + 1..], now).0, Sweep(s[n + 1..], now).1)
    ensures s[n].location < 0.0 && n + 1 < |s| ==>
      Sweep(s[n..], now) == ([s[n + 1]] + Sweep(s[n + 2..], now).0, [Stamp(s[n], now)] + Sweep(s[n + 2..], now).1)
    ensures s[n].location < 0.0 && n + 1 == |s| ==>
      Sweep(s[n..], now) == ([], [Stamp(s[n], now)])
  {
    assert s[n..][1..] == s[n + 1..];
    if n + 1 < |s| {
      assert s[n..][2..] == s[n + 2..];
    }
  }

  /** a can be obtained from b by deleting elements. */
  predicate Subsequence<T(==)>(a: seq<T>, b: seq<T>)
    decreases |b|
  {
    if a == [] then true
    else if b == [] then false
    else (a[0] == b[0] && Subsequence(a[1..], b[1..])) || Subsequence(a, b[1..])
  }

  /** remove_cars keeps the surviving cars in their order. */
  lemma {:induction false} SweepKeepsOrder(cs: seq<CarState>, now: real)
    ensures Subsequence(Sweep(cs, now).0, cs)
    decreases |cs|
  {
    if cs == [] {
    } else if cs[0].location < 0.0 {
      if |cs| > 1 {
        SweepKeepsOrder(cs[2..], now);
        var k := Sweep(cs, now).0;
        assert k[1..] == Sweep(cs[2..], now).0;
        assert cs[1..][1..] == cs[2..];
        assert Subsequence(k, cs[1..]);
      }
    } else {
      SweepKeepsOrder(cs[1..], now);
      var k := Sweep(cs, now).0;
      assert k[1..] == Sweep(cs[1..], now).0;
    }
  }

  /** Every car still short of the line (location >= 0) stays in the lane. */
  lemma {:induction false} SweepKeepsApproaching(cs: seq<CarState>, now: real, c: CarState)
    requires c in cs && c.location >= 0.0
    ensures c in Sweep(cs, now).0
    decreases |cs|
  {
    if cs[0] == c {
    } else if cs[0].location < 0.0 {
      if cs[1] != c {
        assert c in cs[2..];
        SweepKeepsApproaching(cs[2..], now, c);
      }
    } else {
      assert c in cs[1..];
      SweepKeepsApproaching(cs[1..], now, c);
    }
  }

  /** The skipped slot: when the head car is removed the next car stays in the lane,
      whatever its location. */
  lemma SweepSkipsFollower(cs: seq<CarState>, now: real)
    requires |cs| >= 2 && cs[0].location < 0.0
    ensures Sweep(cs, now).0 != [] && Sweep(cs, now).0[0] == cs[1]
    ensures Sweep(cs, now).1[0] == Stamp(cs[0], now)
  {
  }

  /** Two cars past the line: only the first is removed in that pass. */
  lemma SweepLeavesCrossedCar(a: CarState, b: CarState, now: real)
    requires a.location < 0.0 && b.location < 0.0
    ensures Sweep([a, b], now) == ([b], [Stamp(a, now)])
    ensures exists c :: c in Sweep([a, b], now).0 && c.location < 0.0
  {
    var cs := [a, b];
    assert cs[2..] == [];
    assert Sweep(cs[2..], now) == ([], []);
    assert Sweep(cs, now).0 == [b];
    assert Sweep(cs, now).1 == [Stamp(a, now)];
  }

  /** The crossed cars remove_cars examines, in list order: the cars it moves to
      cars_through. A removed car's successor is skipped, wherever it is. */
  function Gone(cs: seq<CarState>): (g: seq<CarState>)
    ensures forall k :: 0 <= k < |g| ==> g[k].location < 0.0
    decreases |cs|
  {
    if cs == [] then []
    else if cs[0].location < 0.0 then [cs[0]] + (if |cs| == 1 then [] else Gone(cs[2..]))
    else Gone(cs[1..])
  }

  /** cars_through receives exactly the examined crossed cars, in order, each stamped. */
  lemma {:induction false} SweepStampsGone(cs: seq<CarState>, now: real)
    ensures |Sweep(cs, now).1| == |Gone(cs)|
    ensures forall k :: 0 <= k < |Gone(cs)| ==> Sweep(cs, now).1[k] == Stamp(Gone(cs)[k], now)
    decreases |cs|
  {
    if cs == [] {
    } else if cs[0].location < 0.0 {
      if |cs| > 1 {
        SweepStampsGone(cs[2..], now);
      }
    } else {
      SweepStampsGone(cs[1..], now);
    }
  }

  /** No car is lost or duplicated: the kept cars and the examined crossed cars together
      are the cars the pass started with. */
  lemma {:induction false} SweepPartitions(cs: seq<CarState>, now: real)
    ensures multiset(Sweep(cs, now).0) + multiset(Gone(cs)) == multiset(cs)
    decreases |cs|
  {
    if cs == [] {
    } else if cs[0].location < 0.0 {
      if |cs| > 1 {
        SweepPartitions(cs[2..], now);
        PartitionTakes(cs, now);
      }
    } else {
      SweepPartitions(cs[1..], now);
      PartitionKeeps(cs, now);
    }
  }

  /** The partition survives a kept head car. */
  lemma PartitionKeeps(cs: seq<CarState>, now: real)
    requires cs != [] && cs[0].location >= 0.0
    requires multiset(Sweep(cs[1..], now).0) + multiset(Gone(cs[1..])) == multiset(cs[1..])
    ensures multiset(Sweep(cs, now).0) + multiset(Gone(cs)) == multiset(cs)
  {
    var tail := cs[1..];
    ConsSplit(cs);
    KeepFirst(cs[0], tail, Sweep(tail, now).0, Gone(tail));
  }

  /** The partition survives a removed head car and its skipped successor. */
  lemma PartitionTakes(cs: seq<CarState>, now: real)
    requires |cs| > 1 && cs[0].location < 0.0
    requires multiset(Sweep(cs[2..], now).0) + multiset(Gone(cs[2..])) == multiset(cs[2..])
    ensures multiset(Sweep(cs, now).0) + multiset(Gone(cs)) == multiset(cs)
  {
    var tail := cs[2..];
    ConsSplit2(cs);
    KeepSecondDropFirst(cs[0], cs[1], tail, Sweep(tail, now).0, Gone(tail));
  }

  lemma ConsSplit<T>(s: seq<T>)
    requires s != []
    ensures s == [s[0]] + s[1..]
  {
  }

  lemma ConsSplit2<T>(s: seq<T>)
    requires |s| > 1
    ensures s == [s[0]] + [s[1]] + s[2..]
  {
  }

  lemma KeepFirst<T>(x: T, tail: seq<T>, kept: seq<T>, gone: seq<T>)
    requires multiset(kept) + multiset(gone) == multiset(tail)
    ensures multiset([x] + kept) + multiset(gone) == multiset([x] + tail)
  {
  }

  lemma KeepSecondDropFirst<T>(x: T, y: T, tail: seq<T>, kept: seq<T>, gone: seq<T>)
    requires multiset(kept) + multiset(gone) == multiset(tail)
    ensures multiset([y] + kept) + multiset([x] + gone) == multiset([x] + [y] + tail)
  {
  }

  // ---------------------------------------------------------------- gap

  /** The gap of run_chunk: seconds until the head car reaches the line at its current
      speed, or OpenGap when the lane is empty or its head car is stopped. */
  function GapOf(cs: seq<CarState>): (g: real)
    ensures cs != [] && cs[0].speed != 0.0 ==> g * cs[0].speed == cs[0].location
    ensures g == OpenGap <==> cs == [] || cs[0].speed == 0.0 || cs[0].location == OpenGap * cs[0].speed
  {
    if cs == [] || cs[0].speed == 0.0 then OpenGap else cs[0].location / cs[0].speed
  }

  // ---------------------------------------------------------------- reaction re-draw

  /** Index of the first car, in list order, whose speed is 0. */
  function FirstStationary(cs: seq<CarState>): (r: Option<nat>)
    ensures r.Some? ==> r.value < |cs| && cs[r.value].speed == 0.0
                        && forall j :: 0 <= j < r.value ==> cs[j].speed != 0.0
    ensures r.None? ==> forall j :: 0 <= j < |cs| ==> cs[j].speed != 0.0
    decreases |cs|
  {
    if cs == [] then None
    else if cs[0].speed == 0.0 then Some(0)
    else match FirstStationary(cs[1..])
      case None => None
      case Some(i) => Some(i + 1)
  }

  /** The re-draw done when a light turns green: the first stationary car, if any, gets the
      reaction time sample; no other car changes. */
  function Restart(cs: seq<CarState>, sample: real): (r: seq<CarState>)
    ensures |r| == |cs|
    ensures forall j {:trigger r[j]} :: 0 <= j < |cs| && FirstStationary(cs) != Some(j) ==> r[j] == cs[j]
    ensures forall j {:trigger r[j]} :: 0 <= j < |cs| && FirstStationary(cs) == Some(j) ==> r[j] == cs[j].(react := sample)
  {
    match FirstStationary(cs)
    case None => cs
    case Some(i) => cs[i := cs[i].(react := sample)]
  }

  /** When car i is the first with speed 0, the re-draw touches exactly car i. */
  lemma RestartAt(cs: seq<CarState>, i: nat, sample: real)
    requires i < |cs| && cs[i].speed == 0.0
    requires forall j :: 0 <= j < i ==> cs[j].speed != 0.0
    ensures FirstStationary(cs) == Some(i)
    ensures Restart(cs, sample) == cs[i := cs[i].(react := sample)]
  {
  }

  /** With no stationary car, the re-draw changes nothing. */
  lemma RestartNone(cs: seq<CarState>, sample: real)
    requires forall j :: 0 <= j < |cs| ==> cs[j].speed != 0.0
    ensures FirstStationary(cs) == None
    ensures Restart(cs, sample) == cs
  {
  }
}

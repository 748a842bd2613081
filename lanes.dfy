/** The Lane class of traffic2.py: one tick of a lane on values (LaneTick), and the class
    whose methods are proved against it. */
module Lanes {
  import opened Types
  import opened Config
  import opened Kinematics
  import opened Cars
  import opened Queue
  import opened Lights
  import opened Layout

  /** What a lane holds, as values. */
  datatype LaneView = LaneView(cars: seq<CarState>, through: seq<CarState>, light: Light,
                               timeToChange: real, gap: real)

  /** The random draws one tick of a lane consumes: the arrivals of generate_cars, the
      reaction time car i draws in Car.move if it reacts, and the reaction time drawn for the
      first stationary car when the light turns green. */
  datatype Draws = Draws(arrivals: seq<Arrival>, reacts: seq<real>, firstReact: real)

  /** A left-turn lane carries only left-turning cars, a straight lane only the others. */
  predicate Admits(laneType: LaneType, intention: Intention)
  {
    laneType == LeftTurnLane <==> intention == LeftTurn
  }

  /** What every lane keeps: admitted intentions, and a straight lane is red or green. */
  predicate WellFormed(v: LaneView, laneType: LaneType)
  {
    (forall k :: 0 <= k < |v.cars| ==> Admits(laneType, v.cars[k].intention))
    && (laneType == StraightLane ==> v.light == Red || v.light == Green)
  }

  predicate ClearOfLine(cs: seq<CarState>)
  {
    forall k :: 0 <= k < |cs| ==> cs[k].location != 1.0
  }

  /** What one tick needs: a well-formed lane, no car at location 1 (where Car.move would
      divide by zero if it brakes), and a reaction sample for every car after generation. */
  predicate Ready(v: LaneView, laneType: LaneType, d: Draws)
  {
    WellFormed(v, laneType) && ClearOfLine(v.cars) && |d.reacts| >= |v.cars| + |d.arrivals|
  }

  /** After generate_cars every car can be moved: a right-turning car is in a straight lane,
      whose light is never the green arrow, so the missing oncoming left-turn gap is never
      read. */
  lemma GeneratedMovable(v: LaneView, laneType: LaneType, d: Draws, gaps: Gaps, now: real)
    requires Ready(v, laneType, d)
    ensures var g := Generate(v.cars, laneType, d.arrivals, now);
      Movable(g, v.light, gaps) && forall k :: 0 <= k < |g| ==> Admits(laneType, g[k].intention)
  {
    var g := Generate(v.cars, laneType, d.arrivals, now);
    forall k | 0 <= k < |g|
      ensures g[k].location != 1.0 && Admits(laneType, g[k].intention)
    {
      if k < |v.cars| {
        assert g[k] == g[..|v.cars|][k];
      }
    }
  }

  /** The first half of Lane.run_chunk on values: generate_cars, move_cars, remove_cars.
      gaps are the gaps of the conflicting lanes as they stand when this lane runs. */
  function TrafficTick(v: LaneView, laneType: LaneType, gaps: Gaps, d: Draws, now: real): (r: LaneView)
    requires Ready(v, laneType, d)
  {
    var swept := Sweep(Moved(v, laneType, gaps, d, now), now);
    v.(cars := swept.0, through := v.through + swept.1)
  }

  /** generate_cars then move_cars, on values. */
  function Moved(v: LaneView, laneType: LaneType, gaps: Gaps, d: Draws, now: real): (r: seq<CarState>)
    requires Ready(v, laneType, d)
  {
    GeneratedMovable(v, laneType, d, gaps, now);
    Advance(Generate(v.cars, laneType, d.arrivals, now), v.light, v.timeToChange, gaps, d.reacts)
  }

  /** The second half of Lane.run_chunk on values: count down, compute the gap, update the
      light. */
  function SignalTick(w: LaneView, laneType: LaneType, sample: real): (r: LaneView)
  {
    var signal := LightStep(laneType, w.light, w.timeToChange - Chunk, w.cars, sample);
    LaneView(signal.1, w.through, signal.0.light, signal.0.timeToChange, GapOf(w.cars))
  }

  /** Lane.run_chunk on values. */
  function LaneTick(v: LaneView, laneType: LaneType, gaps: Gaps, d: Draws, now: real): (r: LaneView)
    requires Ready(v, laneType, d)
  {
    SignalTick(TrafficTick(v, laneType, gaps, d, now), laneType, d.firstReact)
  }

  /** The count is conserved: waiting plus through cars grow by exactly the arrivals. */
  lemma TickConserves(v: LaneView, laneType: LaneType, gaps: Gaps, d: Draws, now: real)
    requires Ready(v, laneType, d)
    ensures var r := LaneTick(v, laneType, gaps, d, now);
      |r.cars| + |r.through| == |v.cars| + |v.through| + |d.arrivals|
  {
  }

  /** No car is lost or duplicated by remove_cars: the cars left in the lane and the examined
      crossed cars are the moved cars, and cars_through grows by those crossed cars, stamped,
      in order. */
  lemma TickPartitions(v: LaneView, laneType: LaneType, gaps: Gaps, d: Draws, now: real)
    requires Ready(v, laneType, d)
    ensures var m := Moved(v, laneType, gaps, d, now);
      var w := TrafficTick(v, laneType, gaps, d, now);
      multiset(w.cars) + multiset(Gone(m)) == multiset(m)
      && |w.through| == |v.through| + |Gone(m)| && w.through[..|v.through|] == v.through
      && forall k :: 0 <= k < |Gone(m)| ==> w.through[|v.through| + k] == Stamp(Gone(m)[k], now)
  {
    var m := Moved(v, laneType, gaps, d, now);
    SweepPartitions(m, now);
    SweepStampsGone(m, now);
    var w := TrafficTick(v, laneType, gaps, d, now);
    assert w.through == v.through + Sweep(m, now).1;
  }

  /** cars_through only grows, and every car added this tick has crossed the line and is
      stamped with the current time and its time in the system. */
  lemma TickRecordsThrough(v: LaneView, laneType: LaneType, gaps: Gaps, d: Draws, now: real)
    requires Ready(v, laneType, d)
    ensures var r := LaneTick(v, laneType, gaps, d, now);
      |r.through| >= |v.through| && r.through[..|v.through|] == v.through
      && forall k :: |v.through| <= k < |r.through| ==>
           r.through[k].location < 0.0 && r.through[k].throughTime == Some(now)
           && r.through[k].duration == Some(now - r.through[k].arrivalTime)
  {
    var r := LaneTick(v, laneType, gaps, d, now);
    GeneratedMovable(v, laneType, d, gaps, now);
    var moved := Advance(Generate(v.cars, laneType, d.arrivals, now), v.light, v.timeToChange, gaps, d.reacts);
    var gone := Sweep(moved, now).1;
    assert r.through == v.through + gone;
    forall k | |v.through| <= k < |r.through|
      ensures r.through[k].location < 0.0 && r.through[k].throughTime == Some(now)
              && r.through[k].duration == Some(now - r.through[k].arrivalTime)
    {
      assert r.through[k] == gone[k - |v.through|];
      assert r.through[k] in gone;
    }
  }

  /** The gap a lane reports describes its cars as they stand after the tick: the light
      update only touches a reaction time, never a place or a speed. */
  lemma TickGap(v: LaneView, laneType: LaneType, gaps: Gaps, d: Draws, now: real)
    requires Ready(v, laneType, d)
    ensures var r := LaneTick(v, laneType, gaps, d, now);
      r.gap == GapOf(r.cars)
      && (r.gap == OpenGap <==> r.cars == [] || r.cars[0].speed == 0.0 || r.cars[0].location == OpenGap * r.cars[0].speed)
  {
    var r := LaneTick(v, laneType, gaps, d, now);
    GeneratedMovable(v, laneType, d, gaps, now);
    var moved := Advance(Generate(v.cars, laneType, d.arrivals, now), v.light, v.timeToChange, gaps, d.reacts);
    var kept := Sweep(moved, now).0;
    assert |r.cars| == |kept|;
    if kept != [] {
      LightStepMovesNoCar(laneType, v.light, v.timeToChange - Chunk, kept, d.firstReact, 0);
    }
  }

  lemma {:induction false} SubsequenceMember<T>(a: seq<T>, b: seq<T>, x: T)
    requires Subsequence(a, b) && x in a
    ensures x in b
    decreases |b|
  {
    if a[0] == b[0] && Subsequence(a[1..], b[1..]) {
      if x != a[0] {
        SubsequenceMember(a[1..], b[1..], x);
      }
    } else {
      SubsequenceMember(a, b[1..], x);
    }
  }

  /** generate_cars and move_cars admit only the lane's intentions. */
  lemma MovedAdmitted(v: LaneView, laneType: LaneType, gaps: Gaps, d: Draws, now: real)
    requires Ready(v, laneType, d)
    ensures forall m :: 0 <= m < |Moved(v, laneType, gaps, d, now)| ==>
      Admits(laneType, Moved(v, laneType, gaps, d, now)[m].intention)
  {
    GeneratedMovable(v, laneType, d, gaps, now);
    var generated := Generate(v.cars, laneType, d.arrivals, now);
    forall m | 0 <= m < |Moved(v, laneType, gaps, d, now)|
      ensures Admits(laneType, Moved(v, laneType, gaps, d, now)[m].intention)
    {
      AdvanceKeepsIdentity(generated, v.light, v.timeToChange, gaps, d.reacts, m);
    }
  }

  /** remove_cars keeps only cars it was given. */
  lemma KeptAdmitted(moved: seq<CarState>, laneType: LaneType, now: real)
    requires forall m :: 0 <= m < |moved| ==> Admits(laneType, moved[m].intention)
    ensures forall k :: 0 <= k < |Sweep(moved, now).0| ==> Admits(laneType, Sweep(moved, now).0[k].intention)
  {
    var kept := Sweep(moved, now).0;
    SweepKeepsOrder(moved, now);
    forall k | 0 <= k < |kept|
      ensures Admits(laneType, kept[k].intention)
    {
      assert kept[k] in kept;
      SubsequenceMember(kept, moved, kept[k]);
    }
  }

  /** A tick keeps the lane well formed: intentions stay admitted and a straight lane stays
      red or green. */
  lemma TickKeepsWellFormed(v: LaneView, laneType: LaneType, gaps: Gaps, d: Draws, now: real)
    requires Ready(v, laneType, d)
    ensures WellFormed(LaneTick(v, laneType, gaps, d, now), laneType)
  {
    var r := LaneTick(v, laneType, gaps, d, now);
    var moved := Moved(v, laneType, gaps, d, now);
    var kept := Sweep(moved, now).0;
    MovedAdmitted(v, laneType, gaps, d, now);
    KeptAdmitted(moved, laneType, now);
    var w := TrafficTick(v, laneType, gaps, d, now);
    assert w.cars == kept && w.light == v.light && w.timeToChange == v.timeToChange;
    assert r.cars == LightStep(laneType, v.light, v.timeToChange - Chunk, kept, d.firstReact).1;
    forall k | 0 <= k < |r.cars|
      ensures Admits(laneType, r.cars[k].intention)
    {
      LightStepMovesNoCar(laneType, v.light, v.timeToChange - Chunk, kept, d.firstReact, k);
      assert Admits(laneType, kept[k].intention);
    }
  }

  // ---------------------------------------------------------------- sequence facts

  lemma SliceSnoc<T>(s: seq<T>, i: nat)
    requires i < |s|
    ensures s[..i + 1] == s[..i] + [s[i]]
  {
  }

  lemma SliceAll<T>(s: seq<T>)
    ensures s[..|s|] == s
  {
  }

  lemma PrefixSnoc<T>(a: seq<T>, b: seq<T>, x: T)
    requires a <= b
    ensures a <= b + [x]
    ensures forall y :: y in b + [x] ==> y in b || y == x
  {
  }

  lemma SnocAssoc<T>(a: seq<T>, b: seq<T>, x: T)
    ensures a + b + [x] == a + (b + [x])
  {
  }

  /** The loop invariant of remove_cars, stated on the values of the list: the first n cars
      are settled, and sweeping from slot n on finishes what the whole pass returns. */
  predicate SweptUpTo(swept: (seq<CarState>, seq<CarState>), gone: seq<CarState>,
                      s: seq<CarState>, n: nat, now: real)
  {
    n <= |s| && swept.0 == s[..n] + Sweep(s[n..], now).0 && swept.1 == gone + Sweep(s[n..], now).1
  }

  lemma RemoveKeeps(swept: (seq<CarState>, seq<CarState>), gone: seq<CarState>, s: seq<CarState>, n: nat, now: real)
    requires SweptUpTo(swept, gone, s, n, now) && n < |s| && s[n].location >= 0.0
    ensures SweptUpTo(swept, gone, s, n + 1, now)
  {
    SweepAt(s, n, now);
    SliceSnoc(s, n);
  }

  lemma RemoveTakes(swept: (seq<CarState>, seq<CarState>), gone: seq<CarState>, s: seq<CarState>, n: nat, now: real)
    requires SweptUpTo(swept, gone, s, n, now) && n < |s| && s[n].location < 0.0
    ensures var t := s[..n] + s[n + 1..];
      var gone' := gone + [Stamp(s[n], now)];
      if n + 1 < |s| then SweptUpTo(swept, gone', t, n + 1, now)
      else SweptUpTo(swept, gone', t, n, now) && n == |t|
  {
    if n + 1 < |s| {
      RemoveTakesInner(swept, gone, s, n, now);
    } else {
      RemoveTakesLast(swept, gone, s, n, now);
    }
  }

  /** Deleting slot n of s leaves slot n + 1 of s in slot n, and the tail after it. */
  lemma DeleteSlot<T>(s: seq<T>, n: nat)
    requires n + 1 < |s|
    ensures (s[..n] + s[n + 1..])[..n + 1] == s[..n] + [s[n + 1]]
    ensures (s[..n] + s[n + 1..])[n + 1..] == s[n + 2..]
  {
  }

  /** A removed car with a successor: the successor is kept unexamined. */
  lemma RemoveTakesInner(swept: (seq<CarState>, seq<CarState>), gone: seq<CarState>, s: seq<CarState>, n: nat, now: real)
    requires SweptUpTo(swept, gone, s, n, now) && n + 1 < |s| && s[n].location < 0.0
    ensures SweptUpTo(swept, gone + [Stamp(s[n], now)], s[..n] + s[n + 1..], n + 1, now)
  {
    SweepAt(s, n, now);
    DeleteSlot(s, n);
    var rest := Sweep(s[n + 2..], now);
    assert swept.0 == s[..n] + ([s[n + 1]] + rest.0);
    assert swept.1 == gone + ([Stamp(s[n], now)] + rest.1);
  }

  /** A removed last car. */
  lemma RemoveTakesLast(swept: (seq<CarState>, seq<CarState>), gone: seq<CarState>, s: seq<CarState>, n: nat, now: real)
    requires SweptUpTo(swept, gone, s, n, now) && n + 1 == |s| && s[n].location < 0.0
    ensures SweptUpTo(swept, gone + [Stamp(s[n], now)], s[..n] + s[n + 1..], n, now)
    ensures n == |s[..n] + s[n + 1..]|
  {
    SweepAt(s, n, now);
    var t := s[..n] + s[n + 1..];
    assert t == s[..n];
    assert t[..n] == s[..n];
    assert t[n..] == [];
    assert Sweep(t[n..], now) == ([], []);
    assert swept.0 == s[..n] + [];
    assert swept.1 == gone + [Stamp(s[n], now)];
  }

  lemma SweptAll(swept: (seq<CarState>, seq<CarState>), gone: seq<CarState>, s: seq<CarState>, now: real)
    requires SweptUpTo(swept, gone, s, |s|, now)
    ensures swept == (s, gone)
  {
    assert s[|s|..] == [];
    assert Sweep(s[|s|..], now) == ([], []);
    assert s[..|s|] == s;
    assert swept.0 == s && swept.1 == gone;
  }

  // ---------------------------------------------------------------- distinct objects

  /** Slots p and q of cars hold different objects (vacuous unless p < q are slots). */
  ghost predicate Differ(cars: seq<Car>, p: int, q: int)
  {
    0 <= p < q < |cars| ==> cars[p] != cars[q]
  }

  /** Slot k of cars holds an admitted car that is not among the cars through. */
  ghost predicate Placed(laneType: LaneType, cars: seq<Car>, through: seq<Car>, k: int)
  {
    0 <= k < |cars| ==> cars[k] !in through && Admits(laneType, cars[k].intention)
  }

  /** The object-level invariant of a lane: no car object waits twice or waits after it went
      through, every waiting car is admitted, a straight lane is red or green. */
  ghost predicate Sound(laneType: LaneType, light: Light, cars: seq<Car>, through: seq<Car>)
  {
    (forall p, q {:trigger Differ(cars, p, q)} :: Differ(cars, p, q))
    && (forall k {:trigger Placed(laneType, cars, through, k)} :: Placed(laneType, cars, through, k))
    && (laneType == StraightLane ==> light == Red || light == Green)
  }

  /** Car i of a sound lane is no other waiting car and none of the cars through. */
  lemma SoundApart(laneType: LaneType, light: Light, cars: seq<Car>, through: seq<Car>, i: nat)
    requires Sound(laneType, light, cars, through) && i < |cars|
    ensures cars[i] !in through && Admits(laneType, cars[i].intention)
    ensures forall k :: 0 <= k < |cars| && k != i ==> cars[k] != cars[i]
    ensures cars[i] !in cars[..i] + cars[i + 1..]
  {
    assert Placed(laneType, cars, through, i);
    forall k | 0 <= k < |cars| && k != i
      ensures cars[k] != cars[i]
    {
      assert Differ(cars, k, i) && Differ(cars, i, k);
    }
    var t := cars[..i] + cars[i + 1..];
    assert forall p :: 0 <= p < |t| ==> t[p] == cars[if p < i then p else p + 1];
  }

  lemma SoundAppend(laneType: LaneType, light: Light, cars: seq<Car>, through: seq<Car>, c: Car)
    requires Sound(laneType, light, cars, through)
    requires c !in cars && c !in through && Admits(laneType, c.intention)
    ensures Sound(laneType, light, cars + [c], through)
  {
    var s := cars + [c];
    forall p, q
      ensures Differ(s, p, q)
    {
      if 0 <= p < q < |s| {
        assert Differ(cars, p, q);
        assert s[p] == cars[p];
      }
    }
    forall k
      ensures Placed(laneType, s, through, k)
    {
      if 0 <= k < |cars| {
        assert Placed(laneType, cars, through, k);
        assert s[k] == cars[k];
      }
    }
  }

  /** Moving car i from the waiting list to the end of cars_through keeps the invariant. */
  lemma SoundRetire(laneType: LaneType, light: Light, cars: seq<Car>, through: seq<Car>, i: nat)
    requires Sound(laneType, light, cars, through) && i < |cars|
    ensures Sound(laneType, light, cars[..i] + cars[i + 1..], through + [cars[i]])
    ensures forall c :: c in cars[..i] + cars[i + 1..] ==> c in cars
  {
    var t := cars[..i] + cars[i + 1..];
    var u := through + [cars[i]];
    assert forall p :: 0 <= p < |t| ==> t[p] == cars[if p < i then p else p + 1];
    forall p, q
      ensures Differ(t, p, q)
    {
      if 0 <= p < q < |t| {
        assert Differ(cars, if p < i then p else p + 1, if q < i then q else q + 1);
      }
    }
    forall k
      ensures Placed(laneType, t, u, k)
    {
      if 0 <= k < |t| {
        var m := if k < i then k else k + 1;
        assert Placed(laneType, cars, through, m);
        if m < i { assert Differ(cars, m, i); } else { assert Differ(cars, i, m); }
      }
    }
  }

  // ---------------------------------------------------------------- the class

  class Lane {
    const laneType: LaneType
    const orientation: Orientation
    const oncoming: Orientation
    const lToR: Orientation
    var cars: seq<Car>
    var carsThrough: seq<Car>
    var gap: real
    var light: Light
    var timeToChange: real
    /** Set by the wiring methods; null until then (the attribute does not exist yet). */
    var oncomingLane: Lane?
    var lToRLane: Lane?

    function View(): LaneView
      reads this, cars, carsThrough
    {
      LaneView(States(cars), States(carsThrough), light, timeToChange, gap)
    }

    /** No car object waits twice or after it went through, the cars are admitted, a straight
        lane is red or green. */
    ghost predicate Valid()
      reads this
    {
      Sound(laneType, light, cars, carsThrough)
    }

    /** Lane.__init__, without the back-reference to the intersection. */
    constructor (laneType: LaneType, orientation: Orientation)
      ensures Valid()
      ensures this.laneType == laneType && this.orientation == orientation
      ensures oncoming == OncomingOf(orientation) && lToR == LeftToRightOf(orientation)
      ensures cars == [] && carsThrough == [] && gap == OpenGap
      ensures light == Red && timeToChange == GreenT + ChangeLag
      ensures oncomingLane == null && lToRLane == null
    {
      this.laneType := laneType;
      this.orientation := orientation;
      match orientation {
        case North => oncoming := South; lToR := East;
        case South => oncoming := North; lToR := West;
        case West => oncoming := East; lToR := North;
        case East => oncoming := West; lToR := South;
      }
      cars := [];
      carsThrough := [];
      gap := OpenGap;
      NoLaneStartsGreen(orientation);
      if StartsGreen(orientation) {
        light := Green;
        timeToChange := GreenT;
      } else {
        light := Red;
        timeToChange := GreenT + ChangeLag;
      }
      oncomingLane := null;
      lToRLane := null;
    }

    /** get_oncoming_lane: the last straight lane of the oncoming approach. */
    method GetOncomingLane(lanes: seq<Lane>)
      modifies this`oncomingLane
      ensures var k := LastMatch(lanes, oncoming, StraightLane);
        if k >= 0 then oncomingLane == lanes[k] else oncomingLane == old(oncomingLane)
    {
      for i := 0 to |lanes|
        invariant var k := LastMatch(lanes[..i], oncoming, StraightLane);
          if k >= 0 then oncomingLane == lanes[k] else oncomingLane == old(oncomingLane)
      {
        assert lanes[..i + 1][..i] == lanes[..i];
        if lanes[i].orientation == oncoming && lanes[i].laneType == StraightLane {
          oncomingLane := lanes[i];
        }
      }
      assert lanes[..|lanes|] == lanes;
    }

    /** get_oncoming_lt_lane: the last left-turn lane of the oncoming approach, stored in the
        same field oncoming_lane. */
    method GetOncomingLtLane(lanes: seq<Lane>)
      modifies this`oncomingLane
      ensures var k := LastMatch(lanes, oncoming, LeftTurnLane);
        if k >= 0 then oncomingLane == lanes[k] else oncomingLane == old(oncomingLane)
    {
      for i := 0 to |lanes|
        invariant var k := LastMatch(lanes[..i], oncoming, LeftTurnLane);
          if k >= 0 then oncomingLane == lanes[k] else oncomingLane == old(oncomingLane)
      {
        assert lanes[..i + 1][..i] == lanes[..i];
        if lanes[i].orientation == oncoming && lanes[i].laneType == LeftTurnLane {
          oncomingLane := lanes[i];
        }
      }
      assert lanes[..|lanes|] == lanes;
    }

    /** get_l_to_r_lane: the last straight lane of the left-to-right approach. */
    method GetLToRLane(lanes: seq<Lane>)
      modifies this`lToRLane
      ensures var k := LastMatch(lanes, lToR, StraightLane);
        if k >= 0 then lToRLane == lanes[k] else lToRLane == old(lToRLane)
    {
      for i := 0 to |lanes|
        invariant var k := LastMatch(lanes[..i], lToR, StraightLane);
          if k >= 0 then lToRLane == lanes[k] else lToRLane == old(lToRLane)
      {
        assert lanes[..i + 1][..i] == lanes[..i];
        if lanes[i].orientation == lToR && lanes[i].laneType == StraightLane {
          lToRLane := lanes[i];
        }
      }
      assert lanes[..|lanes|] == lanes;
    }

    /** The body of generate_cars' loop: one car created behind the current tail. */
    method AddCar(draw: Arrival, now: real)
      requires Valid()
      modifies this
      ensures Valid()
      ensures var front := Leader(old(States(cars)));
        States(cars) == old(States(cars)) + [NewCar(front.0, front.1, ArrivalIntention(laneType, draw.r), now, draw)]
      ensures States(carsThrough) == old(States(carsThrough))
      ensures light == old(light) && timeToChange == old(timeToChange) && gap == old(gap)
      ensures |cars| == old(|cars|) + 1 && cars == old(cars) + [cars[old(|cars|)]] && fresh(cars[old(|cars|)])
      ensures carsThrough == old(carsThrough)
      ensures oncomingLane == old(oncomingLane) && lToRLane == old(lToRLane)
    {
      var frontLoc, frontSpeed;
      if cars == [] {
        frontLoc, frontSpeed := OpenRoad, OpenRoad;
      } else {
        var frontCar := cars[|cars| - 1];
        frontLoc, frontSpeed := frontCar.location, frontCar.speed;
      }
      var intention;
      if laneType == StraightLane {
        if draw.r < StraightShare() {
          intention := Straight;
        } else {
          intention := RightTurn;
        }
      } else {
        intention := LeftTurn;
      }
      ghost var carStates := States(cars);
      ghost var throughStates := States(carsThrough);
      assert (frontLoc, frontSpeed) == Leader(carStates);
      assert intention == ArrivalIntention(laneType, draw.r);
      var newCar := new Car(frontLoc, frontSpeed, intention, now, draw);
      assert States(cars) == carStates && States(carsThrough) == throughStates;
      SoundAppend(laneType, light, cars, carsThrough, newCar);
      StatesAppend(cars, newCar);
      cars := cars + [newCar];
      assert States(cars) == carStates + [NewCar(frontLoc, frontSpeed, intention, now, draw)];
      assert cars[..old(|cars|)] == old(cars);
    }

    /** generate_cars with n == |arrivals|, at time now. */
    method GenerateCars(arrivals: seq<Arrival>, now: real)
      requires Valid()
      modifies this
      ensures Valid()
      ensures View() == old(View()).(cars := Generate(old(View()).cars, laneType, arrivals, now))
      ensures |cars| == old(|cars|) + |arrivals| && old(cars) <= cars
      ensures forall k :: 0 <= k < |cars| ==> cars[k] in old(cars) || fresh(cars[k])
      ensures carsThrough == old(carsThrough)
      ensures oncomingLane == old(oncomingLane) && lToRLane == old(lToRLane)
    {
      ghost var start := States(cars);
      for i := 0 to |arrivals|
        invariant Valid()
        invariant |cars| == old(|cars|) + i && old(cars) <= cars
        invariant forall k :: 0 <= k < |cars| ==> cars[k] in old(cars) || fresh(cars[k])
        invariant States(cars) == Generate(start, laneType, arrivals[..i], now)
        invariant States(carsThrough) == old(States(carsThrough))
        invariant light == old(light) && timeToChange == old(timeToChange) && gap == old(gap)
        invariant carsThrough == old(carsThrough)
        invariant oncomingLane == old(oncomingLane) && lToRLane == old(lToRLane)
      {
        ghost var before := cars;
        ghost var states := States(cars);
        AddCar(arrivals[i], now);
        SliceSnoc(arrivals, i);
        GenerateSnoc(start, laneType, arrivals[..i], arrivals[i], now);
        PrefixSnoc(old(cars), before, cars[|cars| - 1]);
      }
      SliceAll(arrivals);
    }

    /** move_cars: every car, front to back, moved behind its predecessor's new position. */
    method MoveCars(gaps: Gaps, reacts: seq<real>)
      requires Valid()
      requires |reacts| >= |cars| && Movable(States(cars), light, gaps)
      modifies cars
      ensures States(cars) == Advance(old(States(cars)), light, timeToChange, gaps, reacts)
      ensures States(carsThrough) == old(States(carsThrough))
    {
      ghost var start := States(cars);
      ghost var through := States(carsThrough);
      ghost var moved := Advance(start, light, timeToChange, gaps, reacts);
      for i := 0 to |cars|
        invariant forall k :: 0 <= k < i ==> cars[k].State() == moved[k]
        invariant forall k :: i <= k < |cars| ==> cars[k].State() == start[k]
        invariant forall k :: 0 <= k < |carsThrough| ==> carsThrough[k].State() == through[k]
      {
        var frontLoc, frontSpeed;
        if i == 0 {
          frontLoc, frontSpeed := OpenRoad, OpenRoad;
        } else {
          var frontCar := cars[i - 1];
          frontLoc, frontSpeed := frontCar.location, frontCar.speed;
        }
        var car := cars[i];
        AdvanceFront(start, light, timeToChange, gaps, reacts, i);
        SoundApart(laneType, light, cars, carsThrough, i);
        car.Move(Chunk, frontLoc, frontSpeed, light, timeToChange, gaps, reacts[i]);
      }
    }

    /** The removal of car i by remove_cars: stamped with now and its time in the system,
        appended to cars_through, taken out of cars. */
    method RetireAt(i: nat, now: real)
      requires Valid() && i < |cars|
      modifies this, cars[i]
      ensures Valid()
      ensures cars == old(cars[..i] + cars[i + 1..]) && carsThrough == old(carsThrough + [cars[i]])
      ensures States(cars) == old(States(cars)[..i] + States(cars)[i + 1..])
      ensures States(carsThrough) == old(States(carsThrough) + [Stamp(cars[i].State(), now)])
      ensures forall k :: 0 <= k < |cars| ==> cars[k] in old(cars)
      ensures forall k :: 0 <= k < |carsThrough| ==> carsThrough[k] in old(carsThrough) || carsThrough[k] in old(cars)
      ensures light == old(light) && timeToChange == old(timeToChange) && gap == old(gap)
      ensures oncomingLane == old(oncomingLane) && lToRLane == old(lToRLane)
    {
      var car := cars[i];
      ghost var carStates := States(cars);
      ghost var throughStates := States(carsThrough);
      var rest := cars[..i] + cars[i + 1..];
      SoundApart(laneType, light, cars, carsThrough, i);
      SoundRetire(laneType, light, cars, carsThrough, i);
      assert car !in carsThrough && car !in rest;
      ghost var carState := car.State();
      car.throughTime := Some(now);
      car.duration := Some(car.throughTime.value - car.arrivalTime);
      assert car.State() == Stamp(carState, now);
      assert States(carsThrough) == throughStates;
      assert States(rest) == carStates[..i] + carStates[i + 1..] by {
        assert forall p :: 0 <= p < |rest| ==> rest[p] == cars[if p < i then p else p + 1];
      }
      StatesAppend(carsThrough, car);
      PrefixSnoc(carsThrough, carsThrough, car);
      carsThrough := carsThrough + [car];
      cars := rest;
    }

    /** remove_cars at time now, as written: see Queue.Sweep for the car it skips. */
    method RemoveCars(now: real)
      requires Valid()
      modifies this, cars
      ensures Valid()
      ensures States(cars) == Sweep(old(States(cars)), now).0
      ensures States(carsThrough) == old(States(carsThrough)) + Sweep(old(States(cars)), now).1
      ensures forall k :: 0 <= k < |cars| ==> cars[k] in old(cars)
      ensures forall k :: 0 <= k < |carsThrough| ==> carsThrough[k] in old(carsThrough) || carsThrough[k] in old(cars)
      ensures light == old(light) && timeToChange == old(timeToChange) && gap == old(gap)
      ensures oncomingLane == old(oncomingLane) && lToRLane == old(lToRLane)
    {
      ghost var swept := Sweep(States(cars), now);
      ghost var gone: seq<CarState> := [];
      ghost var n: nat := 0;
      var i := 0;
      while i < |cars|
        invariant Valid()
        invariant i == n || (i == n + 1 && n == |cars|)
        invariant SweptUpTo(swept, gone, States(cars), n, now)
        invariant States(carsThrough) == old(States(carsThrough)) + gone
        invariant forall k :: 0 <= k < |cars| ==> cars[k] in old(cars)
        invariant forall k :: 0 <= k < |carsThrough| ==> carsThrough[k] in old(carsThrough) || carsThrough[k] in old(cars)
        invariant light == old(light) && timeToChange == old(timeToChange) && gap == old(gap)
        invariant oncomingLane == old(oncomingLane) && lToRLane == old(lToRLane)
        decreases |cars| - n
      {
        ghost var before := States(cars);
        if cars[i].location < 0.0 {
          RemoveTakes(swept, gone, before, n, now);
          ghost var count := |cars|;
          ghost var stamped := Stamp(before[n], now);
          assert before[n] == cars[i].State();
          assert cars[i] in cars;
          RetireAt(i, now);
          SnocAssoc(old(States(carsThrough)), gone, stamped);
          gone := gone + [stamped];
          if n + 1 < count {
            n := n + 1;
          }
        } else {
          RemoveKeeps(swept, gone, before, n, now);
          n := n + 1;
        }
        i := i + 1;
      }
      SweptAll(swept, gone, States(cars), now);
    }

    /** The re-draw when a light turns green: the first stationary car gets the reaction
        time sample. */
    method RestartFirstStationary(sample: real)
      requires Valid()
      modifies cars
      ensures States(cars) == Restart(old(States(cars)), sample)
      ensures States(carsThrough) == old(States(carsThrough))
    {
      ghost var start := States(cars);
      var i := 0;
      while i < |cars| && cars[i].speed != 0.0
        invariant i <= |cars|
        invariant forall j :: 0 <= j < i ==> start[j].speed != 0.0
      {
        assert start[i] == cars[i].State();
        i := i + 1;
      }
      if i < |cars| {
        assert start[i] == cars[i].State();
        RestartAt(start, i, sample);
        SoundApart(laneType, light, cars, carsThrough, i);
        ghost var through := States(carsThrough);
        cars[i].react := sample;
        assert States(carsThrough) == through;
      } else {
        RestartNone(start, sample);
      }
    }

    /** The light update at the end of run_chunk, with timeToChange already lowered. */
    method SwitchLight(sample: real)
      requires Valid()
      modifies this, cars
      ensures Valid()
      ensures (Signal(light, timeToChange), States(cars))
              == LightStep(laneType, old(light), old(timeToChange), old(States(cars)), sample)
      ensures States(carsThrough) == old(States(carsThrough))
      ensures cars == old(cars) && carsThrough == old(carsThrough) && gap == old(gap)
      ensures oncomingLane == old(oncomingLane) && lToRLane == old(lToRLane)
    {
      if laneType == LeftTurnLane {
        if timeToChange <= 0.0 {
          if light == Red {
            RestartFirstStationary(sample);
            light := GreenArrow;
            timeToChange := GreenArrowT;
          } else if light == GreenArrow {
            light := Red2;
            timeToChange := ChangeLag;
          } else if light == Red2 {
            RestartFirstStationary(sample);
            light := Green;
            timeToChange := GreenArrowT;
          } else if light == Green {
            light := Red;
            timeToChange := GreenT + ChangeLag;
          }
        }
      } else {
        if light == Red {
          RestartFirstStationary(sample);
          light := Green;
          timeToChange := GreenT;
        } else if light == Green {
          light := Red;
          timeToChange := GreenT + ChangeLag + GreenArrowT + ChangeLag;
        }
      }
    }

    /** The second half of run_chunk: the countdown, the gap of the head car, the light. */
    method UpdateSignal(sample: real)
      requires Valid()
      modifies this, cars
      ensures Valid()
      ensures View() == SignalTick(old(View()), laneType, sample)
      ensures cars == old(cars) && carsThrough == old(carsThrough)
      ensures oncomingLane == old(oncomingLane) && lToRLane == old(lToRLane)
    {
      ghost var w := View();
      timeToChange := timeToChange - Chunk;
      if cars == [] || cars[0].speed == 0.0 {
        gap := OpenGap;
      } else {
        assert w.cars[0] == cars[0].State();
        gap := cars[0].location / cars[0].speed;
      }
      assert States(cars) == w.cars && States(carsThrough) == w.through;
      SwitchLight(sample);
    }

    /** The first half of run_chunk: generate_cars, move_cars, remove_cars. */
    method MoveTraffic(gaps: Gaps, d: Draws, now: real)
      requires Valid() && Ready(View(), laneType, d)
      modifies this, cars
      ensures Valid()
      ensures View() == TrafficTick(old(View()), laneType, gaps, d, now)
      ensures oncomingLane == old(oncomingLane) && lToRLane == old(lToRLane)
      ensures forall k :: 0 <= k < |cars| ==> cars[k] in old(cars) || fresh(cars[k])
      ensures forall k :: 0 <= k < |carsThrough| ==>
                carsThrough[k] in old(carsThrough) || carsThrough[k] in old(cars) || fresh(carsThrough[k])
    {
      ghost var v := View();
      GeneratedMovable(v, laneType, d, gaps, now);
      GenerateAndMove(gaps, d, now);
      RemoveCars(now);
      assert View() == TrafficTick(v, laneType, gaps, d, now);
    }

    /** generate_cars followed by move_cars. */
    method GenerateAndMove(gaps: Gaps, d: Draws, now: real)
      requires Valid() && Ready(View(), laneType, d)
      modifies this, cars
      ensures Valid()
      ensures View() == old(View()).(cars := Moved(old(View()), laneType, gaps, d, now))
      ensures oncomingLane == old(oncomingLane) && lToRLane == old(lToRLane)
      ensures forall k :: 0 <= k < |cars| ==> cars[k] in old(cars) || fresh(cars[k])
      ensures carsThrough == old(carsThrough)
    {
      ghost var v := View();
      GeneratedMovable(v, laneType, d, gaps, now);
      GenerateCars(d.arrivals, now);
      MoveCars(gaps, d.reacts);
    }

    /** Lane.run_chunk at time now. The gaps of the wired lanes are read once, before this
        lane changes anything; Car.move reads the same values for every car. */
    method RunChunk(d: Draws, now: real)
      requires Valid() && oncomingLane != null && lToRLane != null
      requires Ready(View(), laneType, d)
      modifies this, cars
      ensures Valid()
      ensures View() == LaneTick(old(View()), laneType, Gaps(old(oncomingLane.gap), old(lToRLane.gap), None), d, now)
      ensures oncomingLane == old(oncomingLane) && lToRLane == old(lToRLane)
      ensures forall k :: 0 <= k < |cars| ==> cars[k] in old(cars) || fresh(cars[k])
      ensures forall k :: 0 <= k < |carsThrough| ==>
                carsThrough[k] in old(carsThrough) || carsThrough[k] in old(cars) || fresh(carsThrough[k])
    {
      var gaps := Gaps(oncomingLane.gap, lToRLane.gap, None);
      MoveTraffic(gaps, d, now);
      UpdateSignal(d.firstReact);
    }
  }

  /** Index of the last lane of orientation o and type t in lanes, or -1. */
  function LastMatch(lanes: seq<Lane>, o: Orientation, t: LaneType): (k: int)
    ensures -1 <= k < |lanes|
    ensures k >= 0 ==> lanes[k].orientation == o && lanes[k].laneType == t
    ensures forall j :: k < j < |lanes| ==> !(lanes[j].orientation == o && lanes[j].laneType == t)
    decreases |lanes|
  {
    if lanes == [] then -1
    else if lanes[|lanes| - 1].orientation == o && lanes[|lanes| - 1].laneType == t then |lanes| - 1
    else LastMatch(lanes[..|lanes| - 1], o, t)
  }
}

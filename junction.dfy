/** The Intersection class of traffic2.py: eight lanes built in a fixed order, wired to their
    conflicting lanes, and run one after another every tick. */
module Junction {
  import opened Types
  import opened Config
  import opened Kinematics
  import opened Cars
  import opened Queue
  import opened Lights
  import opened Layout
  import opened Lanes

  // ---------------------------------------------------------------- one tick on values

  /** Lane views and draws for every slot, each lane ready for its tick. */
  predicate Prepared(vs: seq<LaneView>, ds: seq<Draws>)
  {
    |vs| == LaneCount && |ds| == LaneCount
    && forall i :: 0 <= i < LaneCount ==> Ready(vs[i], SlotType(i), ds[i])
  }

  /** The gaps lane i reads when it runs: the oncoming left-turn lane's and the
      left-to-right straight lane's, as they stand in p at that moment. */
  function GapsFor(p: seq<LaneView>, i: nat): (g: Gaps)
    requires |p| == LaneCount && i < LaneCount
    ensures g.oncomingLeftTurn == None
  {
    Gaps(p[OncomingIndex(i)].gap, p[LToRIndex(i)].gap, None)
  }

  /** The lane views after lane i alone has run its chunk on p, reading its gaps from p. */
  function RunAt(p: seq<LaneView>, i: nat, d: Draws, now: real): (r: seq<LaneView>)
    requires |p| == LaneCount && i < LaneCount && Ready(p[i], SlotType(i), d)
    ensures |r| == LaneCount
    ensures forall j :: 0 <= j < LaneCount && j != i ==> r[j] == p[j]
  {
    p[i := LaneTick(p[i], SlotType(i), GapsFor(p, i), d, now)]
  }

  /** The lane views after lanes 0 .. k-1 have run their chunk, in list order, at time now. */
  function TickUpTo(vs: seq<LaneView>, ds: seq<Draws>, now: real, k: nat): (r: seq<LaneView>)
    requires Prepared(vs, ds) && k <= LaneCount
    ensures |r| == LaneCount
    ensures forall j :: k <= j < LaneCount ==> r[j] == vs[j]
    decreases k
  {
    if k == 0 then vs
    else
      RunAt(TickUpTo(vs, ds, now, k - 1), k - 1, ds[k - 1], now)
  }

  /** Intersection.run_chunk on values: every lane in list order. */
  function Tick(vs: seq<LaneView>, ds: seq<Draws>, now: real): (r: seq<LaneView>)
    requires Prepared(vs, ds)
  {
    TickUpTo(vs, ds, now, LaneCount)
  }

  /** q differs from p at most in lane i. */
  predicate OnlyLaneChanges(p: seq<LaneView>, q: seq<LaneView>, i: nat)
  {
    |p| == LaneCount && |q| == LaneCount
    && forall j :: 0 <= j < LaneCount && j != i ==> q[j] == p[j]
  }

  /** In a chain of stages where stage m differs from stage m-1 at most in lane m-1, a lane
      keeps the value it got at its own stage. */
  lemma {:induction false} ChainSettles(st: seq<seq<LaneView>>, i: nat, k: nat)
    requires |st| == LaneCount + 1 && i < k < |st|
    requires forall m :: 0 <= m < |st| ==> |st[m]| == LaneCount
    requires forall m {:trigger st[m]} :: 0 < m < |st| ==> OnlyLaneChanges(st[m - 1], st[m], m - 1)
    ensures st[k][i] == st[i + 1][i]
    decreases k
  {
    if k > i + 1 {
      assert OnlyLaneChanges(st[k - 1], st[k], k - 1);
      ChainSettles(st, i, k - 1);
    }
  }

  /** The intersection after each prefix of the lanes has run. */
  function Stages(vs: seq<LaneView>, ds: seq<Draws>, now: real): (st: seq<seq<LaneView>>)
    requires Prepared(vs, ds)
    ensures |st| == LaneCount + 1
    ensures forall m :: 0 <= m <= LaneCount ==> st[m] == TickUpTo(vs, ds, now, m)
  {
    seq(LaneCount + 1, m requires 0 <= m <= LaneCount => TickUpTo(vs, ds, now, m))
  }

  /** The stages of a tick start at the old views and end at the tick, and stage m differs
      from stage m - 1 at most in lane m - 1: the lane that ran in pass m - 1. */
  lemma StagesChain(vs: seq<LaneView>, ds: seq<Draws>, now: real)
    requires Prepared(vs, ds)
    ensures Stages(vs, ds, now)[0] == vs && Stages(vs, ds, now)[LaneCount] == Tick(vs, ds, now)
    ensures forall m :: 0 <= m < |Stages(vs, ds, now)| ==> |Stages(vs, ds, now)[m]| == LaneCount
    ensures forall m {:trigger Stages(vs, ds, now)[m]} :: 0 < m < |Stages(vs, ds, now)| ==>
      OnlyLaneChanges(Stages(vs, ds, now)[m - 1], Stages(vs, ds, now)[m], m - 1)
  {
  }

  /** A lane that has run is not touched by the lanes after it. */
  lemma LaneSettles(vs: seq<LaneView>, ds: seq<Draws>, now: real, i: nat, k: nat)
    requires Prepared(vs, ds) && i < k <= LaneCount
    ensures TickUpTo(vs, ds, now, k)[i] == TickUpTo(vs, ds, now, i + 1)[i]
  {
    StagesChain(vs, ds, now);
    ChainSettles(Stages(vs, ds, now), i, k);
  }

  /** Lane i ends the tick as one Lane.run_chunk of its own view, with the gaps it saw when its
      turn came. */
  lemma TickLane(vs: seq<LaneView>, ds: seq<Draws>, now: real, i: nat)
    requires Prepared(vs, ds) && i < LaneCount
    ensures Tick(vs, ds, now)[i]
         == LaneTick(vs[i], SlotType(i), GapsFor(TickUpTo(vs, ds, now, i), i), ds[i], now)
  {
    LaneSettles(vs, ds, now, i, LaneCount);
  }

  /** The gap of lane j as lane i sees it: already updated this tick when j runs before i,
      still last tick's otherwise. */
  function SeenGap(vs: seq<LaneView>, ds: seq<Draws>, now: real, i: nat, j: nat): real
    requires Prepared(vs, ds) && i < LaneCount && j < LaneCount
  {
    if j < i then Tick(vs, ds, now)[j].gap else vs[j].gap
  }

  /** Same-tick reads follow list order: lane i reads the new gap of a conflicting lane
      listed before it and the old gap of one listed after it. */
  lemma GapReadOrder(vs: seq<LaneView>, ds: seq<Draws>, now: real, i: nat)
    requires Prepared(vs, ds) && i < LaneCount
    ensures GapsFor(TickUpTo(vs, ds, now, i), i)
         == Gaps(SeenGap(vs, ds, now, i, OncomingIndex(i)), SeenGap(vs, ds, now, i, LToRIndex(i)), None)
  {
    var p := TickUpTo(vs, ds, now, i);
    var j := OncomingIndex(i);
    var m := LToRIndex(i);
    if j < i {
      LaneSettles(vs, ds, now, j, i);
      LaneSettles(vs, ds, now, j, LaneCount);
    }
    if m < i {
      LaneSettles(vs, ds, now, m, i);
      LaneSettles(vs, ds, now, m, LaneCount);
    }
  }

  /** The order is not symmetric: the north left-turn lane answers to the south left-turn
      lane's gap of the previous tick, while the south one sees the north one's gap of this
      tick. */
  lemma OpposedLeftTurnsDisagree(vs: seq<LaneView>, ds: seq<Draws>, now: real)
    requires Prepared(vs, ds)
    ensures GapsFor(TickUpTo(vs, ds, now, 0), 0).oncoming == vs[4].gap
    ensures GapsFor(TickUpTo(vs, ds, now, 4), 4).oncoming == Tick(vs, ds, now)[0].gap
  {
    WiringTable();
    GapReadOrder(vs, ds, now, 0);
    GapReadOrder(vs, ds, now, 4);
  }

  // ---------------------------------------------------------------- conservation

  /** Cars a lane view accounts for, waiting or through. */
  function Size(v: LaneView): nat
  {
    |v.cars| + |v.through|
  }

  function Population(vs: seq<LaneView>): nat
  {
    if vs == [] then 0 else Population(vs[..|vs| - 1]) + Size(vs[|vs| - 1])
  }

  function Arrived(ds: seq<Draws>): nat
  {
    if ds == [] then 0 else Arrived(ds[..|ds| - 1]) + |ds[|ds| - 1].arrivals|
  }

  /** Replacing one lane changes the population by the difference in that lane's size. */
  lemma {:induction false} PopulationUpdate(vs: seq<LaneView>, i: nat, x: LaneView)
    requires i < |vs|
    ensures Population(vs[i := x]) + Size(vs[i]) == Population(vs) + Size(x)
    decreases |vs|
  {
    var n := |vs| - 1;
    var ws := vs[i := x];
    assert ws[..n] == if i == n then vs[..n] else vs[..n][i := x];
    if i < n {
      PopulationUpdate(vs[..n], i, x);
    }
  }

  /** One lane's chunk adds exactly its arrivals to the intersection's population. */
  lemma StepConserves(p: seq<LaneView>, d: Draws, now: real, i: nat)
    requires |p| == LaneCount && i < LaneCount && Ready(p[i], SlotType(i), d)
    ensures Population(RunAt(p, i, d, now)) == Population(p) + |d.arrivals|
  {
    TickConserves(p[i], SlotType(i), GapsFor(p, i), d, now);
    PopulationUpdate(p, i, LaneTick(p[i], SlotType(i), GapsFor(p, i), d, now));
  }

  lemma TickUpToStep(vs: seq<LaneView>, ds: seq<Draws>, now: real, k: nat)
    requires Prepared(vs, ds) && 0 < k <= LaneCount
    ensures Population(TickUpTo(vs, ds, now, k)) == Population(TickUpTo(vs, ds, now, k - 1)) + |ds[k - 1].arrivals|
  {
    StepConserves(TickUpTo(vs, ds, now, k - 1), ds[k - 1], now, k - 1);
  }

  lemma ArrivedStep(base: nat, before: nat, after: nat, ds: seq<Draws>, k: nat)
    requires 0 < k <= |ds|
    requires before == base + Arrived(ds[..k - 1]) && after == before + |ds[k - 1].arrivals|
    ensures after == base + Arrived(ds[..k])
  {
    assert ds[..k][..k - 1] == ds[..k - 1];
  }

  /** After lanes 0 .. k-1 ran, the intersection holds its old cars and every arrival of
      those lanes. */
  lemma {:induction false} TickUpToConserves(vs: seq<LaneView>, ds: seq<Draws>, now: real, k: nat)
    requires Prepared(vs, ds) && k <= LaneCount
    ensures Population(TickUpTo(vs, ds, now, k)) == Population(vs) + Arrived(ds[..k])
    decreases k
  {
    if k > 0 {
      TickUpToConserves(vs, ds, now, k - 1);
      TickUpToStep(vs, ds, now, k);
      ArrivedStep(Population(vs), Population(TickUpTo(vs, ds, now, k - 1)), Population(TickUpTo(vs, ds, now, k)), ds, k);
    }
  }

  /** One intersection tick loses no car: every car is still waiting, through, or just
      arrived. */
  lemma TickConservesAll(vs: seq<LaneView>, ds: seq<Draws>, now: real)
    requires Prepared(vs, ds)
    ensures Population(Tick(vs, ds, now)) == Population(vs) + Arrived(ds)
  {
    TickUpToConserves(vs, ds, now, LaneCount);
    assert ds[..LaneCount] == ds;
  }

  /** Every lane is still well formed after the tick. */
  lemma TickKeepsAllWellFormed(vs: seq<LaneView>, ds: seq<Draws>, now: real)
    requires Prepared(vs, ds)
    ensures forall i :: 0 <= i < LaneCount ==> WellFormed(Tick(vs, ds, now)[i], SlotType(i))
  {
    forall i | 0 <= i < LaneCount
      ensures WellFormed(Tick(vs, ds, now)[i], SlotType(i))
    {
      TickLane(vs, ds, now, i);
      TickKeepsWellFormed(vs[i], SlotType(i), GapsFor(TickUpTo(vs, ds, now, i), i), ds[i], now);
    }
  }

  // ---------------------------------------------------------------- the class

  /** Lanes of different slots are different objects. */
  lemma SlotsDistinct(i: nat, j: nat)
    requires i < LaneCount && j < LaneCount && i != j
    ensures SlotOrientation(i) != SlotOrientation(j) || SlotType(i) != SlotType(j)
  {
    if SlotOrientation(i) == SlotOrientation(j) && SlotType(i) == SlotType(j) {
      SlotUnique(i, SlotOrientation(i), SlotType(i));
      SlotUnique(j, SlotOrientation(i), SlotType(i));
    }
  }

  /** The lanes are laid out slot by slot: lane j has the orientation and type of slot j. */
  predicate Kinds(ls: seq<Lane>)
  {
    |ls| == LaneCount
    && forall j :: 0 <= j < LaneCount ==>
         ls[j].orientation == SlotOrientation(j) && ls[j].laneType == SlotType(j)
         && ls[j].oncoming == OncomingOf(ls[j].orientation) && ls[j].lToR == LeftToRightOf(ls[j].orientation)
  }

  /** Lanes laid out slot by slot are distinct objects. */
  lemma KindsDistinct(ls: seq<Lane>, i: nat)
    requires Kinds(ls) && i < LaneCount
    ensures forall j :: 0 <= j < LaneCount && j != i ==> ls[j] != ls[i]
  {
    forall j | 0 <= j < LaneCount && j != i
      ensures ls[j] != ls[i]
    {
      SlotsDistinct(i, j);
    }
  }

  /** In lanes laid out slot by slot, the last lane of a kind is the one in its slot. */
  lemma LastMatchIsSlot(ls: seq<Lane>, o: Orientation, t: LaneType)
    requires Kinds(ls)
    ensures LastMatch(ls, o, t) == SlotIndex(o, t)
  {
    var k := LastMatch(ls, o, t);
    var s := SlotIndex(o, t);
    assert ls[s].orientation == o && ls[s].laneType == t;
    SlotUnique(k, o, t);
  }

  /** Lane i sits in its slot, is valid, and is wired to the lanes whose gaps it reads. */
  ghost predicate Slotted(ls: seq<Lane>, i: int)
    reads ls
  {
    |ls| == LaneCount && 0 <= i < LaneCount ==>
      ls[i].Valid() && ls[i].oncomingLane == ls[OncomingIndex(i)] && ls[i].lToRLane == ls[LToRIndex(i)]
  }

  /** No car waiting in lane i is held, waiting or through, by another lane j. */
  ghost predicate Apart(ls: seq<Lane>, i: int, j: int)
    reads ls
  {
    0 <= i < |ls| && 0 <= j < |ls| && i != j ==>
      forall k :: 0 <= k < |ls[i].cars| ==> ls[i].cars[k] !in ls[j].cars && ls[i].cars[k] !in ls[j].carsThrough
  }

  /** Every car any lane holds. */
  ghost function Held(ls: seq<Lane>): set<Car>
    reads ls
  {
    set i, c | 0 <= i < |ls| && c in ls[i].cars + ls[i].carsThrough :: c
  }

  lemma HeldHas(ls: seq<Lane>, i: nat)
    requires i < |ls|
    ensures forall c :: c in ls[i].cars || c in ls[i].carsThrough ==> c in Held(ls)
  {
    forall c | c in ls[i].cars || c in ls[i].carsThrough
      ensures c in Held(ls)
    {
      assert c in ls[i].cars + ls[i].carsThrough;
    }
  }

  /** The view of lane i, read within the footprint of all lanes. */
  ghost function ViewAt(ls: seq<Lane>, i: nat): LaneView
    requires i < |ls|
    reads ls, Held(ls)
  {
    HeldHas(ls, i);
    ls[i].View()
  }

  class Intersection {
    var lanes: seq<Lane>
    var elapsedSecs: real

    ghost predicate Valid()
      reads this`lanes, lanes
    {
      Kinds(lanes)
      && (forall i {:trigger Slotted(lanes, i)} :: Slotted(lanes, i))
      && (forall i, j {:trigger Apart(lanes, i, j)} :: Apart(lanes, i, j))
    }

    /** The lanes as values, in list order. */
    ghost function Views(): (vs: seq<LaneView>)
      reads this`lanes, lanes, Held(lanes)
      ensures |vs| == |lanes|
      ensures forall i {:trigger vs[i]} :: 0 <= i < |lanes| ==> vs[i] == lanes[i].View()
    {
      var ls := lanes;
      seq(|ls|, i requires 0 <= i < |ls| reads ls, Held(ls) => ViewAt(ls, i))
    }

    /** Intersection.__init__: one lane per orientation and, inside, per lane type; then each
        lane in list order runs get_oncoming_lane, get_oncoming_lt_lane and get_l_to_r_lane. */
    constructor ()
      ensures Valid() && elapsedSecs == 0.0
      ensures forall i :: 0 <= i < LaneCount ==> fresh(lanes[i])
      ensures forall i :: 0 <= i < LaneCount ==> Views()[i] == LaneView([], [], Red, GreenT + ChangeLag, OpenGap)
    {
      var ls := NewLanes();
      lanes := ls;
      elapsedSecs := 0.0;
      new;
      WireLanes(ls);
      forall j | 0 <= j < LaneCount
        ensures Slotted(lanes, j) && lanes[j].cars == [] && lanes[j].carsThrough == []
      {
        assert AsBuilt(ls[j]);
      }
      forall a, b ensures Apart(lanes, a, b) {
        if 0 <= a < LaneCount {
          assert lanes[a].cars == [];
        }
      }
      forall j | 0 <= j < LaneCount
        ensures Views()[j] == LaneView([], [], Red, GreenT + ChangeLag, OpenGap)
      {
        assert AsBuilt(ls[j]);
        assert Views()[j] == lanes[j].View();
      }
    }

    /** The nested loops of Intersection.__init__: Lane(t, o) for each orientation o and,
        inside, each lane type t. */
    static method NewLanes() returns (ls: seq<Lane>)
      ensures Kinds(ls)
      ensures forall j :: 0 <= j < LaneCount ==> AsBuilt(ls[j]) && fresh(ls[j])
    {
      ls := [];
      for oi := 0 to |Orientations|
        invariant |ls| == |LaneTypes| * oi
        invariant forall j :: 0 <= j < |ls| ==> ls[j].orientation == SlotOrientation(j) && ls[j].laneType == SlotType(j)
                                                && ls[j].oncoming == OncomingOf(ls[j].orientation) && ls[j].lToR == LeftToRightOf(ls[j].orientation)
        invariant forall j :: 0 <= j < |ls| ==> AsBuilt(ls[j]) && fresh(ls[j])
      {
        for ti := 0 to |LaneTypes|
          invariant |ls| == |LaneTypes| * oi + ti
          invariant forall j :: 0 <= j < |ls| ==> ls[j].orientation == SlotOrientation(j) && ls[j].laneType == SlotType(j)
                                                  && ls[j].oncoming == OncomingOf(ls[j].orientation) && ls[j].lToR == LeftToRightOf(ls[j].orientation)
          invariant forall j :: 0 <= j < |ls| ==> AsBuilt(ls[j]) && fresh(ls[j])
        {
          var lane := new Lane(LaneTypes[ti], Orientations[oi]);
          ls := ls + [lane];
          assert AsBuilt(ls[|ls| - 1]);
        }
      }
    }

    /** The wiring loop of Intersection.__init__: each lane, in list order, runs
        get_oncoming_lane, then get_oncoming_lt_lane (which overwrites what the first set),
        then get_l_to_r_lane. */
    static method WireLanes(ls: seq<Lane>)
      requires Kinds(ls)
      requires forall j :: 0 <= j < LaneCount ==> AsBuilt(ls[j])
      modifies ls
      ensures forall j :: 0 <= j < LaneCount ==> AsBuilt(ls[j])
      ensures forall j :: 0 <= j < LaneCount ==>
                ls[j].oncomingLane == ls[OncomingIndex(j)] && ls[j].lToRLane == ls[LToRIndex(j)]
    {
      for i := 0 to LaneCount
        invariant forall j :: 0 <= j < LaneCount ==> AsBuilt(ls[j])
        invariant forall j :: 0 <= j < i ==> ls[j].oncomingLane == ls[OncomingIndex(j)] && ls[j].lToRLane == ls[LToRIndex(j)]
      {
        KindsDistinct(ls, i);
        WireLane(ls, i, ls[i]);
      }
    }

    /** Intersection.run_chunk: every lane runs its chunk in list order, all at the current
        elapsed time, then the clock advances by one chunk. */
    method RunChunk(ds: seq<Draws>)
      requires Valid() && Prepared(Views(), ds)
      modifies this, lanes, Held(lanes)
      ensures Valid() && lanes == old(lanes)
      ensures Views() == Tick(old(Views()), ds, old(elapsedSecs))
      ensures elapsedSecs == old(elapsedSecs) + Chunk
    {
      RunLanes(ds, elapsedSecs);
      Advance();
    }

    /** The clock step at the end of run_chunk; the lanes are untouched. */
    method Advance()
      requires Valid()
      modifies this`elapsedSecs
      ensures elapsedSecs == old(elapsedSecs) + Chunk
      ensures Valid() && Views() == old(Views())
    {
      elapsedSecs := elapsedSecs + Chunk;
    }

    /** The loop of run_chunk, at time now. */
    method RunLanes(ds: seq<Draws>, now: real)
      requires Valid() && Prepared(Views(), ds)
      modifies lanes, Held(lanes)
      ensures Valid()
      ensures Views() == Tick(old(Views()), ds, now)
    {
      ghost var start := Views();
      forall j | 0 <= j < LaneCount
        ensures forall c :: c in lanes[j].cars ==> c in Held(lanes)
      {
        HeldHas(lanes, j);
      }
      for i := 0 to LaneCount
        invariant Valid()
        invariant Views() == TickUpTo(start, ds, now, i)
        invariant forall j :: i <= j < LaneCount ==> lanes[j].cars == old(lanes[j].cars)
      {
        RunStep(ds, now, start, i);
      }
    }

    /** Pass i of the loop of run_chunk advances the intersection from TickUpTo(i) to
        TickUpTo(i + 1). */
    method RunStep(ds: seq<Draws>, now: real, ghost start: seq<LaneView>, i: nat)
      requires Prepared(start, ds) && i < LaneCount
      requires Valid() && Views() == TickUpTo(start, ds, now, i)
      modifies lanes[i], lanes[i].cars
      ensures Valid() && Views() == TickUpTo(start, ds, now, i + 1)
      ensures forall j :: 0 <= j < LaneCount && j != i ==> lanes[j].cars == old(lanes[j].cars)
    {
      RunLane(i, ds[i], now);
    }

    /** When lane i alone has run its chunk, the lanes are still slotted, valid, wired and
        apart: the lane's new cars are its old ones or newly created, and the cars it sent
        through were its own. */
    twostate lemma KeepsLayout(i: nat)
      requires old(Valid()) && unchanged(this) && i < LaneCount
      requires lanes[i].Valid() && lanes[i].oncomingLane == old(lanes[i].oncomingLane) && lanes[i].lToRLane == old(lanes[i].lToRLane)
      requires forall j :: 0 <= j < LaneCount && j != i ==> unchanged(lanes[j])
      requires forall k :: 0 <= k < |lanes[i].cars| ==> lanes[i].cars[k] in old(lanes[i].cars) || fresh(lanes[i].cars[k])
      requires forall k :: 0 <= k < |lanes[i].carsThrough| ==>
                 lanes[i].carsThrough[k] in old(lanes[i].carsThrough) || lanes[i].carsThrough[k] in old(lanes[i].cars)
                 || fresh(lanes[i].carsThrough[k])
      ensures Valid()
    {
      var ls := lanes;
      forall j | 0 <= j < LaneCount
        ensures Slotted(ls, j)
      {
        assert old(Slotted(ls, j));
      }
      forall a, b | 0 <= a < LaneCount && 0 <= b < LaneCount && a != b
        ensures Apart(ls, a, b)
      {
        assert old(Apart(ls, a, b)) && old(Apart(ls, b, a));
      }
    }

    /** When only lane i and the cars it held have changed, every other lane shows the same
        view: none of its cars, waiting or through, was held by lane i. */
    twostate lemma OthersKeepViews(i: nat)
      requires old(Valid()) && unchanged(this) && i < LaneCount
      requires forall j :: 0 <= j < LaneCount && j != i ==> unchanged(lanes[j])
      requires forall c: Car :: old(allocated(c)) && c !in old(lanes[i].cars) ==> unchanged(c)
      ensures forall j :: 0 <= j < LaneCount && j != i ==> lanes[j].View() == old(lanes[j].View())
    {
      var ls := lanes;
      forall j | 0 <= j < LaneCount && j != i
        ensures ls[j].View() == old(ls[j].View())
      {
        assert old(Apart(ls, i, j)) && old(Apart(ls, j, i));
        assert forall k :: 0 <= k < |ls[j].cars| ==> unchanged(ls[j].cars[k]);
        forall k | 0 <= k < |ls[j].carsThrough|
          ensures unchanged(ls[j].carsThrough[k])
        {
          var c := ls[j].carsThrough[k];
          assert c == old(ls[j].carsThrough[k]);
          assert forall m :: 0 <= m < |old(ls[i].cars)| ==> old(ls[i].cars[m]) != c;
          assert c !in old(ls[i].cars);
        }
        assert States(ls[j].cars) == old(States(ls[j].cars));
        assert States(ls[j].carsThrough) == old(States(ls[j].carsThrough));
      }
    }

    /** The views after lane i alone changed. */
    twostate lemma ViewsAfterLane(i: nat)
      requires unchanged(this) && Kinds(lanes) && i < LaneCount
      requires forall j :: 0 <= j < LaneCount && j != i ==> lanes[j].View() == old(lanes[j].View())
      ensures Views() == old(Views())[i := lanes[i].View()]
    {
    }

    /** One pass of run_chunk's loop: lane i runs its chunk, reading the gaps its wired lanes
        show at that moment; no other lane changes. */
    method RunLane(i: nat, d: Draws, now: real)
      requires Valid() && i < LaneCount && Ready(Views()[i], SlotType(i), d)
      modifies lanes[i], lanes[i].cars
      ensures Valid()
      ensures Views() == RunAt(old(Views()), i, d, now)
      ensures forall j :: 0 <= j < LaneCount && j != i ==> lanes[j].cars == old(lanes[j].cars)
    {
      var lane := lanes[i];
      ghost var p := Views();
      assert Slotted(lanes, i);
      KindsDistinct(lanes, i);
      assert lane.View() == p[i];
      assert lane.oncomingLane.gap == p[OncomingIndex(i)].gap && lane.lToRLane.gap == p[LToRIndex(i)].gap;
      lane.RunChunk(d, now);
      OthersKeepViews(i);
      ViewsAfterLane(i);
      KeepsLayout(i);
    }

    /** One pass of the wiring loop. */
    static method WireLane(ls: seq<Lane>, i: nat, lane: Lane)
      requires Kinds(ls) && i < LaneCount && lane == ls[i]
      modifies lane`oncomingLane, lane`lToRLane
      ensures lane.oncomingLane == ls[OncomingIndex(i)] && lane.lToRLane == ls[LToRIndex(i)]
    {
      LastMatchIsSlot(ls, lane.oncoming, LeftTurnLane);
      LastMatchIsSlot(ls, lane.lToR, StraightLane);
      lane.GetOncomingLane(ls);
      lane.GetOncomingLtLane(ls);
      lane.GetLToRLane(ls);
    }
  }

  /** The queue, light, countdown and gap of a lane as Lane.__init__ leaves them; the wiring
      fields are not part of it. */
  ghost predicate AsBuilt(l: Lane)
    reads l`cars, l`carsThrough, l`gap, l`light, l`timeToChange
  {
    l.cars == [] && l.carsThrough == [] && l.gap == OpenGap && l.light == Red && l.timeToChange == GreenT + ChangeLag
  }
}

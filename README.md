# Traffic intersection simulation: a Dafny model of the per-tick core

`traffic2.py` simulates a four-way junction in 0.1-second ticks. There are eight lanes, a
left-turn lane and a straight lane for each of north, west, south and east. Each tick, every
lane runs three passes over its queue and then updates its light:

- `generate_cars` creates the new arrivals behind the tail car.
- `move_cars` moves each car with `Car.move`, front to back.
- `remove_cars` takes the cars that have crossed the stop line.

A turning car decides whether to go by reading the "gap" of a conflicting lane: the seconds
until that lane's head car reaches the line.

This project models that core at two levels:

- **Values.** Car states, lane views and the whole intersection are datatypes, with one function
  per pass. These are `Kinematics`, `Queue`, `Lights`, the `LaneTick` function of `Lanes`, and
  the `Tick` function of `Junction`.
- **Objects.** `Cars.Car`, `Lanes.Lane` and `Junction.Intersection` are the source's three
  classes. Their fields are updated in place by methods with the source's loops. Each method is
  proved to leave exactly the state the value-level function computes from the old state.

The properties are proved as lemmas about those functions:

- spawn placement, and the accelerate, decelerate and clamp branches
- the intention-by-light decision table
- the left-turn light cycle, and the through-lane toggle with its first-stationary re-draw
- conservation of cars, the order of surviving cars, and departure stamps
- the car `remove_cars` skips, and the gap's if-and-only-if
- the lane-order dependence of same-tick gap reads

Module layout:

| module | file | models |
|---|---|---|
| `Config` | config.dfy | the module-level constants |
| `Types` | types.dfy | the string tags as datatypes; the random draws as records |
| `Kinematics` | kinematics.dfy | `Car.__init__` and `Car.move` on values |
| `Cars` | car.dfy | class `Car` |
| `Layout` | layout.dfy | orientations, conflicting approaches, lane order |
| `Queue` | queue.dfy | `generate_cars`, `move_cars`, `remove_cars`, the gap, the reaction re-draw on values |
| `Lights` | lights.dfy | the light update of `Lane.run_chunk` |
| `Lanes` | lanes.dfy | one lane tick on values, and class `Lane` |
| `Junction` | junction.dfy | one intersection tick on values, and class `Intersection` |

Several behaviours of the code are modelled as written rather than corrected:

- **Straight lanes flip every tick.** A straight lane's light has no countdown test
  (`traffic2.py:288-298`).
- **No lane starts green.** The initial-green test compares an orientation with `"ns"` and
  `"sn"`, which no orientation is named (`Layout.NoLaneStartsGreen`).
- **Left turns read the oncoming left-turn lane.** `get_oncoming_lt_lane` stores into
  `oncoming_lane`, overwriting what `get_oncoming_lane` set just before.
- **`oncoming_lt_lane` is never set.** The model passes `None` for that gap and proves it is
  never read: a right-turning car is only ever in a straight lane, which is never under a green
  arrow.
- **Redundant light tests.** The tests at `traffic2.py:81`, `97`, `102` and `122` have the form
  `X or (X and Y)`; the model keeps both disjuncts.
- **`remove_cars` skips a car.** It removes from the list it iterates over, so the car after
  each removed one is never examined.
- **Gap reads follow lane order.** Lanes run in list order within a tick, so a lane sees this
  tick's gap of a conflicting lane listed before it and last tick's gap of one listed after it.

Random draws are inputs to the model:

- An `Arrival` record per new car.
- One reaction sample per car for `Car.move`'s re-draw.
- One sample for the first stationary car when a light turns green.

The number of arrivals `n` is the length of the arrival sequence.

## Model

| member | source | states |
|---|---|---|
| Config.StraightShare | traffic2.py:215-221 | the share of straight cars among a straight lane's arrivals lies strictly between 0 and 1 |
| Kinematics.Spawn | traffic2.py:58-62 | a new car is at least at DefaultStart and at least the safe distance behind the car in front; it is at exactly one of the two, and takes the front car's speed exactly when pushed back |
| Kinematics.NewCar | traffic2.py:46-62 | the constructed car has the requested intention, arrival time now, no stamps, and the spawn placement |
| Kinematics.Decide | traffic2.py:77-149 | the full intention-by-light decision table, with both oncoming-gap and left-to-right-gap tests; a car coasts exactly when it turns right under red2 |
| Kinematics.Travel | traffic2.py:83 | the trapezoidal distance is non-negative for non-negative speeds and time |
| Kinematics.SpeedUp | traffic2.py:82-83 | the new speed is min(top speed, speed + chunk * acceleration), the car advances the trapezoid distance, and nothing else changes |
| Kinematics.Deceleration | traffic2.py:89 | the deceleration satisfies v^2 = u^2 + 2as to rest at location 1, and is non-positive short of it |
| Kinematics.SlowDown | traffic2.py:89-92 | the new speed is non-negative, the car advances the trapezoid distance, and nothing else changes |
| Kinematics.Clamp | traffic2.py:151-155 | after the clamp the car is outside the safety envelope; a car inside it is put at its edge at the front car's speed, any other car is unchanged |
| Kinematics.Step | traffic2.py:65-155 | a reacting car ends outside the envelope; a blocked car is unchanged; a waiting car only counts its reaction time down; draws and stamps never change |
| Kinematics.AccelerateBranch | traffic2.py:82-83 | on Accel the speed is the capped sum and the distance is (u + v) / 2 * chunk |
| Kinematics.BrakeBranch | traffic2.py:84-92 | on Decel short of the line, the speed stays in [0, start speed] and the car does not move back |
| Kinematics.CoastBranch | traffic2.py:119-149 | a right-turning car under red2 keeps speed and location before the clamp |
| Cars.Car.constructor | traffic2.py:46-62 | the new object holds NewCar of its inputs |
| Cars.Car.Accelerate | traffic2.py:82-83 | the car's new state is SpeedUp of its old state |
| Cars.Car.Decelerate | traffic2.py:89-92 | the car's new state is SlowDown of its old state |
| Cars.Car.Respond | traffic2.py:77-149 | the car's new state is its old state driven by the Decide action |
| Cars.Car.Move | traffic2.py:65-155 | the car's new state is Step of its old state |
| Layout.OrientationName | traffic2.py:164-175 | each orientation's name has at least four characters |
| Layout.NoLaneStartsGreen | traffic2.py:178-183 | no orientation passes the "ns"/"sn" test, so every lane starts red |
| Layout.ConflictGeometry | traffic2.py:164-175 | oncoming is an involution without fixed points; left-to-right is a third approach, and applied twice it gives the oncoming one |
| Layout.SlotIndex | traffic2.py:305-312 | the slot of (o, t) in creation order holds orientation o and type t |
| Layout.SlotUnique | traffic2.py:309-312 | each (orientation, type) pair occupies exactly one slot |
| Layout.OncomingIndex | traffic2.py:185-193 | a lane's wired oncoming lane is the left-turn lane of the oncoming approach |
| Layout.LToRIndex | traffic2.py:195-198 | a lane's left-to-right lane is the straight lane of the left-to-right approach |
| Layout.WiringTable | traffic2.py:185-198 | the full wiring table of the eight lanes; no lane is wired to itself |
| Lights.LeftTurnNext | traffic2.py:266-287 | each left-turn transition changes the light and sets a positive duration |
| Lights.LeftTurnCycle | traffic2.py:266-287 | the left-turn cycle is red, green arrow, red2, green, and closes after four steps |
| Lights.LightStepTable | traffic2.py:260-298 | the light update's full table: left-turn lanes change only at countdown <= 0 and re-draw on entering a green; straight lanes toggle red/green on every call |
| Lights.LightStepMovesNoCar | traffic2.py:266-298 | the light update changes only a reaction time, and only that of the first stationary car |
| Lights.StraightLaneAlternates | traffic2.py:288-298 | two consecutive calls bring a straight lane back to its light, with the two fixed durations |
| Queue.ArrivalIntention | traffic2.py:215-223 | left-turn lanes get only left turns; in a straight lane a car goes straight iff r < StraightShare |
| Queue.Generate | traffic2.py:200-225 | generation appends one car per arrival, keeps the old cars as a prefix, and gives new cars their drawn intention, arrival time now and location >= DefaultStart |
| Queue.GeneratePrefix | traffic2.py:206-225 | generating the first j arrivals gives the prefix of generating all of them |
| Queue.GenerateSpacing | traffic2.py:58-62 | each new car is NewCar placed behind the tail at its creation, at least the safe distance behind it |
| Queue.AdvancePrefix | traffic2.py:227-237 | moving a prefix of the queue gives a prefix of moving the whole queue |
| Queue.AdvanceAt | traffic2.py:227-237 | car k is moved once, behind car k - 1's new state |
| Queue.AdvanceFront | traffic2.py:228-237 | the head car moves behind open road; car k moves behind car k - 1 after its move |
| Queue.AdvanceSpacing | traffic2.py:151-155 | after move_cars every reacting car keeps its safe distance behind its predecessor's new position |
| Queue.AdvanceKeepsIdentity | traffic2.py:65-155 | moving changes no car's draws, arrival time or stamps |
| Queue.Stamp | traffic2.py:243-244 | a departing car is stamped with the current time and duration now minus arrival, and nothing else changes |
| Queue.Sweep | traffic2.py:240-246 | kept plus through cars number the input cars; every car sent through has crossed the line and is stamped |
| Queue.Gone | traffic2.py:241-242 | the examined crossed cars have all crossed the line |
| Queue.SweepStampsGone | traffic2.py:241-245 | cars_through receives exactly the examined crossed cars, in order, each stamped with now |
| Queue.SweepPartitions | traffic2.py:240-246 | no car is lost or duplicated: the kept cars and the examined crossed cars are, as a multiset, the input cars |
| Queue.SweepKeepsOrder | traffic2.py:240-246 | the surviving cars keep their order |
| Queue.SweepKeepsApproaching | traffic2.py:240-246 | every car short of the line stays in the lane |
| Queue.SweepSkipsFollower | traffic2.py:240-246 | when the head car is removed, the next car stays unexamined whatever its location |
| Queue.SweepLeavesCrossedCar | traffic2.py:240-246 | two crossed cars in a row: only the first is removed |
| Queue.GapOf | traffic2.py:261-264 | gap * head speed = head location when the head moves; the gap is 1000 iff the lane is empty, the head is stopped, or the head is exactly 1000 seconds out |
| Queue.FirstStationary | traffic2.py:270-272 | the index of the first car with speed 0, or None when no car has speed 0 |
| Queue.Restart | traffic2.py:270-272 | only the first stationary car changes, and only its reaction time becomes the sample |
| Queue.RestartNone | traffic2.py:290-293 | with no stopped car, the re-draw changes nothing |
| Lanes.GeneratedMovable | traffic2.py:139-141 | after generate_cars every car can be moved, and the never-assigned oncoming_lt_lane gap is never read |
| Lanes.MovedAdmitted | traffic2.py:215-237 | generate_cars and move_cars only admit cars of the lane's intentions |
| Lanes.KeptAdmitted | traffic2.py:240-246 | remove_cars only keeps cars it was given |
| Lanes.TickConserves | traffic2.py:256-259 | a lane tick conserves the count: waiting plus through grows by the arrivals |
| Lanes.TickPartitions | traffic2.py:256-259 | after remove_cars the lane's cars and the examined crossed cars are the moved cars as a multiset, and cars_through is extended by those crossed cars, stamped, in order |
| Lanes.TickRecordsThrough | traffic2.py:240-246 | cars_through only grows; every car added has crossed and carries this tick's stamps |
| Lanes.TickGap | traffic2.py:261-264 | the reported gap describes the cars as they stand after the tick, with the 1000 iff |
| Lanes.TickKeepsWellFormed | traffic2.py:256-298 | a tick keeps intentions admitted, and a straight lane red or green |
| Lanes.RemoveKeeps | traffic2.py:241-242 | the removal invariant survives a kept car |
| Lanes.RemoveTakes | traffic2.py:242-246 | the removal invariant survives a removed car, skipping its successor |
| Lanes.SweptAll | traffic2.py:241-246 | at the end of the removal loop, the kept and through lists are Sweep's |
| Lanes.LastMatch | traffic2.py:185-198 | the index of the last lane of a given orientation and type, or -1 |
| Lanes.Lane.constructor | traffic2.py:159-183 | the new lane is empty, red, counting down green_t + change_lag, gap 1000, with the source's conflict approaches and unwired |
| Lanes.Lane.GetOncomingLane | traffic2.py:185-188 | oncoming_lane becomes the last straight lane of the oncoming approach, if any |
| Lanes.Lane.GetOncomingLtLane | traffic2.py:190-193 | oncoming_lane becomes the last left-turn lane of the oncoming approach, if any |
| Lanes.Lane.GetLToRLane | traffic2.py:195-198 | l_to_r_lane becomes the last straight lane of the left-to-right approach, if any |
| Lanes.Lane.AddCar | traffic2.py:207-225 | one new car object is appended, holding NewCar behind the tail; nothing else changes |
| Lanes.Lane.GenerateCars | traffic2.py:200-225 | the lane's view becomes Generate of its old cars |
| Lanes.Lane.MoveCars | traffic2.py:227-237 | the cars' states become Advance of their old states |
| Lanes.Lane.RetireAt | traffic2.py:242-246 | car i is stamped, appended to cars_through and taken out of cars |
| Lanes.Lane.RemoveCars | traffic2.py:240-246 | the cars become Sweep's kept cars; cars_through grows by Sweep's stamped cars |
| Lanes.Lane.RestartFirstStationary | traffic2.py:270-272 | the cars' states become Restart of their old states |
| Lanes.Lane.SwitchLight | traffic2.py:266-298 | light, countdown and cars become LightStep of the old ones |
| Lanes.Lane.UpdateSignal | traffic2.py:260-298 | the lane's view becomes SignalTick of its old view |
| Lanes.Lane.MoveTraffic | traffic2.py:257-259 | the lane's view becomes TrafficTick of its old view |
| Lanes.Lane.GenerateAndMove | traffic2.py:257-258 | the lane's cars become generated-then-moved cars |
| Lanes.Lane.RunChunk | traffic2.py:256-298 | the lane's view becomes LaneTick of its old view, with the wired lanes' gaps as read when the lane runs |
| Junction.RunAt | traffic2.py:321-322 | running lane i changes lane i only |
| Junction.TickUpTo | traffic2.py:320-322 | after the first k lanes have run, the lanes from k on are untouched |
| Junction.ChainSettles | traffic2.py:321-322 | in a chain of single-lane changes, a lane keeps the value it got at its own stage |
| Junction.StagesChain | traffic2.py:320-322 | the stages of a tick start at the old views and end at the tick, and pass m changes lane m only |
| Junction.LaneSettles | traffic2.py:321-322 | a lane that has run is not touched by the lanes after it |
| Junction.TickLane | traffic2.py:321-322 | each lane ends the tick as one Lane.run_chunk of its own view, with the gaps it saw when its turn came |
| Junction.GapReadOrder | traffic2.py:321-322 | a lane reads this tick's gap of a conflicting lane before it, and last tick's gap of one after it |
| Junction.OpposedLeftTurnsDisagree | traffic2.py:321-322 | north left turns see south's old gap, while south left turns see north's new one |
| Junction.StepConserves | traffic2.py:321-322 | one lane's chunk adds exactly its arrivals to the intersection's car count |
| Junction.TickUpToStep | traffic2.py:321-322 | pass k adds lane k's arrivals to the count |
| Junction.TickUpToConserves | traffic2.py:320-322 | after k lanes, the count is the old count plus their arrivals |
| Junction.TickConservesAll | traffic2.py:320-323 | across one intersection tick, waiting plus through cars equal the old count plus all arrivals |
| Junction.TickKeepsAllWellFormed | traffic2.py:320-322 | every lane is still well formed after an intersection tick |
| Junction.SlotsDistinct | traffic2.py:309-312 | two slots differ in orientation or type |
| Junction.KindsDistinct | traffic2.py:309-312 | lanes laid out slot by slot are distinct objects |
| Junction.LastMatchIsSlot | traffic2.py:313-316 | in creation order, the last lane of a kind is the one in its slot |
| Junction.Intersection.constructor | traffic2.py:304-318 | eight fresh, wired, empty, red lanes at elapsed time 0 |
| Junction.Intersection.NewLanes | traffic2.py:309-312 | the nested loops create fresh lane i with orientation i / 2 and type i % 2, empty, red, with gap 1000 |
| Junction.Intersection.WireLanes | traffic2.py:313-316 | after wiring, each lane's oncoming lane is the oncoming left-turn lane and its left-to-right lane is the left-to-right straight lane |
| Junction.Intersection.WireLane | traffic2.py:314-316 | one lane's three wiring calls leave it wired to those lanes |
| Junction.Intersection.RunChunk | traffic2.py:320-323 | the lanes' views become Tick of the old views at the old time, and the clock advances by one chunk |
| Junction.Intersection.Advance | traffic2.py:323 | the clock advances by one chunk and the lanes are untouched |
| Junction.Intersection.RunLanes | traffic2.py:321-322 | the loop over the lanes leaves the views at Tick of the old ones |
| Junction.Intersection.RunStep | traffic2.py:321-322 | pass i of the loop moves the views from TickUpTo(i) to TickUpTo(i + 1) |
| Junction.Intersection.RunLane | traffic2.py:322 | lane i runs its chunk with its wired lanes' current gaps, and no other lane changes |
| Junction.Intersection.KeepsLayout | traffic2.py:321-322 | after one lane's chunk, the lanes are still slotted, valid, wired and hold disjoint cars |
| Junction.Intersection.OthersKeepViews | traffic2.py:321-322 | one lane's chunk leaves every other lane's view unchanged |
| Junction.Intersection.ViewsAfterLane | traffic2.py:321-322 | the views after one lane's chunk differ from the old ones in that lane only |

## Left out

- The random distributions (Poisson arrivals, normal car parameters, exponential reaction times)
  and `np.random` are left out. Their draws are inputs: `Arrival` records, `Draws.reacts` and
  `Draws.firstReact`.
- The arrival rate `L` and `Intersection.L` only feed the Poisson draw, so they are not modelled
  beyond the constant.
- `Intersection.simulate`, the driver loops over light settings, the plotting and
  `Lane.print_status` are outside the per-tick core.
- `Intersection.cars_through` is filled only by `simulate`, so it is left out. The per-lane
  `cars_through` is modelled.
- Floating point is modelled as exact reals, so IEEE rounding of locations, speeds and the gap
  division is not captured.
- The back-references `Car.lane` and `Lane.intersection` are left out. `Car.move` takes the
  gaps and the clock as parameters, and `Lane.run_chunk` takes the elapsed time.
- Gap reads: `Car.move` reads the conflicting lanes' gaps when a car needs them. The model reads
  them once per lane tick; the values are equal because no lane writes its gap during its own
  generate, move and remove passes.
- Lanes.Lane.RunChunk: requires the lane already wired, with `oncomingLane` and `lToRLane` not
  null. In the source, an unwired lane whose car reads a gap raises an attribute error; the
  model does not capture that failure.
- Cars.Car.Move: requires the car not to be at location 1, whatever branch it takes. Only the
  braking branches divide by `location - 1` (`traffic2.py:89`, `109`, `114`, `134`, `146`), so
  the requirement also excludes a car at exactly 1 that would accelerate or coast without error.
  The same requirement is on Cars.Car.Respond, Kinematics.Step and Lanes.Ready. The braking path's
  division by zero is not modelled.
- Kinematics.Step: requires that a right-turning car under a green arrow has an oncoming
  left-turn gap. In the source that read fails, because `oncoming_lt_lane` is never assigned.
  `Lanes.GeneratedMovable` proves the case never arises.
- Junction.Intersection.RunChunk: requires each lane to have one reaction sample per car after
  generation (`Lanes.Ready`). The source draws them as it goes, so the requirement always holds
  there.

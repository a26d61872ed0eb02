# SCATS-style adaptive signal control, modelled in Dafny

This project models the adaptive traffic-signal controller in `SCATS/Imple_SCATS.py`. The
controller runs beside a traffic simulator. Once per signal cycle it chooses, for each
controlled traffic light, which predefined timing program the light runs next. It works in
five steps:

1. **Detector map** (`get_e1`): a map from each controlled lane to the id of its induction-loop
   (e1) detector.
2. **Program catalogue** (`program_split`): for every program of a light, the split of its
   cycle among the phases and the cycle duration.
3. **Occupancy accumulation** (`occu_info`): on every simulation step, each lane's detector
   occupancy is added to a per-phase accumulator.
4. **Saturation commit**: at each phase switch, a degree of saturation
   `1 - max(accumulated occupancy) / phase duration` is stored in a per-light table under a
   phase counter. `is_a_cycle` then tells whether the counter has reached the running program's
   phase count.
5. **Plan choice** (`infer_all_candidate`): at the end of a cycle, the controller estimates the
   saturation every other program would have produced and keeps the program with the strictly
   smallest estimate.

The modules follow these steps:

| module (file) | models |
|---|---|
| `ScatsTypes` (scats_types.dfy) | ids, detector records, program logics |
| `Detectors` (detectors.dfy) | `get_e1` |
| `ProgramCatalogue` (catalogue.dfy) | `program_split` |
| `Occupancy` (occupancy.dfy) | `occu_info` |
| `Saturation` (saturation.dfy) | `construct_DS`, `is_a_cycle`, the `max` and the committed value |
| `Projection` (projection.dfy) | `infer_all_candidate` |
| `Controller` (controller.dfy) | `run`: its setup and the per-step body for every light |

`get_e1`, `program_split`, `occu_info`, `infer_all_candidate` and the setup loops of `run` are
modelled as methods with loops. `GetE1`'s loop is proved against the predicate `IsDetectorMap`.
Each other loop is proved equal to a recursive specification function, and the properties are
proved about that function. `construct_DS` and `is_a_cycle` are modelled as recursive functions
whose contracts state their results. `run`'s dicts are grouped by light:
- `Controller.Light` holds what never changes: the controlled lanes, the detector map, the
  program logics and the catalogue.
- `Controller.LightState` holds what `run` updates: the phase counter, the last switch time,
  the saturation table, the accumulators and the program set on the simulator.

The class `Controller.ScatsController` keeps a map from light id to `LightState` and updates it
in place, one simulation step per call of `Tick`.

Everything the simulator provides becomes an input:
- the controlled lanes, the detector records of the detector file and the program logics
  (a program id and its phase durations), passed to the constructor;
- the program the simulator has loaded when the tables are built, passed to the constructor;
- the time, each light's next switch time and phase duration, and each detector's occupancy
  reading for the step, passed to `Tick`.

The program set on a light is the field `program`. Python floats are exact `real`s. A missing
key, an index out of range, a division by zero or `max` of an empty dict stops the program with
an exception, so the model requires the absence of each as a precondition.

### Behaviour kept as the code has it

Several behaviours of the code look unintended. The model keeps each of them as the code has it:

- `sum(DS_each_phase)` adds up the saturation table's keys (phase indices), not its values
  (Imple_SCATS.py:86). `Projection.SumKeys` computes that sum, and `Projection.InferAllCandidate`
  starts its scan from it.
- The projected estimate of a candidate runs over the candidate's phase count, once for every
  logic with the candidate's id (Imple_SCATS.py:95-99).
- `construct_DS` advances its index once per logic, not once per phase (Imple_SCATS.py:67-72).
  The initial table therefore has a key only at the position of each logic that runs the loaded
  program and has phases.
- The phase counter is incremented when a phase starts, so the commits of a cycle land at keys
  1 to n when the run starts at time 0 or 1 and steps one second at a time
  (Imple_SCATS.py:150, 153, 162). The projection reads keys 0 to n-1.
- The saturation table is never cleared. At the end of a cycle only the counter is reset
  (Imple_SCATS.py:165).
- The tables are built while the simulator runs the program it loaded. Only after that is every
  light switched to program "0" (Imple_SCATS.py:132, 138).

## Model

| member | source | states |
|---|---|---|
| Detectors.LastOnLane | SCATS/Imple_SCATS.py:22-26 | the detector kept for a lane is a record on that lane with no later record on the same lane |
| Detectors.GetE1 | SCATS/Imple_SCATS.py:13-29 | every key is a controlled lane that some detector sits on; every controlled lane with a detector is a key; each value is the id of the last detector record on that lane |
| Detectors.ExtendDetectorMap | SCATS/Imple_SCATS.py:25-26 | one loop step (overwrite when the lane is controlled) keeps the map a detector map of the records read so far |
| Detectors.CoveredLanesAreKeys | SCATS/Imple_SCATS.py:20-29 | when every controlled lane has a detector, the keys are exactly the controlled lanes |
| ProgramCatalogue.SplitOf | SCATS/Imple_SCATS.py:42 | the split list has one entry per phase |
| ProgramCatalogue.SplitTimesCycle | SCATS/Imple_SCATS.py:42 | each split times the cycle duration gives back the phase duration |
| ProgramCatalogue.SplitsSumToOne | SCATS/Imple_SCATS.py:38-42 | the splits of a program with phases and a non-zero cycle add up to exactly 1 |
| ProgramCatalogue.SumScaled | SCATS/Imple_SCATS.py:41-42 | dividing every duration by the cycle divides their sum by the cycle |
| ProgramCatalogue.LastLogic | SCATS/Imple_SCATS.py:36-43 | a found logic is one of the logics and has the requested program id |
| ProgramCatalogue.LastLogicFound | SCATS/Imple_SCATS.py:36-43 | a logic is found exactly when some logic has the id |
| ProgramCatalogue.LastLogicIsLast | SCATS/Imple_SCATS.py:42-43 | the found logic is the last one with that id, the entry that dict updates keep |
| ProgramCatalogue.ProgramSplit | SCATS/Imple_SCATS.py:32-44 | the two dicts, with their key order, equal the catalogue built by adding the logics in list order |
| ProgramCatalogue.CatalogueKeys | SCATS/Imple_SCATS.py:42-43 | both dicts and the key order hold exactly the program ids that occur among the logics |
| ProgramCatalogue.CatalogueOrderDistinct | SCATS/Imple_SCATS.py:42-43 | each program id occurs once in the key order |
| ProgramCatalogue.CatalogueValues | SCATS/Imple_SCATS.py:37-43 | an id's cycle duration is the sum of the phase durations of its last logic, and its split is those durations over that sum |
| ProgramCatalogue.CatalogueSplitSumsToOne | SCATS/Imple_SCATS.py:36-43 | every catalogued program with phases has splits that add up to 1 |
| Occupancy.AccumulatedAt | SCATS/Imple_SCATS.py:50-52 | occu_info keeps the key set, and each key grows by its reading once per counted position |
| Occupancy.CoveredWhenAllPresent | SCATS/Imple_SCATS.py:52 | when every controlled lane has an accumulator, a detector and a reading, no lookup fails |
| Occupancy.OccuInfo | SCATS/Imple_SCATS.py:47-55 | the walk with the repeated-lane tracker yields exactly the accumulated dict |
| Occupancy.WalkedIsAccumulated | SCATS/Imple_SCATS.py:50-55 | the whole walk equals the accumulated dict |
| Occupancy.GainIsRunsTimes | SCATS/Imple_SCATS.py:50-54 | a lane gains its reading times the number of its positions that follow a different lane |
| Occupancy.RunsSnoc | SCATS/Imple_SCATS.py:51-54 | appending a lane counts it again exactly when it differs from the lane before it, so a non-consecutive repeat counts again |
| Occupancy.RepeatAddsNothing | SCATS/Imple_SCATS.py:51-54 | a lane listed twice in a row is added once |
| Occupancy.RunsOfAbsentLane | SCATS/Imple_SCATS.py:50 | a lane that is not controlled is never counted |
| Occupancy.DistinctLanesCountedOnce | SCATS/Imple_SCATS.py:49-54 | with distinct controlled lanes, each one with a non-empty name is counted exactly once (a lane named "" at the head of the list matches the tracker's start value and is skipped) |
| Occupancy.UncontrolledUnchanged | SCATS/Imple_SCATS.py:50-52 | the key set is kept and an accumulator of a lane that is not controlled is unchanged |
| Occupancy.AccumulatedGrows | SCATS/Imple_SCATS.py:52 | with non-negative occupancies no accumulator decreases |
| Occupancy.DistinctLanesGainOneReading | SCATS/Imple_SCATS.py:52 | with distinct controlled lanes, each controlled lane with a non-empty name, an accumulator, a detector and a reading grows by exactly its detector's occupancy / 100 |
| Saturation.ConstructDS | SCATS/Imple_SCATS.py:58-73 | a key exists exactly at the position of a logic that runs the active program and has phases, and every value is 0 |
| Saturation.ConstructDSSingleEntry | SCATS/Imple_SCATS.py:67-72 | with distinct program ids, when the active program's logic has phases, the table is the single entry 0 at that logic's position |
| Saturation.ConstructDSEmpty | SCATS/Imple_SCATS.py:68-72 | when no logic with phases runs the active program, the table is empty |
| Saturation.IsACycle | SCATS/Imple_SCATS.py:76-82 | true exactly when some logic of the active program has exactly phase_count phases |
| Saturation.Peak | SCATS/Imple_SCATS.py:162 | the largest value is a value of the dict and is at least every value |
| Saturation.MaxValue | SCATS/Imple_SCATS.py:162 | the result is a value of the dict, at least every value, and equals Peak |
| Saturation.SaturationBounds | SCATS/Imple_SCATS.py:162 | with a non-negative peak and a positive duration the committed value is at most 1; it is at least 0 when the peak does not exceed the duration |
| Saturation.SaturationOneIffIdle | SCATS/Imple_SCATS.py:162 | with non-negative accumulators the committed value is 1 exactly when every accumulator is 0 |
| Projection.SetSumRemove | SCATS/Imple_SCATS.py:86 | the sum of a key set does not depend on the order the keys are taken in |
| Projection.SumKeys | SCATS/Imple_SCATS.py:86 | `sum` of the table is the sum of its keys |
| Projection.Scan | SCATS/Imple_SCATS.py:91-103 | the scan's best never rises above its starting best |
| Projection.ScanResult | SCATS/Imple_SCATS.py:91-103 | the result is the starting pick or a scanned candidate other than the running program, with its own estimate, strictly below the start |
| Projection.ScanIsMinimum | SCATS/Imple_SCATS.py:101-103 | the chosen estimate is at most the estimate of every scanned candidate |
| Projection.ScanKeepsCurrentIff | SCATS/Imple_SCATS.py:89-103 | the running program is kept exactly when no candidate's estimate is strictly below the start |
| Projection.ScanFirstOfTies | SCATS/Imple_SCATS.py:101-103 | a change lands on a candidate before which every other candidate is strictly worse, so ties keep the earlier choice |
| Projection.SoleProgramKept | SCATS/Imple_SCATS.py:91-93 | a catalogue holding only the running program returns it with the starting estimate |
| Projection.ChoiceIsCheapest | SCATS/Imple_SCATS.py:85-104 | the running program is kept iff no candidate's projection is below the sum of the table's keys; otherwise the choice is a catalogued program whose projection is below that sum and no larger than any candidate's |
| Projection.InferAllCandidate | SCATS/Imple_SCATS.py:85-104 | returns the program of the greedy choice over the catalogue order |
| Projection.ProjectCandidate | SCATS/Imple_SCATS.py:93-99 | a candidate's estimate is the sum, over its logics in list order, of the terms of each logic's phases |
| Projection.AddPhases | SCATS/Imple_SCATS.py:97-99 | the inner loop adds `DS[i] * split_cur[i] * cycle_cur / (split_cand[i] * cycle_cand)` for i below the candidate's phase count |
| Controller.Zeros | SCATS/Imple_SCATS.py:139 | a zero accumulator for exactly the lanes of the detector map |
| Controller.StepEffects | SCATS/Imple_SCATS.py:144-171 | a starting phase bumps the counter and clears the accumulators before the readings; a switch records the switch time and commits 1 - peak / duration under the counter; a cycle end restarts the counter at 0 |
| Controller.StepKeepsInvariant | SCATS/Imple_SCATS.py:144-171 | every step keeps one accumulator per detector lane, a non-negative counter and a running program that is the baseline or a catalogued one |
| Controller.StepKeepsTable | SCATS/Imple_SCATS.py:159-165 | the saturation table is never cleared: it keeps its keys, gains at most the counter's key, and is unchanged without a switch |
| Controller.ProgramChangesOnlyAtCycleEnd | SCATS/Imple_SCATS.py:159-171 | the program changes only at a switch that ends a cycle, and the counter is then 0 |
| Controller.StepSaturationAtMostOne | SCATS/Imple_SCATS.py:150-162 | non-negative readings keep the accumulators non-negative, and then a positive phase duration commits a value of at most 1 |
| Controller.DetectorMaps | SCATS/Imple_SCATS.py:112-115 | every light gets a detector map of its controlled lanes |
| Controller.Catalogues | SCATS/Imple_SCATS.py:117-122 | every light gets the catalogue of its program logics |
| Controller.ConstructAllDS | SCATS/Imple_SCATS.py:58-73 | every light gets the initial table of the program loaded on it, and no other id gets one |
| Controller.InitialStates | SCATS/Imple_SCATS.py:133-139 | every light starts with counter 0, switch time 0, zero accumulators and program "0" |
| Controller.SetUp | SCATS/Imple_SCATS.py:112-139 | the configuration and initial state of every light as run builds them, and no state for any other id |
| Controller.ScatsController.constructor | SCATS/Imple_SCATS.py:112-139 | the controller starts valid, in the initial state built from the detector file and the loaded programs |
| Controller.Advance | SCATS/Imple_SCATS.py:145-171 | one light's loop body yields exactly that light's step |
| Controller.AtSwitch | SCATS/Imple_SCATS.py:159-171 | the switch branch yields exactly the step: commit, then at a cycle end reset the counter and switch to the chosen program |
| Controller.StepAll | SCATS/Imple_SCATS.py:144-171 | each light ends in its own step from its own old state, and no light is added or removed |
| Controller.ScatsController.Tick | SCATS/Imple_SCATS.py:144-171 | the controller stays valid; each light's new state is its step from its old state, so one light's step leaves the others untouched |

## Left out

- Simulator I/O: each simulator call and the detector-file parse becomes an input. These are
  `getControlledLanes`, `getAllProgramLogics`, `getProgram`, `getLastStepOccupancy`,
  `getNextSwitch`, `getPhaseDuration`, `simulationStep`, `getTime` and `sumolib.output.parse`.
  `setProgram` becomes the `program` field.
- The outer loop `while getMinExpectedNumber() > 0` (Imple_SCATS.py:140-142) is left out. It
  depends on the simulator's vehicles. A caller calls `Tick` once per simulation step.
- The `print` calls (Imple_SCATS.py:169-170) are logging only.
- `get_options`, `ensure_dir` and the `__main__` block are left out. They parse the command
  line and start and stop the simulator.
- Floating-point rounding is not modelled. Durations, times, occupancies and saturations are
  exact reals, so the splits add up to exactly 1.
- A phase's state string and its min and max durations play no part in the code, so a phase is
  just its duration.
- Controller.ScatsController.constructor: requires distinct light ids. With a repeated id, run
  would step that light more than once per simulation step. The model does not cover that.
- Controller.StepAll: requires distinct light ids, for the same reason.
- Controller.ScatsController.Tick: requires every light's step to be defined. A missing key, a
  zero divisor or `max` of an empty dict raises an exception in the source, which ends the run.

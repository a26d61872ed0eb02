/** The control loop of run: the setup of the per-light tables and the per-step update of each
    traffic light (phase start, occupancy accumulation, saturation commit at a phase switch and
    the program choice at the end of a cycle). The simulator is not modelled: what run asks of
    it each step (the time, each light's next switch time and phase duration, each detector's
    occupancy) is passed in, and the program it sets on a light is the field `program`. */
module Controller {
  import opened ScatsTypes
  import opened Detectors
  import opened ProgramCatalogue
  import opened Occupancy
  import opened Saturation
  import opened Projection

  /** The program every light is switched to at the start of the run. */
  const BaselineProgram: ProgramId := "0"

  /** What run knows of one light and never changes: its controlled lanes, its lane-to-detector
      map, its program logics and their split catalogue. */
  datatype Light = Light(lanes: seq<Lane>, e1s: map<Lane, DetectorId>, logics: seq<Logic>, catalogue: Catalogue)

  /** What run keeps of one light and updates step by step: the phase counter, the time of the
      last phase switch, the saturation table, the occupancy accumulators and the running program. */
  datatype LightState = LightState(phaseCount: int, lastSwitch: real, ds: map<int, real>,
                                   occupancy: map<Lane, real>, program: ProgramId)

  /** An accumulator of 0 for each lane with a detector. */
  function Zeros(keys: set<Lane>): (z: map<Lane, real>)
    ensures z.Keys == keys && forall k :: k in z ==> z[k] == 0.0
  {
    map k | k in keys :: 0.0
  }

  /** The first step of a phase: one step after the last switch, or time 0. */
  predicate PhaseStarts(s: LightState, now: real)
  {
    s.lastSwitch + 1.0 == now || now == 0.0
  }

  /** The state once a starting phase has been counted and its accumulators cleared. */
  function Started(cfg: Light, s: LightState, now: real): LightState
  {
    if PhaseStarts(s, now) then s.(phaseCount := s.phaseCount + 1, occupancy := Zeros(cfg.e1s.Keys)) else s
  }

  /** The accumulators after this step's readings. */
  function Gathered(cfg: Light, s: LightState, now: real, readings: map<DetectorId, real>): map<Lane, real>
  {
    Accumulated(Started(cfg, s, now).occupancy, cfg.lanes, cfg.e1s, readings)
  }

  /** The saturation table after a phase switch: the value for the counted phase is replaced. */
  ghost function Committed(cfg: Light, s: LightState, now: real, phaseDuration: real,
                           readings: map<DetectorId, real>): map<int, real>
    requires phaseDuration != 0.0 && |Gathered(cfg, s, now, readings)| > 0
  {
    var s1 := Started(cfg, s, now);
    s1.ds[s1.phaseCount := PhaseSaturation(Peak(Gathered(cfg, s, now, readings)), phaseDuration)]
  }

  /** The step can be taken without a missing key, a division by zero or max of an empty dict:
      every lane read has an accumulator, a detector and a reading; at a switch the phase
      duration is not zero and the light has accumulators; at the end of a cycle every candidate
      program's estimate can be computed. */
  ghost predicate StepDefined(cfg: Light, s: LightState, now: real, nextSwitch: real, phaseDuration: real,
                              readings: map<DetectorId, real>)
  {
    var s1 := Started(cfg, s, now);
    && Covered(s1.occupancy, cfg.e1s, cfg.lanes, readings)
    && (nextSwitch == now ==>
          && phaseDuration != 0.0
          && |Gathered(cfg, s, now, readings)| > 0
          && (IsACycle(cfg.logics, s.program, s1.phaseCount) ==>
                CandidatesDefined(Committed(cfg, s, now, phaseDuration, readings), cfg.logics, cfg.catalogue, s.program)))
  }

  /** One step of run for one light. */
  ghost function Step(cfg: Light, s: LightState, now: real, nextSwitch: real, phaseDuration: real,
                      readings: map<DetectorId, real>): LightState
    requires StepDefined(cfg, s, now, nextSwitch, phaseDuration, readings)
  {
    var s1 := Started(cfg, s, now);
    var occ := Gathered(cfg, s, now, readings);
    if nextSwitch != now then s1.(occupancy := occ)
    else
      var ds := Committed(cfg, s, now, phaseDuration, readings);
      if IsACycle(cfg.logics, s.program, s1.phaseCount) then
        LightState(0, nextSwitch, ds, occ, Choice(ds, cfg.logics, cfg.catalogue, s.program).program)
      else
        LightState(s1.phaseCount, nextSwitch, ds, occ, s.program)
  }

  /** What run keeps true of every light: one accumulator per lane with a detector, a phase
      counter that is not negative, and a running program that is the baseline or one of the
      light's catalogued programs. */
  predicate LightInvariant(cfg: Light, s: LightState)
  {
    && s.occupancy.Keys == cfg.e1s.Keys
    && s.phaseCount >= 0
    && (s.program == BaselineProgram || s.program in cfg.catalogue.order)
  }

  /** Every step keeps the light invariant: in particular run only ever switches a light to one
      of the programs of its own catalogue. */
  lemma StepKeepsInvariant(cfg: Light, s: LightState, now: real, nextSwitch: real, phaseDuration: real,
                           readings: map<DetectorId, real>)
    requires LightInvariant(cfg, s)
    requires StepDefined(cfg, s, now, nextSwitch, phaseDuration, readings)
    ensures LightInvariant(cfg, Step(cfg, s, now, nextSwitch, phaseDuration, readings))
  {
    var s1 := Started(cfg, s, now);
    assert Gathered(cfg, s, now, readings).Keys == s1.occupancy.Keys;
    if nextSwitch == now && IsACycle(cfg.logics, s.program, s1.phaseCount) {
      var ds := Committed(cfg, s, now, phaseDuration, readings);
      ChoiceIsCheapest(ds, cfg.logics, cfg.catalogue, s.program);
    }
  }

  /** What a step does to the counter, the switch time and the accumulators: a starting phase
      counts one more phase and clears the accumulators before this step's readings are added; a
      switch records the switch time and commits one minus the largest accumulator over the phase
      duration under the counted phase; a switch that ends a cycle restarts the counter at 0. */
  lemma StepEffects(cfg: Light, s: LightState, now: real, nextSwitch: real, phaseDuration: real,
                    readings: map<DetectorId, real>)
    requires StepDefined(cfg, s, now, nextSwitch, phaseDuration, readings)
    ensures var t, count := Step(cfg, s, now, nextSwitch, phaseDuration, readings),
                            s.phaseCount + (if PhaseStarts(s, now) then 1 else 0);
            && t.occupancy == Accumulated(if PhaseStarts(s, now) then Zeros(cfg.e1s.Keys) else s.occupancy,
                                          cfg.lanes, cfg.e1s, readings)
            && t.lastSwitch == (if nextSwitch == now then now else s.lastSwitch)
            && t.phaseCount == (if nextSwitch == now && IsACycle(cfg.logics, s.program, count) then 0 else count)
            && (nextSwitch == now ==>
                  count in t.ds && t.ds[count] == 1.0 - Peak(t.occupancy) / phaseDuration)
  {
  }

  /** The saturation table is never cleared: every key it had stays, and a switch adds at most
      the key of the counted phase. */
  lemma StepKeepsTable(cfg: Light, s: LightState, now: real, nextSwitch: real, phaseDuration: real,
                       readings: map<DetectorId, real>)
    requires StepDefined(cfg, s, now, nextSwitch, phaseDuration, readings)
    ensures var t := Step(cfg, s, now, nextSwitch, phaseDuration, readings);
            && s.ds.Keys <= t.ds.Keys
            && t.ds.Keys <= s.ds.Keys + {Started(cfg, s, now).phaseCount}
            && (nextSwitch != now ==> t.ds == s.ds)
  {
  }

  /** The running program changes only at a phase switch that ends a cycle, and then the phase
      counter restarts at 0. */
  lemma ProgramChangesOnlyAtCycleEnd(cfg: Light, s: LightState, now: real, nextSwitch: real, phaseDuration: real,
                                     readings: map<DetectorId, real>)
    requires StepDefined(cfg, s, now, nextSwitch, phaseDuration, readings)
    ensures var t := Step(cfg, s, now, nextSwitch, phaseDuration, readings);
            t.program != s.program ==>
              nextSwitch == now && IsACycle(cfg.logics, s.program, Started(cfg, s, now).phaseCount) && t.phaseCount == 0
  {
  }

  /** With non-negative detector readings the accumulators stay non-negative, and with a
      positive phase duration the saturation committed at a switch is at most 1. */
  lemma StepSaturationAtMostOne(cfg: Light, s: LightState, now: real, nextSwitch: real, phaseDuration: real,
                                readings: map<DetectorId, real>)
    requires StepDefined(cfg, s, now, nextSwitch, phaseDuration, readings)
    requires forall d :: d in readings ==> readings[d] >= 0.0
    requires forall k :: k in s.occupancy ==> s.occupancy[k] >= 0.0
    ensures var t := Step(cfg, s, now, nextSwitch, phaseDuration, readings);
            && (forall k :: k in t.occupancy ==> t.occupancy[k] >= 0.0)
            && (nextSwitch == now && phaseDuration > 0.0 ==> t.ds[Started(cfg, s, now).phaseCount] <= 1.0)
  {
    var s1 := Started(cfg, s, now);
    var occ := Gathered(cfg, s, now, readings);
    forall k | k in occ
      ensures occ[k] >= 0.0
    {
      AccumulatedAt(s1.occupancy, cfg.lanes, cfg.e1s, readings, k);
      AccumulatedGrows(s1.occupancy, cfg.lanes, cfg.e1s, readings, k);
    }
    if nextSwitch == now && phaseDuration > 0.0 {
      var k :| k in occ && occ[k] == Peak(occ);
      SaturationBounds(Peak(occ), phaseDuration);
    }
  }

  /** The first setup loop of run: the detector map of each light. */
  method DetectorMaps(lights: seq<LightId>, controlledLanes: map<LightId, seq<Lane>>, detectors: seq<E1Detector>)
    returns (pairs: map<LightId, map<Lane, DetectorId>>)
    requires forall tl :: tl in lights ==> tl in controlledLanes
    ensures forall tl :: tl in lights ==> tl in pairs && IsDetectorMap(pairs[tl], controlledLanes[tl], detectors)
  {
    pairs := map[];
    for i := 0 to |lights|
      invariant forall j :: 0 <= j < i ==> lights[j] in pairs && IsDetectorMap(pairs[lights[j]], controlledLanes[lights[j]], detectors)
    {
      var e1s := GetE1(controlledLanes[lights[i]], detectors);
      pairs := pairs[lights[i] := e1s];
    }
  }

  /** The second setup loop of run: the split catalogue of each light. */
  method Catalogues(lights: seq<LightId>, programLogics: map<LightId, seq<Logic>>)
    returns (cats: map<LightId, Catalogue>)
    requires forall tl :: tl in lights ==> tl in programLogics && AllSplittable(programLogics[tl])
    ensures forall tl :: tl in lights ==> tl in cats && cats[tl] == CatalogueOf(programLogics[tl])
  {
    cats := map[];
    for i := 0 to |lights|
      invariant forall j :: 0 <= j < i ==> lights[j] in cats && cats[lights[j]] == CatalogueOf(programLogics[lights[j]])
    {
      var cat := ProgramSplit(programLogics[lights[i]]);
      cats := cats[lights[i] := cat];
    }
  }

  /** The tables run keeps for all controlled lights. The dicts run keys by light id are
      grouped per light: `config` holds what never changes (the simulator's controlled lanes and
      program logics, tl_lane_pair, tl_program_split and tl_program_dura) and `state` what run
      updates (Phase_count, last_switch_time, DS_each_phase, occu_info_all and the program set
      on the simulator). */
  class ScatsController {
    /** The controlled light ids, in the order run visits them. */
    const lights: seq<LightId>
    const config: map<LightId, Light>
    var state: map<LightId, LightState>

    /** Every light has a configuration and a state and no other id has a state; each light's
        catalogue is the one its logics give, and each light keeps its invariant. */
    ghost predicate Valid()
      reads this
    {
      && NoDuplicates(lights)
      && (forall tl :: tl in state ==> tl in lights)
      && (forall tl :: tl in lights ==>
            && tl in config && tl in state
            && AllSplittable(config[tl].logics) && config[tl].catalogue == CatalogueOf(config[tl].logics)
            && LightInvariant(config[tl], state[tl]))
    }

    /** The tables as run sets them up from the detector file and the programs the simulator
        loaded: each light's detector map covers its controlled lanes, its phase counter and last
        switch time are 0, its saturation table is construct_DS's for the loaded program, its
        accumulators are 0 and it runs the baseline program. */
    ghost predicate Initial(detectors: seq<E1Detector>, loaded: map<LightId, ProgramId>)
      reads this
    {
      forall tl :: tl in lights ==>
        && tl in config && tl in state && tl in loaded
        && IsDetectorMap(config[tl].e1s, config[tl].lanes, detectors)
        && state[tl] == LightState(0, 0.0, ConstructDS(config[tl].logics, loaded[tl]),
                                   Zeros(config[tl].e1s.Keys), BaselineProgram)
    }

    /** The setup of run: each light's detector map from the detector file and its controlled
        lanes, its split catalogue, its saturation table for the program the simulator loaded,
        a zero phase counter and switch time, zero accumulators and the baseline program. */
    constructor (lights: seq<LightId>, controlledLanes: map<LightId, seq<Lane>>, detectors: seq<E1Detector>,
                 programLogics: map<LightId, seq<Logic>>, loaded: map<LightId, ProgramId>)
      requires NoDuplicates(lights)
      requires forall tl :: tl in lights ==>
                 tl in controlledLanes && tl in programLogics && tl in loaded && AllSplittable(programLogics[tl])
      ensures Valid() && Initial(detectors, loaded)
      ensures this.lights == lights
      ensures forall tl :: tl in lights ==>
                tl in config && config[tl].lanes == controlledLanes[tl] && config[tl].logics == programLogics[tl]
    {
      var cfgs, states := SetUp(lights, controlledLanes, detectors, programLogics, loaded);
      this.lights := lights;
      config := cfgs;
      state := states;
    }

    /** One simulation step of run: every light, in order, takes its step (see Advance) with its
        own next switch time and phase duration and the detectors' readings of this step. */
    method Tick(now: real, nextSwitch: map<LightId, real>, phaseDuration: map<LightId, real>,
                readings: map<DetectorId, real>)
      requires Valid()
      requires TickDefined(lights, config, state, now, nextSwitch, phaseDuration, readings)
      modifies this
      ensures Valid()
      ensures state.Keys == old(state).Keys
      ensures forall tl :: tl in lights ==>
                state[tl] == Step(config[tl], old(state)[tl], now, nextSwitch[tl], phaseDuration[tl], readings)
    {
      var next := StepAll(lights, config, state, now, nextSwitch, phaseDuration, readings);
      forall tl | tl in lights
        ensures LightInvariant(config[tl], next[tl])
      {
        StepKeepsInvariant(config[tl], state[tl], now, nextSwitch[tl], phaseDuration[tl], readings);
      }
      state := next;
    }
  }

  /** Every light has a configuration, a state, a next switch time and a phase duration, and its
      step is defined. */
  ghost predicate TickDefined(lights: seq<LightId>, config: map<LightId, Light>, states: map<LightId, LightState>,
                              now: real, nextSwitch: map<LightId, real>, phaseDuration: map<LightId, real>,
                              readings: map<DetectorId, real>)
  {
    forall tl :: tl in lights ==>
      && tl in config && tl in states && tl in nextSwitch && tl in phaseDuration
      && StepDefined(config[tl], states[tl], now, nextSwitch[tl], phaseDuration[tl], readings)
  }

  /** The loop of run over the controlled lights for one simulation step: each light in turn
      takes its step; the lights do not share state, so each ends in its own Step. */
  method StepAll(lights: seq<LightId>, config: map<LightId, Light>, states: map<LightId, LightState>,
                 now: real, nextSwitch: map<LightId, real>, phaseDuration: map<LightId, real>,
                 readings: map<DetectorId, real>) returns (next: map<LightId, LightState>)
    requires NoDuplicates(lights)
    requires TickDefined(lights, config, states, now, nextSwitch, phaseDuration, readings)
    ensures next.Keys == states.Keys
    ensures forall tl :: tl in lights ==>
              next[tl] == Step(config[tl], states[tl], now, nextSwitch[tl], phaseDuration[tl], readings)
  {
    next := states;
    for i := 0 to |lights|
      invariant next.Keys == states.Keys
      invariant forall j :: 0 <= j < i ==>
                  next[lights[j]] == Step(config[lights[j]], states[lights[j]], now, nextSwitch[lights[j]],
                                          phaseDuration[lights[j]], readings)
      invariant forall j :: i <= j < |lights| ==> next[lights[j]] == states[lights[j]]
    {
      var tl := lights[i];
      var t := Advance(config[tl], next[tl], now, nextSwitch[tl], phaseDuration[tl], readings);
      ghost var prev := next;
      next := next[tl := t];
      assert forall j :: 0 <= j < |lights| && j != i ==> lights[j] != tl && next[lights[j]] == prev[lights[j]];
    }
  }

  /** The body of run's loop on one light's values: the phase counter, the accumulators, the
      switch time, the saturation table and the running program are read, updated and handed back. */
  method Advance(cfg: Light, s: LightState, now: real, nextSwitch: real, phaseDuration: real,
                 readings: map<DetectorId, real>) returns (t: LightState)
    requires StepDefined(cfg, s, now, nextSwitch, phaseDuration, readings)
    ensures t == Step(cfg, s, now, nextSwitch, phaseDuration, readings)
  {
    ghost var s1 := Started(cfg, s, now);
    var occ := s.occupancy;
    var count := s.phaseCount;
    if s.lastSwitch + 1.0 == now || now == 0.0 {
      occ := Zeros(cfg.e1s.Keys);
      count := count + 1;
    }
    assert occ == s1.occupancy && count == s1.phaseCount;
    occ := OccuInfo(occ, cfg.e1s, cfg.lanes, readings);
    t := LightState(count, s.lastSwitch, s.ds, occ, s.program);
    assert t == s1.(occupancy := Gathered(cfg, s, now, readings));
    if nextSwitch == now {
      t := AtSwitch(cfg, s, now, nextSwitch, phaseDuration, readings, t);
    }
  }

  /** The part of run's loop body taken at a phase switch, from the state once this step's
      readings are accumulated: record the switch time, commit one minus the largest
      accumulator over the phase duration for the counted phase, and at the end of a cycle
      restart the count and switch to the program infer_all_candidate chooses. */
  method AtSwitch(cfg: Light, s: LightState, now: real, nextSwitch: real, phaseDuration: real,
                  readings: map<DetectorId, real>, gathered: LightState) returns (t: LightState)
    requires nextSwitch == now && StepDefined(cfg, s, now, nextSwitch, phaseDuration, readings)
    requires gathered == Started(cfg, s, now).(occupancy := Gathered(cfg, s, now, readings))
    ensures t == Step(cfg, s, now, nextSwitch, phaseDuration, readings)
  {
    var count := gathered.phaseCount;
    var running := gathered.program;
    var peak := MaxValue(gathered.occupancy);
    var table := gathered.ds[count := PhaseSaturation(peak, phaseDuration)];
    assert table == Committed(cfg, s, now, phaseDuration, readings);
    if IsACycle(cfg.logics, running, count) {
      count := 0;
      running := InferAllCandidate(table, cfg.logics, cfg.catalogue, running);
    }
    t := LightState(count, nextSwitch, table, gathered.occupancy, running);
  }

  /** The setup of run (see ScatsController's constructor): the detector maps, the catalogues
      and construct_DS's tables, then each light's initial state. */
  method SetUp(lights: seq<LightId>, controlledLanes: map<LightId, seq<Lane>>, detectors: seq<E1Detector>,
               programLogics: map<LightId, seq<Logic>>, loaded: map<LightId, ProgramId>)
    returns (cfgs: map<LightId, Light>, states: map<LightId, LightState>)
    requires forall tl :: tl in lights ==>
               tl in controlledLanes && tl in programLogics && tl in loaded && AllSplittable(programLogics[tl])
    ensures forall tl :: tl in states ==> tl in lights
    ensures forall tl :: tl in lights ==>
              && tl in cfgs && tl in states
              && cfgs[tl].lanes == controlledLanes[tl] && cfgs[tl].logics == programLogics[tl]
              && IsDetectorMap(cfgs[tl].e1s, controlledLanes[tl], detectors)
              && cfgs[tl].catalogue == CatalogueOf(programLogics[tl])
              && states[tl] == LightState(0, 0.0, ConstructDS(programLogics[tl], loaded[tl]),
                                          Zeros(cfgs[tl].e1s.Keys), BaselineProgram)
  {
    var pairs := DetectorMaps(lights, controlledLanes, detectors);
    var cats := Catalogues(lights, programLogics);
    var ds := ConstructAllDS(lights, programLogics, loaded);
    cfgs := map tl | tl in lights :: Light(controlledLanes[tl], pairs[tl], programLogics[tl], cats[tl]);
    states := InitialStates(lights, pairs, ds);
  }

  /** The setup loop of run that switches each light to the baseline program and gives it zero
      accumulators, with the phase counter and last switch time at 0. */
  method InitialStates(lights: seq<LightId>, pairs: map<LightId, map<Lane, DetectorId>>, ds: map<LightId, map<int, real>>)
    returns (states: map<LightId, LightState>)
    requires forall tl :: tl in lights ==> tl in pairs && tl in ds
    ensures forall tl :: tl in states ==> tl in lights
    ensures forall tl :: tl in lights ==>
              tl in states && states[tl] == LightState(0, 0.0, ds[tl], Zeros(pairs[tl].Keys), BaselineProgram)
  {
    states := map[];
    for i := 0 to |lights|
      invariant forall tl :: tl in states ==> tl in lights
      invariant forall j :: 0 <= j < i ==>
                  lights[j] in states
                  && states[lights[j]] == LightState(0, 0.0, ds[lights[j]], Zeros(pairs[lights[j]].Keys), BaselineProgram)
    {
      var tl := lights[i];
      states := states[tl := LightState(0, 0.0, ds[tl], Zeros(pairs[tl].Keys), BaselineProgram)];
    }
  }

  /** construct_DS over all lights: each light's saturation table for its loaded program. */
  method ConstructAllDS(lights: seq<LightId>, programLogics: map<LightId, seq<Logic>>, loaded: map<LightId, ProgramId>)
    returns (ds: map<LightId, map<int, real>>)
    requires forall tl :: tl in lights ==> tl in programLogics && tl in loaded
    ensures forall tl :: tl in lights ==> tl in ds && ds[tl] == ConstructDS(programLogics[tl], loaded[tl])
    ensures forall tl :: tl in ds ==> tl in lights
  {
    ds := map[];
    for i := 0 to |lights|
      invariant forall tl :: tl in ds ==> tl in lights
      invariant forall j :: 0 <= j < i ==> lights[j] in ds && ds[lights[j]] == ConstructDS(programLogics[lights[j]], loaded[lights[j]])
    {
      ds := ds[lights[i] := ConstructDS(programLogics[lights[i]], loaded[lights[i]])];
    }
  }
}

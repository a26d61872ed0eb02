/** The degree-of-saturation table of one traffic light: its initial contents (construct_DS),
    the value committed at a phase switch, and the end-of-cycle test (is_a_cycle). */
module Saturation {
  import opened ScatsTypes
  import opened Occupancy

  /** No two logics of the light share a program id. */
  predicate DistinctPrograms(logics: seq<Logic>)
  {
    forall i, j :: 0 <= i < j < |logics| ==> logics[i].programID != logics[j].programID
  }

  /** construct_DS for one light: the counter `i` advances once per logic, and every phase of a
      logic running `active` writes 0 under the current `i`, so the table has a key for the
      position of each logic that runs the active program and has at least one phase. */
  function ConstructDS(logics: seq<Logic>, active: ProgramId): (table: map<int, real>)
    ensures forall k :: k in table <==> 0 <= k < |logics| && logics[k].programID == active && |logics[k].durations| > 0
    ensures forall k :: k in table ==> table[k] == 0.0
  {
    if |logics| == 0 then map[]
    else
      var n := |logics| - 1;
      var front := ConstructDS(logics[..n], active);
      assert forall k :: 0 <= k < n ==> logics[..n][k] == logics[k];
      if logics[n].programID == active && |logics[n].durations| > 0 then front[n := 0.0] else front
  }

  /** With distinct program ids the initial table has one entry, 0 at the position of the
      active program's logic, when that logic has phases. */
  lemma ConstructDSSingleEntry(logics: seq<Logic>, active: ProgramId, k: int)
    requires DistinctPrograms(logics)
    requires 0 <= k < |logics| && logics[k].programID == active && |logics[k].durations| > 0
    ensures ConstructDS(logics, active) == map[k := 0.0]
  {
    var table := ConstructDS(logics, active);
    forall j | j in table ensures j == k {
    }
    assert table.Keys == {k};
  }

  /** When no logic with phases runs the active program, the initial table is empty. */
  lemma ConstructDSEmpty(logics: seq<Logic>, active: ProgramId)
    requires forall k :: 0 <= k < |logics| && logics[k].programID == active ==> |logics[k].durations| == 0
    ensures ConstructDS(logics, active) == map[]
  {
    var table := ConstructDS(logics, active);
    forall j ensures j !in table {
    }
    assert table.Keys == {};
  }

  /** is_a_cycle: whether some logic running the active program has exactly `phaseCount` phases. */
  function IsACycle(logics: seq<Logic>, active: ProgramId, phaseCount: int): (r: bool)
    ensures r <==> exists i :: 0 <= i < |logics| && logics[i].programID == active && |logics[i].durations| == phaseCount
  {
    if |logics| == 0 then false
    else if logics[0].programID == active && |logics[0].durations| == phaseCount then true
    else
      var rest := IsACycle(logics[1..], active, phaseCount);
      assert forall i :: 0 <= i < |logics| - 1 ==> logics[1..][i] == logics[i + 1];
      assert rest ==> exists i :: 0 <= i < |logics| && logics[i].programID == active && |logics[i].durations| == phaseCount by {
        if rest {
          var i :| 0 <= i < |logics| - 1 && logics[1..][i].programID == active && |logics[1..][i].durations| == phaseCount;
          assert logics[i + 1] == logics[1..][i];
        }
      }
      rest
  }

  /** The largest accumulated occupancy of a non-empty accumulator dict. */
  ghost function Peak(acc: map<Lane, real>): (m: real)
    requires |acc| > 0
    ensures (exists k :: k in acc && acc[k] == m) && forall k :: k in acc ==> acc[k] <= m
    decreases |acc|
  {
    var k :| k in acc;
    var rest := acc - {k};
    assert forall j :: j in acc ==> j == k || j in rest;
    if |rest| == 0 then acc[k]
    else
      var r := Peak(rest);
      if acc[k] > r then acc[k] else r
  }

  /** Python's max over the accumulators' values (ValueError on an empty dict). */
  method MaxValue(acc: map<Lane, real>) returns (m: real)
    requires |acc| > 0
    ensures m in acc.Values && forall v :: v in acc.Values ==> v <= m
    ensures m == Peak(acc)
  {
    var k :| k in acc;
    m := acc[k];
    var rest := acc.Keys - {k};
    while rest != {}
      invariant rest <= acc.Keys
      invariant m in acc.Values
      invariant forall j :: j in acc && j !in rest ==> acc[j] <= m
      decreases rest
    {
      var j :| j in rest;
      if acc[j] > m {
        m := acc[j];
      }
      rest := rest - {j};
    }
    PeakUnique(acc, m);
  }

  /** Only one value of a dict is at least every value. */
  lemma PeakUnique(acc: map<Lane, real>, m: real)
    requires |acc| > 0 && m in acc.Values && forall v :: v in acc.Values ==> v <= m
    ensures m == Peak(acc)
  {
    var j :| j in acc && acc[j] == Peak(acc);
    assert acc[j] in acc.Values;
  }

  /** The degree of saturation committed at a phase switch: one minus the largest accumulated
      occupancy of the phase over the phase's duration. */
  function PhaseSaturation(peak: real, phaseDuration: real): real
    requires phaseDuration != 0.0
  {
    1.0 - peak / phaseDuration
  }

  /** With non-negative occupancy and a positive phase duration the saturation is at most 1, and
      it is at least 0 when the peak does not exceed the duration. */
  lemma SaturationBounds(peak: real, phaseDuration: real)
    requires peak >= 0.0 && phaseDuration > 0.0
    ensures PhaseSaturation(peak, phaseDuration) <= 1.0
    ensures peak <= phaseDuration ==> PhaseSaturation(peak, phaseDuration) >= 0.0
  {
    assert peak / phaseDuration >= 0.0;
    if peak <= phaseDuration {
      assert peak / phaseDuration <= phaseDuration / phaseDuration;
    }
  }

  /** With non-negative accumulators, the committed saturation is 1 exactly when no lane saw
      any occupancy during the phase. */
  lemma SaturationOneIffIdle(acc: map<Lane, real>, phaseDuration: real)
    requires |acc| > 0 && phaseDuration != 0.0
    requires forall k :: k in acc ==> acc[k] >= 0.0
    ensures PhaseSaturation(Peak(acc), phaseDuration) == 1.0 <==> forall k :: k in acc ==> acc[k] == 0.0
  {
    var m := Peak(acc);
    assert PhaseSaturation(m, phaseDuration) == 1.0 <==> m == 0.0 by {
      if m / phaseDuration == 0.0 {
        assert m == (m / phaseDuration) * phaseDuration;
      }
    }
    if m != 0.0 {
      var k :| k in acc && acc[k] == m;
    }
  }
}

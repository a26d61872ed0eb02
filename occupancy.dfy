/** Per-phase occupancy accumulation of one traffic light (occu_info). */
module Occupancy {
  import opened ScatsTypes

  /** The occupancy a lane's detector reports for this time step, as a fraction (the
      simulator reports a percentage). `occupancy` holds this step's simulator reading of each
      detector. A lane without a detector or a reading contributes nothing; occu_info never
      reads such a lane when Covered holds. */
  function Reading(e1s: map<Lane, DetectorId>, occupancy: map<DetectorId, real>, lane: Lane): real
  {
    if lane in e1s && e1s[lane] in occupancy then occupancy[e1s[lane]] / 100.0 else 0.0
  }

  /** How many times occu_info adds `lane`'s reading when it walks `lanes` after having seen
      `prev`: once for every position holding `lane` whose predecessor is a different lane. */
  function RunsFrom(prev: Lane, lanes: seq<Lane>, lane: Lane): nat
    decreases |lanes|
  {
    if |lanes| == 0 then 0
    else (if lanes[0] == lane && lanes[0] != prev then 1 else 0) + RunsFrom(lanes[0], lanes[1..], lane)
  }

  /** The walk starts with the empty lane name as the one last seen. */
  function Runs(lanes: seq<Lane>, lane: Lane): nat
  {
    RunsFrom("", lanes, lane)
  }

  /** The total occu_info adds to `lane` on the walk from `prev` when each addition is `x`. */
  function Gain(prev: Lane, lanes: seq<Lane>, lane: Lane, x: real): real
    decreases |lanes|
  {
    if |lanes| == 0 then 0.0
    else (if lanes[0] == lane && lanes[0] != prev then x else 0.0) + Gain(lanes[0], lanes[1..], lane, x)
  }

  /** The accumulators after one call of occu_info: every key grows by its lane's reading for
      each position of the controlled-lane list that occu_info counts (see GainIsRunsTimes). */
  function Accumulated(acc: map<Lane, real>, lanes: seq<Lane>, e1s: map<Lane, DetectorId>,
                       occupancy: map<DetectorId, real>): map<Lane, real>
  {
    map k | k in acc :: acc[k] + Gain("", lanes, k, Reading(e1s, occupancy, k))
  }

  /** The accumulated value of one key, unfolded. */
  lemma AccumulatedAt(acc: map<Lane, real>, lanes: seq<Lane>, e1s: map<Lane, DetectorId>,
                      occupancy: map<DetectorId, real>, lane: Lane)
    requires lane in acc
    ensures Accumulated(acc, lanes, e1s, occupancy).Keys == acc.Keys
    ensures Accumulated(acc, lanes, e1s, occupancy)[lane] == acc[lane] + Gain("", lanes, lane, Reading(e1s, occupancy, lane))
  {
  }

  /** The lane occu_info's tracker holds when it reaches position `i`: the lane before, or the
      empty name at the start. */
  function Previous(lanes: seq<Lane>, i: int): Lane
    requires 0 <= i < |lanes|
  {
    if i == 0 then "" else lanes[i - 1]
  }

  /** Every lane occu_info reads, that is every lane differing from the one before it, has an
      accumulator and a detector (otherwise KeyError), and the simulator has a reading for that detector. */
  predicate Covered(acc: map<Lane, real>, e1s: map<Lane, DetectorId>, lanes: seq<Lane>, occupancy: map<DetectorId, real>)
  {
    forall i :: 0 <= i < |lanes| && lanes[i] != Previous(lanes, i) ==> lanes[i] in acc && lanes[i] in e1s && e1s[lanes[i]] in occupancy
  }

  /** When every controlled lane has an accumulator, a detector and a reading, occu_info reads no missing key. */
  lemma {:induction false} CoveredWhenAllPresent(acc: map<Lane, real>, e1s: map<Lane, DetectorId>, lanes: seq<Lane>,
                                                 occupancy: map<DetectorId, real>)
    requires forall lane :: lane in lanes ==> lane in acc && lane in e1s && e1s[lane] in occupancy
    ensures Covered(acc, e1s, lanes, occupancy)
  {
    forall i | 0 <= i < |lanes| && lanes[i] != Previous(lanes, i)
      ensures lanes[i] in acc && lanes[i] in e1s && e1s[lanes[i]] in occupancy
    {
      assert lanes[i] in lanes;
    }
  }

  /** occu_info: walk the controlled lanes, skip a lane equal to the one just seen, and add the
      reading of the lane's detector to its accumulator. */
  method OccuInfo(acc: map<Lane, real>, e1s: map<Lane, DetectorId>, lanes: seq<Lane>,
                  occupancy: map<DetectorId, real>) returns (r: map<Lane, real>)
    requires Covered(acc, e1s, lanes, occupancy)
    ensures r == Accumulated(acc, lanes, e1s, occupancy)
  {
    r := acc;
    var avoidLaneRepeated: Lane := "";
    var i := 0;
    while i < |lanes|
      invariant 0 <= i <= |lanes|
      invariant avoidLaneRepeated == if i == 0 then "" else lanes[i - 1]
      invariant r == Walked(acc, lanes, i, e1s, occupancy)
    {
      var lane := lanes[i];
      WalkedStep(acc, lanes, i, e1s, occupancy);
      if avoidLaneRepeated != lane {
        r := r[lane := r[lane] + occupancy[e1s[lane]] / 100.0];
      }
      avoidLaneRepeated := lane;
      i := i + 1;
    }
    WalkedIsAccumulated(acc, lanes, e1s, occupancy);
  }

  /** The accumulators once occu_info has walked the first `n` controlled lanes. */
  function Walked(acc: map<Lane, real>, lanes: seq<Lane>, n: int, e1s: map<Lane, DetectorId>,
                  occupancy: map<DetectorId, real>): (r: map<Lane, real>)
    requires 0 <= n <= |lanes|
    ensures r.Keys == acc.Keys
  {
    if n == 0 then acc
    else
      var r := Walked(acc, lanes, n - 1, e1s, occupancy);
      var lane := lanes[n - 1];
      if lane != Previous(lanes, n - 1) && lane in r then r[lane := r[lane] + Reading(e1s, occupancy, lane)] else r
  }

  /** One more lane walked: a lane differing from the one before it gets its detector's reading added. */
  lemma WalkedStep(acc: map<Lane, real>, lanes: seq<Lane>, i: int, e1s: map<Lane, DetectorId>,
                   occupancy: map<DetectorId, real>)
    requires Covered(acc, e1s, lanes, occupancy) && 0 <= i < |lanes|
    ensures var r, lane := Walked(acc, lanes, i, e1s, occupancy), lanes[i];
            lane != Previous(lanes, i) ==>
              && lane in r && lane in e1s && e1s[lane] in occupancy
              && Walked(acc, lanes, i + 1, e1s, occupancy) == r[lane := r[lane] + occupancy[e1s[lane]] / 100.0]
    ensures lanes[i] == Previous(lanes, i) ==> Walked(acc, lanes, i + 1, e1s, occupancy) == Walked(acc, lanes, i, e1s, occupancy)
  {
  }

  /** Each key of the walked accumulators, plus what the rest of the walk adds, is the key's
      starting value plus what the whole walk adds. */
  lemma {:induction false} WalkedTracksGain(acc: map<Lane, real>, lanes: seq<Lane>, n: int,
                                            e1s: map<Lane, DetectorId>, occupancy: map<DetectorId, real>, k: Lane)
    requires 0 < n <= |lanes| && k in acc
    ensures Walked(acc, lanes, n, e1s, occupancy)[k] + Gain(lanes[n - 1], lanes[n..], k, Reading(e1s, occupancy, k))
            == acc[k] + Gain("", lanes, k, Reading(e1s, occupancy, k))
  {
    var x := Reading(e1s, occupancy, k);
    GainStep(Previous(lanes, n - 1), lanes, n - 1, k, x);
    if n > 1 {
      WalkedTracksGain(acc, lanes, n - 1, e1s, occupancy, k);
    } else {
      assert lanes[0..] == lanes;
    }
  }

  /** After the whole walk the accumulators are the accumulated ones. */
  lemma WalkedIsAccumulated(acc: map<Lane, real>, lanes: seq<Lane>, e1s: map<Lane, DetectorId>,
                            occupancy: map<DetectorId, real>)
    ensures Walked(acc, lanes, |lanes|, e1s, occupancy) == Accumulated(acc, lanes, e1s, occupancy)
  {
    if |lanes| > 0 {
      assert lanes[|lanes|..] == [];
      forall k | k in acc
        ensures Walked(acc, lanes, |lanes|, e1s, occupancy)[k] == acc[k] + Gain("", lanes, k, Reading(e1s, occupancy, k))
      {
        WalkedTracksGain(acc, lanes, |lanes|, e1s, occupancy, k);
      }
    }
  }

  /** One step of the walk: position `i` contributes, then the walk goes on from there. */
  lemma GainStep(prev: Lane, lanes: seq<Lane>, i: int, lane: Lane, x: real)
    requires 0 <= i < |lanes|
    ensures Gain(prev, lanes[i..], lane, x)
            == (if lanes[i] == lane && lanes[i] != prev then x else 0.0) + Gain(lanes[i], lanes[i + 1..], lane, x)
  {
    assert lanes[i..][1..] == lanes[i + 1..];
  }

  /** Adding `x` once per counted position adds the count times `x`. */
  lemma {:induction false} GainIsRunsTimes(prev: Lane, lanes: seq<Lane>, lane: Lane, x: real)
    ensures Gain(prev, lanes, lane, x) == RunsFrom(prev, lanes, lane) as real * x
    decreases |lanes|
  {
    if |lanes| > 0 {
      GainIsRunsTimes(lanes[0], lanes[1..], lane, x);
      var n := RunsFrom(lanes[0], lanes[1..], lane) as real;
      if lanes[0] == lane && lanes[0] != prev {
        assert x + n * x == (1.0 + n) * x;
      }
    }
  }

  /** A lane that is not controlled is never counted. */
  lemma {:induction false} RunsOfAbsentLane(prev: Lane, lanes: seq<Lane>, lane: Lane)
    requires lane !in lanes
    ensures RunsFrom(prev, lanes, lane) == 0
    decreases |lanes|
  {
    if |lanes| > 0 {
      assert lanes[0] != lane;
      RunsOfAbsentLane(lanes[0], lanes[1..], lane);
    }
  }

  /** Appending a lane to the list adds one count for it exactly when it differs from the lane
      before it: a consecutive repeat is skipped, a repeat after another lane counts again. */
  lemma {:induction false} RunsSnoc(prev: Lane, lanes: seq<Lane>, x: Lane, lane: Lane)
    ensures RunsFrom(prev, lanes + [x], lane)
            == RunsFrom(prev, lanes, lane) + (if x == lane && x != (if |lanes| == 0 then prev else lanes[|lanes| - 1]) then 1 else 0)
    decreases |lanes|
  {
    if |lanes| > 0 {
      assert (lanes + [x])[1..] == lanes[1..] + [x];
      RunsSnoc(lanes[0], lanes[1..], x, lane);
    }
  }

  /** Doubling a lane in place changes no count: a lane listed twice in a row is read once. */
  lemma {:induction false} RepeatAddsNothing(prev: Lane, front: seq<Lane>, x: Lane, back: seq<Lane>, lane: Lane)
    ensures RunsFrom(prev, front + [x, x] + back, lane) == RunsFrom(prev, front + [x] + back, lane)
    decreases |front|
  {
    if |front| == 0 {
      assert ([x, x] + back)[1..] == [x] + back;
      assert ([x] + back)[1..] == back;
    } else {
      assert (front + [x, x] + back)[1..] == front[1..] + [x, x] + back;
      assert (front + [x] + back)[1..] == front[1..] + [x] + back;
      RepeatAddsNothing(front[0], front[1..], x, back, lane);
    }
  }

  /** With no lane listed twice, every controlled lane with a non-empty name is counted exactly once. */
  lemma {:induction false} DistinctLanesCountedOnce(prev: Lane, lanes: seq<Lane>, lane: Lane)
    requires NoDuplicates(lanes) && lane in lanes && lane != prev
    ensures RunsFrom(prev, lanes, lane) == 1
    decreases |lanes|
  {
    var rest := lanes[1..];
    assert NoDuplicates(rest) by {
      forall i, j | 0 <= i < j < |rest| ensures rest[i] != rest[j] {
        assert rest[i] == lanes[i + 1] && rest[j] == lanes[j + 1];
      }
    }
    if lanes[0] == lane {
      assert lane !in rest by {
        forall j | 0 <= j < |rest| ensures rest[j] != lane {
          assert rest[j] == lanes[j + 1];
        }
      }
      RunsOfAbsentLane(lane, rest, lane);
    } else {
      assert lane in rest by {
        var j :| 0 <= j < |lanes| && lanes[j] == lane;
        assert rest[j - 1] == lanes[j];
      }
      DistinctLanesCountedOnce(lanes[0], rest, lane);
    }
  }

  /** occu_info changes no key set, and leaves the accumulator of a lane it does not control as it was. */
  lemma UncontrolledUnchanged(acc: map<Lane, real>, lanes: seq<Lane>, e1s: map<Lane, DetectorId>,
                              occupancy: map<DetectorId, real>, lane: Lane)
    requires lane in acc && lane !in lanes
    ensures Accumulated(acc, lanes, e1s, occupancy).Keys == acc.Keys
    ensures Accumulated(acc, lanes, e1s, occupancy)[lane] == acc[lane]
  {
    var x := Reading(e1s, occupancy, lane);
    AccumulatedAt(acc, lanes, e1s, occupancy, lane);
    RunsOfAbsentLane("", lanes, lane);
    GainIsRunsTimes("", lanes, lane, x);
  }

  /** With non-negative detector readings no accumulator decreases. */
  lemma AccumulatedGrows(acc: map<Lane, real>, lanes: seq<Lane>, e1s: map<Lane, DetectorId>,
                         occupancy: map<DetectorId, real>, lane: Lane)
    requires lane in acc
    requires forall d :: d in occupancy ==> occupancy[d] >= 0.0
    ensures Accumulated(acc, lanes, e1s, occupancy)[lane] >= acc[lane]
  {
    AccumulatedAt(acc, lanes, e1s, occupancy, lane);
    GainNonNegative("", lanes, lane, Reading(e1s, occupancy, lane));
  }

  lemma {:induction false} GainNonNegative(prev: Lane, lanes: seq<Lane>, lane: Lane, x: real)
    requires x >= 0.0
    ensures Gain(prev, lanes, lane, x) >= 0.0
    decreases |lanes|
  {
    if |lanes| > 0 {
      GainNonNegative(lanes[0], lanes[1..], lane, x);
    }
  }

  /** With distinct controlled lanes, each controlled lane's accumulator grows by exactly one reading. */
  lemma DistinctLanesGainOneReading(acc: map<Lane, real>, lanes: seq<Lane>, e1s: map<Lane, DetectorId>,
                                    occupancy: map<DetectorId, real>, lane: Lane)
    requires NoDuplicates(lanes) && lane in lanes && lane != "" && lane in acc && lane in e1s && e1s[lane] in occupancy
    ensures Accumulated(acc, lanes, e1s, occupancy)[lane] == acc[lane] + occupancy[e1s[lane]] / 100.0
  {
    var x := Reading(e1s, occupancy, lane);
    AccumulatedAt(acc, lanes, e1s, occupancy, lane);
    DistinctLanesCountedOnce("", lanes, lane);
    GainIsRunsTimes("", lanes, lane, x);
  }
}

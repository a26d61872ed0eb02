/** The lane -> detector map of one traffic light (get_e1). */
module Detectors {
  import opened ScatsTypes

  predicate OnSomeDetector(dets: seq<E1Detector>, lane: Lane)
  {
    exists j :: 0 <= j < |dets| && dets[j].lane == lane
  }

  /** The detector the map keeps for `lane`: the last record of the file that sits on it. */
  function LastOnLane(dets: seq<E1Detector>, lane: Lane): (d: E1Detector)
    requires OnSomeDetector(dets, lane)
    ensures exists j :: 0 <= j < |dets| && dets[j] == d && dets[j].lane == lane &&
                        forall k :: j < k < |dets| ==> dets[k].lane != lane
  {
    var last := dets[|dets| - 1];
    if last.lane == lane then last
    else
      var front := dets[..|dets| - 1];
      assert OnSomeDetector(front, lane) by {
        var j :| 0 <= j < |dets| && dets[j].lane == lane;
        assert front[j] == dets[j];
      }
      var d := LastOnLane(front, lane);
      assert forall j :: 0 <= j < |front| ==> front[j] == dets[j];
      d
  }

  /** What get_e1 builds from the controlled lanes and the detector records: only lanes
      the light controls are keys, every controlled lane that has a detector is a key,
      and each key maps to the id of the last detector record on that lane. */
  ghost predicate IsDetectorMap(e1s: map<Lane, DetectorId>, lanes: seq<Lane>, dets: seq<E1Detector>)
  {
    && (forall lane :: lane in e1s ==> lane in lanes && OnSomeDetector(dets, lane))
    && (forall j :: 0 <= j < |dets| && dets[j].lane in lanes ==> dets[j].lane in e1s)
    && (forall lane :: lane in e1s ==> e1s[lane] == LastOnLane(dets, lane).id)
  }

  /** get_e1: scan the detector records in file order and keep, for each controlled lane,
      the id of the detector on it; a later record for the same lane overwrites an earlier one. */
  method GetE1(lanes: seq<Lane>, dets: seq<E1Detector>) returns (e1s: map<Lane, DetectorId>)
    ensures IsDetectorMap(e1s, lanes, dets)
  {
    e1s := map[];
    var i := 0;
    while i < |dets|
      invariant 0 <= i <= |dets|
      invariant IsDetectorMap(e1s, lanes, dets[..i])
    {
      var e1 := dets[i];
      ExtendDetectorMap(e1s, lanes, dets[..i], e1);
      assert dets[..i] + [e1] == dets[..i + 1];
      if e1.lane in lanes {
        e1s := e1s[e1.lane := e1.id];
      }
      i := i + 1;
    }
    assert dets[..|dets|] == dets;
  }

  /** One step of get_e1's loop keeps the map a detector map of the records read so far. */
  lemma ExtendDetectorMap(e1s: map<Lane, DetectorId>, lanes: seq<Lane>, front: seq<E1Detector>, e1: E1Detector)
    requires IsDetectorMap(e1s, lanes, front)
    ensures IsDetectorMap(if e1.lane in lanes then e1s[e1.lane := e1.id] else e1s, lanes, front + [e1])
  {
    var dets := front + [e1];
    var next := if e1.lane in lanes then e1s[e1.lane := e1.id] else e1s;
    forall lane | OnSomeDetector(front, lane)
      ensures OnSomeDetector(dets, lane)
    {
      var j :| 0 <= j < |front| && front[j].lane == lane;
      assert dets[j] == front[j];
    }
    assert OnSomeDetector(dets, e1.lane) by { assert dets[|front|] == e1; }
    assert dets[..|dets| - 1] == front;
    forall lane | lane in next
      ensures next[lane] == LastOnLane(dets, lane).id
    {
      if lane != e1.lane {
        assert LastOnLane(dets, lane) == LastOnLane(front, lane);
      }
    }
  }

  /** When every controlled lane has a detector, the map's keys are exactly the controlled lanes. */
  lemma {:induction false} CoveredLanesAreKeys(e1s: map<Lane, DetectorId>, lanes: seq<Lane>, dets: seq<E1Detector>)
    requires IsDetectorMap(e1s, lanes, dets)
    requires forall lane :: lane in lanes ==> OnSomeDetector(dets, lane)
    ensures forall lane :: lane in e1s <==> lane in lanes
  {
    forall lane | lane in lanes
      ensures lane in e1s
    {
      var j :| 0 <= j < |dets| && dets[j].lane == lane;
    }
  }
}

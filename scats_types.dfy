/** Shared vocabulary of the SCATS-style controller.
    Identifiers handed out by the simulator are plain strings. Durations,
    times and occupancies are floats in the controller; here they are exact
    `real`s, so no rounding error of floating-point arithmetic is modelled. */
module ScatsTypes {
  type LightId = string
  type Lane = string
  type DetectorId = string
  type ProgramId = string

  /** One e1 (induction loop) detector record of the detector file: its id and the lane it sits on. */
  datatype E1Detector = E1Detector(id: DetectorId, lane: Lane)

  /** One signal program of a traffic light as the simulator lists it: the program id and
      the duration of each of its phases, in phase order (the phase states play no part). */
  datatype Logic = Logic(programID: ProgramId, durations: seq<real>)

  datatype Option<T> = None | Some(value: T)

  predicate NoDuplicates<T(==)>(s: seq<T>)
  {
    forall i, j :: 0 <= i < j < |s| ==> s[i] != s[j]
  }
}

/** The end-of-cycle plan choice of one traffic light (infer_all_candidate): the saturation
    each other program would have produced is estimated from the table of this cycle, and
    the greedy scan keeps the program with the smallest estimate. */
module Projection {
  import opened ScatsTypes
  import opened ProgramCatalogue

  /** The sum of a finite set of integers. */
  ghost function SetSum(s: set<int>): int
  {
    if s == {} then 0
    else
      EmptyOrInhabited(s);
      var x :| x in s;
      x + SetSum(s - {x})
  }

  /** A set with no element is the empty set. */
  lemma EmptyOrInhabited(s: set<int>)
    ensures s == {} || exists x :: x in s
  {
    if forall x :: x !in s {
      assert s == {};
    }
  }

  /** Any element can be taken out first: the sum does not depend on the order of the elements. */
  lemma SetSumRemove(s: set<int>, y: int)
    requires y in s
    ensures SetSum(s) == y + SetSum(s - {y})
    decreases |s|
  {
    var x :| x in s && SetSum(s) == x + SetSum(s - {x});
    if x != y {
      SetSumRemove(s - {x}, y);
      SetSumRemove(s - {y}, x);
      assert s - {x} - {y} == s - {y} - {x};
    }
  }

  /** Python's sum over a dict, which adds up the dict's keys. */
  method SumKeys(table: map<int, real>) returns (total: int)
    ensures total == SetSum(table.Keys)
  {
    total := 0;
    var keys := table.Keys;
    while keys != {}
      invariant keys <= table.Keys
      invariant total + SetSum(keys) == SetSum(table.Keys)
      decreases |keys|
    {
      var k :| k in keys;
      SetSumRemove(keys, k);
      total := total + k;
      keys := keys - {k};
    }
  }

  /** The running best of the scan: the smallest estimate so far and its program. */
  datatype Pick = Pick(total: real, program: ProgramId)

  /** Every candidate other than the running program has an estimate. */
  predicate Priced(order: seq<ProgramId>, current: ProgramId, totals: map<ProgramId, real>)
  {
    forall i :: 0 <= i < |order| && order[i] != current ==> order[i] in totals
  }

  /** The greedy scan of infer_all_candidate over the candidates at positions `from` onwards of
      the catalogue order, from the running best `best` held by `next`: the running program's
      estimate is the running best itself, and a candidate replaces the best only when its
      estimate is strictly smaller. */
  function Scan(order: seq<ProgramId>, from: int, current: ProgramId, totals: map<ProgramId, real>,
                best: real, next: ProgramId): (p: Pick)
    requires 0 <= from <= |order| && Priced(order, current, totals)
    ensures p.total <= best
    decreases |order| - from
  {
    if from == |order| then Pick(best, next)
    else
      var c := order[from];
      var temp := if c == current then best else totals[c];
      if best > temp then Scan(order, from + 1, current, totals, temp, c)
      else Scan(order, from + 1, current, totals, best, next)
  }

  /** The scan's result is either the starting best untouched, or a later candidate other than
      the running program whose estimate is strictly below the starting best. */
  lemma {:induction false} ScanResult(order: seq<ProgramId>, from: int, current: ProgramId,
                                      totals: map<ProgramId, real>, best: real, next: ProgramId)
    requires 0 <= from <= |order| && Priced(order, current, totals)
    ensures var p := Scan(order, from, current, totals, best, next);
            || p == Pick(best, next)
            || ((exists j :: from <= j < |order| && order[j] == p.program)
                && p.program != current && p.program in totals
                && p.total == totals[p.program] && p.total < best)
    decreases |order| - from
  {
    if from < |order| {
      var c := order[from];
      var temp := if c == current then best else totals[c];
      if best > temp {
        ScanResult(order, from + 1, current, totals, temp, c);
      } else {
        ScanResult(order, from + 1, current, totals, best, next);
      }
    }
  }

  /** The chosen estimate is no larger than the estimate of any candidate scanned. */
  lemma {:induction false} ScanIsMinimum(order: seq<ProgramId>, from: int, current: ProgramId,
                                         totals: map<ProgramId, real>, best: real, next: ProgramId, i: int)
    requires 0 <= from <= |order| && Priced(order, current, totals)
    requires from <= i < |order| && order[i] != current
    ensures Scan(order, from, current, totals, best, next).total <= totals[order[i]]
    decreases |order| - from
  {
    var c := order[from];
    var temp := if c == current then best else totals[c];
    if i != from {
      if best > temp {
        ScanIsMinimum(order, from + 1, current, totals, temp, c, i);
      } else {
        ScanIsMinimum(order, from + 1, current, totals, best, next, i);
      }
    }
  }

  /** Starting from the running program, the scan keeps it exactly when no other candidate's
      estimate is strictly below the starting best. */
  lemma {:induction false} ScanKeepsCurrentIff(order: seq<ProgramId>, from: int, current: ProgramId,
                                               totals: map<ProgramId, real>, best: real)
    requires 0 <= from <= |order| && Priced(order, current, totals)
    ensures Scan(order, from, current, totals, best, current).program == current
            <==> forall i :: from <= i < |order| && order[i] != current ==> totals[order[i]] >= best
    decreases |order| - from
  {
    if from < |order| {
      var c := order[from];
      if c != current && best > totals[c] {
        ScanResult(order, from + 1, current, totals, totals[c], c);
      } else {
        ScanKeepsCurrentIff(order, from + 1, current, totals, best);
      }
    }
  }

  /** Ties keep the earlier choice: a changed choice sits at a position of the candidate order
      before which every other scanned candidate's estimate is strictly larger than the chosen one. */
  lemma {:induction false} ScanFirstOfTies(order: seq<ProgramId>, from: int, current: ProgramId,
                                           totals: map<ProgramId, real>, best: real, next: ProgramId)
    requires 0 <= from <= |order| && Priced(order, current, totals)
    ensures var p := Scan(order, from, current, totals, best, next);
            p.program != next ==>
              exists j :: from <= j < |order| && order[j] == p.program &&
                forall k :: from <= k < j && order[k] != current ==> totals[order[k]] > p.total
    decreases |order| - from
  {
    if from < |order| {
      var p := Scan(order, from, current, totals, best, next);
      var c := order[from];
      var temp := if c == current then best else totals[c];
      var nextRest := if best > temp then c else next;
      var bestRest := if best > temp then temp else best;
      assert p == Scan(order, from + 1, current, totals, bestRest, nextRest);
      if p.program != next && p.program != c {
        ScanFirstOfTies(order, from + 1, current, totals, bestRest, nextRest);
        ScanResult(order, from + 1, current, totals, bestRest, nextRest);
      } else if p.program != next {
        assert order[from] == p.program;
      }
    }
  }

  /** A catalogue that holds only the running program leaves the choice unchanged. */
  lemma {:induction false} SoleProgramKept(order: seq<ProgramId>, from: int, current: ProgramId,
                                           totals: map<ProgramId, real>, best: real)
    requires 0 <= from <= |order|
    requires forall i :: 0 <= i < |order| ==> order[i] == current
    ensures Scan(order, from, current, totals, best, current) == Pick(best, current)
    decreases |order| - from
  {
    if from < |order| {
      SoleProgramKept(order, from + 1, current, totals, best);
    }
  }

  /** The estimate term of phase `i` can be computed: the table has key `i`, both programs have
      a split of at least `i + 1` phases and a cycle duration, and the divisor is not zero
      (otherwise KeyError, IndexError or ZeroDivisionError). */
  predicate TermDefined(ds: map<int, real>, cat: Catalogue, current: ProgramId, c: ProgramId, i: int)
  {
    && i in ds
    && current in cat.splits && current in cat.durations
    && c in cat.splits && c in cat.durations
    && 0 <= i < |cat.splits[current]| && i < |cat.splits[c]|
    && cat.splits[c][i] * cat.durations[c] != 0.0
  }

  /** What phase `i` contributes to candidate `c`'s estimate: this cycle's saturation of the
      phase, scaled by the phase's length under the running program over its length under `c`. */
  function Term(ds: map<int, real>, cat: Catalogue, current: ProgramId, c: ProgramId, i: int): real
    requires TermDefined(ds, cat, current, c, i)
  {
    ds[i] * cat.splits[current][i] * cat.durations[current] / (cat.splits[c][i] * cat.durations[c])
  }

  /** The terms of phases 0 to n - 1 can all be computed. */
  predicate PhasesDefined(ds: map<int, real>, cat: Catalogue, current: ProgramId, c: ProgramId, n: int)
  {
    forall i :: 0 <= i < n ==> TermDefined(ds, cat, current, c, i)
  }

  /** The terms of phases 0 to n - 1 added up in phase order. */
  function PhaseSum(ds: map<int, real>, cat: Catalogue, current: ProgramId, c: ProgramId, n: int): real
    requires 0 <= n && PhasesDefined(ds, cat, current, c, n)
  {
    if n == 0 then 0.0 else PhaseSum(ds, cat, current, c, n - 1) + Term(ds, cat, current, c, n - 1)
  }

  /** Every logic with id `c` has a computable term for each of its phases. */
  predicate CandidateDefined(ds: map<int, real>, logics: seq<Logic>, cat: Catalogue, current: ProgramId, c: ProgramId)
  {
    forall j :: 0 <= j < |logics| && logics[j].programID == c ==> PhasesDefined(ds, cat, current, c, |logics[j].durations|)
  }

  /** Candidate `c`'s estimate over the first `n` logics: for each logic with id `c`, in list
      order, the terms of as many phases as that logic has. */
  function Projected(ds: map<int, real>, logics: seq<Logic>, n: int, cat: Catalogue, current: ProgramId, c: ProgramId): real
    requires 0 <= n <= |logics| && CandidateDefined(ds, logics, cat, current, c)
  {
    if n == 0 then 0.0
    else
      Projected(ds, logics, n - 1, cat, current, c)
      + (if logics[n - 1].programID == c then PhaseSum(ds, cat, current, c, |logics[n - 1].durations|) else 0.0)
  }

  /** Every candidate other than the running program has a computable estimate. */
  predicate CandidatesDefined(ds: map<int, real>, logics: seq<Logic>, cat: Catalogue, current: ProgramId)
  {
    forall c :: c in cat.order && c != current ==> CandidateDefined(ds, logics, cat, current, c)
  }

  /** The estimates of all candidates other than the running program. */
  function Totals(ds: map<int, real>, logics: seq<Logic>, cat: Catalogue, current: ProgramId): (totals: map<ProgramId, real>)
    requires CandidatesDefined(ds, logics, cat, current)
    ensures Priced(cat.order, current, totals)
  {
    map c | c in cat.order && c != current :: Projected(ds, logics, |logics|, cat, current, c)
  }

  /** The estimate of one candidate in the totals. */
  lemma TotalsAt(ds: map<int, real>, logics: seq<Logic>, cat: Catalogue, current: ProgramId, c: ProgramId)
    requires CandidatesDefined(ds, logics, cat, current)
    requires c in cat.order
    ensures c != current ==> Totals(ds, logics, cat, current)[c] == Projected(ds, logics, |logics|, cat, current, c)
  {
  }

  /** The choice infer_all_candidate makes: the scan over the catalogue order, starting with the
      running program and, as its estimate, the sum of the saturation table's keys. */
  ghost function Choice(ds: map<int, real>, logics: seq<Logic>, cat: Catalogue, current: ProgramId): Pick
    requires CandidatesDefined(ds, logics, cat, current)
  {
    Scan(cat.order, 0, current, Totals(ds, logics, cat, current), SetSum(ds.Keys) as real, current)
  }

  /** The running program is kept exactly when no other candidate's estimate is strictly below
      the sum of the table's keys; otherwise the choice is another catalogue program whose
      estimate is below that sum and no larger than any candidate's estimate. */
  lemma ChoiceIsCheapest(ds: map<int, real>, logics: seq<Logic>, cat: Catalogue, current: ProgramId)
    requires CandidatesDefined(ds, logics, cat, current)
    ensures var p := Choice(ds, logics, cat, current);
            && (p.program == current <==>
                 forall c :: c in cat.order && c != current ==> Projected(ds, logics, |logics|, cat, current, c) >= SetSum(ds.Keys) as real)
            && (p.program != current ==>
                 && p.program in cat.order
                 && p.total == Projected(ds, logics, |logics|, cat, current, p.program)
                 && p.total < SetSum(ds.Keys) as real
                 && forall c :: c in cat.order && c != current ==> p.total <= Projected(ds, logics, |logics|, cat, current, c))
  {
    var totals := Totals(ds, logics, cat, current);
    var start := SetSum(ds.Keys) as real;
    var p := Choice(ds, logics, cat, current);
    ScanKeepsCurrentIff(cat.order, 0, current, totals, start);
    ScanResult(cat.order, 0, current, totals, start, current);
    forall c | c in cat.order && c != current
      ensures p.total <= totals[c]
    {
      var i :| 0 <= i < |cat.order| && cat.order[i] == c;
      ScanIsMinimum(cat.order, 0, current, totals, start, current, i);
    }
    if p.program == current {
      forall c | c in cat.order && c != current
        ensures totals[c] >= start
      {
        var i :| 0 <= i < |cat.order| && cat.order[i] == c;
      }
    }
  }

  /** infer_all_candidate: sum the table, then scan the catalogue's programs in order, estimate
      each one other than the running program phase by phase, and keep the strictly smallest. */
  method InferAllCandidate(ds: map<int, real>, logics: seq<Logic>, cat: Catalogue, current: ProgramId)
    returns (next: ProgramId)
    requires CandidatesDefined(ds, logics, cat, current)
    ensures next == Choice(ds, logics, cat, current).program
  {
    var dsThisCycle := SumKeys(ds);
    next := current;
    var dsNextCycle := dsThisCycle as real;
    ghost var totals := Totals(ds, logics, cat, current);
    var k := 0;
    while k < |cat.order|
      invariant 0 <= k <= |cat.order|
      invariant Scan(cat.order, k, current, totals, dsNextCycle, next) == Choice(ds, logics, cat, current)
    {
      var splitId := cat.order[k];
      var dsTemp := dsNextCycle;
      if splitId != current {
        dsTemp := ProjectCandidate(ds, logics, cat, current, splitId);
        TotalsAt(ds, logics, cat, current, splitId);
      }
      if dsNextCycle > dsTemp {
        dsNextCycle := dsTemp;
        next := splitId;
      }
      k := k + 1;
    }
  }

  /** The inner loops of infer_all_candidate for one candidate: for each logic with the
      candidate's id, add the term of each of its phases. */
  method ProjectCandidate(ds: map<int, real>, logics: seq<Logic>, cat: Catalogue, current: ProgramId, splitId: ProgramId)
    returns (dsTemp: real)
    requires CandidateDefined(ds, logics, cat, current, splitId)
    ensures dsTemp == Projected(ds, logics, |logics|, cat, current, splitId)
  {
    dsTemp := 0.0;
    var j := 0;
    while j < |logics|
      invariant 0 <= j <= |logics|
      invariant dsTemp == Projected(ds, logics, j, cat, current, splitId)
    {
      var logic := logics[j];
      if logic.programID == splitId {
        dsTemp := AddPhases(dsTemp, ds, cat, current, splitId, |logic.durations|);
      }
      j := j + 1;
    }
  }

  /** The innermost loop of infer_all_candidate: add the terms of phases 0 to n - 1 to the
      running estimate. */
  method AddPhases(dsTemp: real, ds: map<int, real>, cat: Catalogue, current: ProgramId, splitId: ProgramId, n: int)
    returns (r: real)
    requires 0 <= n && PhasesDefined(ds, cat, current, splitId, n)
    ensures r == dsTemp + PhaseSum(ds, cat, current, splitId, n)
  {
    r := dsTemp;
    var i := 0;
    while i < n
      invariant 0 <= i <= n
      invariant r == dsTemp + PhaseSum(ds, cat, current, splitId, i)
    {
      assert TermDefined(ds, cat, current, splitId, i);
      assert PhaseSum(ds, cat, current, splitId, i + 1)
          == PhaseSum(ds, cat, current, splitId, i) + Term(ds, cat, current, splitId, i);
      r := r + ds[i] * cat.splits[current][i] * cat.durations[current] / (cat.splits[splitId][i] * cat.durations[splitId]);
      i := i + 1;
    }
  }
}

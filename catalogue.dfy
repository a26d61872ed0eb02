/** The per-light catalogue of signal programs (program_split): for every program id,
    the split of its cycle among the phases and the cycle duration. */
module ProgramCatalogue {
  import opened ScatsTypes

  /** The durations added up from the left, as the source's `cycle_dura +=` loop does. */
  function Sum(s: seq<real>): real
  {
    if |s| == 0 then 0.0 else Sum(s[..|s| - 1]) + s[|s| - 1]
  }

  /** The split list can be computed: the source divides by the cycle duration once per phase,
      so a program with phases needs a non-zero cycle (otherwise ZeroDivisionError). */
  predicate Splittable(durations: seq<real>)
  {
    |durations| == 0 || Sum(durations) != 0.0
  }

  /** The split of a program: each phase duration as a fraction of the cycle duration. */
  function SplitOf(durations: seq<real>, cycle: real): (split: seq<real>)
    requires |durations| == 0 || cycle != 0.0
    ensures |split| == |durations|
  {
    seq(|durations|, i requires 0 <= i < |durations| => durations[i] / cycle)
  }

  /** Each split times the cycle duration gives back the phase duration. */
  lemma SplitTimesCycle(durations: seq<real>, cycle: real, i: int)
    requires cycle != 0.0 && 0 <= i < |durations|
    ensures SplitOf(durations, cycle)[i] * cycle == durations[i]
  {
  }

  /** Dividing every element by `c` divides the sum by `c`. */
  lemma {:induction false} SumScaled(s: seq<real>, t: seq<real>, c: real)
    requires c != 0.0 && |t| == |s|
    requires forall i :: 0 <= i < |s| ==> t[i] == s[i] / c
    ensures Sum(t) == Sum(s) / c
  {
    if |s| > 0 {
      var n := |s|;
      SumScaled(s[..n - 1], t[..n - 1], c);
      assert Sum(t) == Sum(s[..n - 1]) / c + s[n - 1] / c;
    }
  }

  /** The splits of a program whose cycle duration is its phases' sum, when that is not zero, add up to exactly 1. */
  lemma SplitsSumToOne(durations: seq<real>)
    requires |durations| > 0 && Sum(durations) != 0.0
    ensures Sum(SplitOf(durations, Sum(durations))) == 1.0
  {
    var c := Sum(durations);
    var t := SplitOf(durations, c);
    assert Sum(t) == c / c by {
      SumScaled(durations, t, c);
    }
    assert c / c == 1.0 by { DivSelf(c); }
  }

  lemma DivSelf(c: real)
    requires c != 0.0
    ensures c / c == 1.0
  {
  }

  /** The last logic of the list with program id `p`, if there is one: the entry a dict keyed
      by program id keeps when later logics overwrite earlier ones. */
  function LastLogic(logics: seq<Logic>, p: ProgramId): (r: Option<Logic>)
    ensures r.Some? ==> r.value in logics && r.value.programID == p
  {
    if |logics| == 0 then None
    else if logics[|logics| - 1].programID == p then Some(logics[|logics| - 1])
    else LastLogic(logics[..|logics| - 1], p)
  }

  /** LastLogic finds a logic exactly when one of the logics has the id. */
  lemma {:induction false} LastLogicFound(logics: seq<Logic>, p: ProgramId)
    ensures LastLogic(logics, p).Some? <==> exists i :: 0 <= i < |logics| && logics[i].programID == p
  {
    if |logics| > 0 {
      var n := |logics| - 1;
      if logics[n].programID != p {
        var front := logics[..n];
        LastLogicFound(front, p);
        if exists i :: 0 <= i < |logics| && logics[i].programID == p {
          var i :| 0 <= i < |logics| && logics[i].programID == p;
          assert front[i] == logics[i];
        }
        if exists i :: 0 <= i < |front| && front[i].programID == p {
          var i :| 0 <= i < |front| && front[i].programID == p;
          assert logics[i] == front[i];
        }
      }
    }
  }

  /** What LastLogic finds is the last logic with the id: no later logic has it. */
  lemma {:induction false} LastLogicIsLast(logics: seq<Logic>, p: ProgramId)
    requires LastLogic(logics, p).Some?
    ensures exists j :: 0 <= j < |logics| && logics[j] == LastLogic(logics, p).value &&
                        forall k :: j < k < |logics| ==> logics[k].programID != p
  {
    var n := |logics| - 1;
    if logics[n].programID == p {
      assert logics[n] == LastLogic(logics, p).value;
    } else {
      var front := logics[..n];
      LastLogicIsLast(front, p);
      var j :| 0 <= j < |front| && front[j] == LastLogic(front, p).value &&
               forall k :: j < k < |front| ==> front[k].programID != p;
      assert logics[j] == front[j];
      assert forall k :: j < k < |logics| ==> logics[k].programID != p by {
        forall k | j < k < |logics| ensures logics[k].programID != p {
          if k < n { assert logics[k] == front[k]; }
        }
      }
    }
  }

  /** The two dicts program_split returns, with the insertion order of their keys made explicit. */
  datatype Catalogue = Catalogue(order: seq<ProgramId>, splits: map<ProgramId, seq<real>>, durations: map<ProgramId, real>)

  predicate AllSplittable(logics: seq<Logic>)
  {
    forall l :: l in logics ==> Splittable(l.durations)
  }

  /** One iteration of program_split's loop: (re)write the entries of the logic's id; a new id
      goes to the end of the key order, a repeated one keeps its place. */
  function Add(cat: Catalogue, l: Logic): Catalogue
    requires Splittable(l.durations)
  {
    var cycle := Sum(l.durations);
    Catalogue(if l.programID in cat.splits then cat.order else cat.order + [l.programID],
              cat.splits[l.programID := SplitOf(l.durations, cycle)],
              cat.durations[l.programID := cycle])
  }

  /** What program_split returns for `logics`: the logics added in list order to empty dicts. */
  function CatalogueOf(logics: seq<Logic>): Catalogue
    requires AllSplittable(logics)
  {
    if |logics| == 0 then Catalogue([], map[], map[])
    else
      var front := logics[..|logics| - 1];
      assert forall l :: l in front ==> l in logics;
      Add(CatalogueOf(front), logics[|logics| - 1])
  }

  /** program_split: for each logic in list order, add up its phase durations and divide each
      by the total; a later logic with an id already seen replaces that id's entry. */
  method ProgramSplit(logics: seq<Logic>) returns (cat: Catalogue)
    requires AllSplittable(logics)
    ensures cat == CatalogueOf(logics)
  {
    var order: seq<ProgramId> := [];
    var splitsOfPrograms: map<ProgramId, seq<real>> := map[];
    var durationOfPrograms: map<ProgramId, real> := map[];
    var k := 0;
    while k < |logics|
      invariant 0 <= k <= |logics|
      invariant AllSplittable(logics[..k])
      invariant Catalogue(order, splitsOfPrograms, durationOfPrograms) == CatalogueOf(logics[..k])
    {
      var logic := logics[k];
      var dura: seq<real> := [];
      var cycleDura := 0.0;
      var j := 0;
      while j < |logic.durations|
        invariant 0 <= j <= |logic.durations|
        invariant dura == logic.durations[..j]
        invariant cycleDura == Sum(dura)
      {
        assert logic.durations[..j + 1][..j] == logic.durations[..j];
        dura := dura + [logic.durations[j]];
        cycleDura := cycleDura + logic.durations[j];
        j := j + 1;
      }
      assert dura == logic.durations;
      assert logic in logics;
      var split := SplitOf(dura, cycleDura);
      assert logics[..k + 1][..k] == logics[..k];
      if logic.programID !in splitsOfPrograms {
        order := order + [logic.programID];
      }
      splitsOfPrograms := splitsOfPrograms[logic.programID := split];
      durationOfPrograms := durationOfPrograms[logic.programID := cycleDura];
      k := k + 1;
    }
    assert logics[..|logics|] == logics;
    cat := Catalogue(order, splitsOfPrograms, durationOfPrograms);
  }

  /** The catalogue has an entry, in both dicts and in the key order, exactly for the program
      ids that occur among the logics. */
  lemma {:induction false} CatalogueKeys(logics: seq<Logic>, p: ProgramId)
    requires AllSplittable(logics)
    ensures p in CatalogueOf(logics).splits <==> LastLogic(logics, p).Some?
    ensures p in CatalogueOf(logics).durations <==> LastLogic(logics, p).Some?
    ensures p in CatalogueOf(logics).order <==> LastLogic(logics, p).Some?
  {
    if |logics| > 0 {
      var front := logics[..|logics| - 1];
      assert forall l :: l in front ==> l in logics;
      CatalogueKeys(front, p);
    }
  }

  /** Each program id appears once in the key order. */
  lemma {:induction false} CatalogueOrderDistinct(logics: seq<Logic>)
    requires AllSplittable(logics)
    ensures NoDuplicates(CatalogueOf(logics).order)
  {
    if |logics| > 0 {
      var front := logics[..|logics| - 1];
      assert forall l :: l in front ==> l in logics;
      CatalogueOrderDistinct(front);
      var l := logics[|logics| - 1];
      if l.programID !in CatalogueOf(front).splits {
        CatalogueKeys(front, l.programID);
      }
    }
  }

  /** The entry of an id holds the cycle duration and the split of the last logic with that id. */
  lemma {:induction false} CatalogueValues(logics: seq<Logic>, p: ProgramId)
    requires AllSplittable(logics) && LastLogic(logics, p).Some?
    ensures var cat, l := CatalogueOf(logics), LastLogic(logics, p).value;
            && p in cat.splits && p in cat.durations
            && cat.durations[p] == Sum(l.durations)
            && cat.splits[p] == SplitOf(l.durations, Sum(l.durations))
  {
    var front := logics[..|logics| - 1];
    assert forall l :: l in front ==> l in logics;
    if logics[|logics| - 1].programID != p {
      CatalogueValues(front, p);
    }
  }

  /** The split of a program with phases adds up to 1. */
  lemma CatalogueSplitSumsToOne(logics: seq<Logic>, p: ProgramId)
    requires AllSplittable(logics) && LastLogic(logics, p).Some?
    requires |LastLogic(logics, p).value.durations| > 0
    ensures var cat := CatalogueOf(logics); p in cat.splits && Sum(cat.splits[p]) == 1.0
  {
    var l := LastLogic(logics, p).value;
    CatalogueValues(logics, p);
    SplitsSumToOne(l.durations);
  }
}

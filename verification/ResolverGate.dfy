/** The gate that turns scored metrics and a planner's advice into a decision. */
module ResolverGate {
  import opened Numbers
  import opened Wrappers
  import opened Ranking

  const AutoSelect := 0.62
  const AmbiguityDelta := 0.08
  const MinCandidate := 0.18

  /** A metric with what scoring, filtering and validation found. */
  datatype Candidate = Candidate(term: string, rerankScore: real, errors: seq<string>, filtered: Option<string>)

  function FinalScore(c: Candidate): real {
    if c.errors != [] || c.filtered.Some? then 0.0 else c.rerankScore
  }

  /** What the gate reads of a planner's answer; "" and absent are the same for the term. */
  datatype PlannerOutput = PlannerOutput(selectedTerm: string, confidence: real, needsClarification: bool)

  /** Any planner whatever, a language model included. */
  type Planner = seq<Candidate> -> PlannerOutput

  type Normalise = string -> string

  datatype Status = NoMatch | Ambiguous | LowConfidence | Selected

  datatype Decision = Decision(
    status: Status, selected: Option<Candidate>, candidates: seq<Candidate>, confidence: real)

  /** `xs[:k]`; a negative bound counts from the end. */
  function Slice(xs: seq<Candidate>, k: int): seq<Candidate> {
    var n := if k >= 0 then k else |xs| + k;
    if n <= 0 then [] else if n >= |xs| then xs else xs[..n]
  }

  predicate IsKept(c: Candidate) {
    FinalScore(c) >= MinCandidate || c.filtered.Some? || c.errors != []
  }

  predicate IsViable(c: Candidate) { FinalScore(c) >= MinCandidate }

  function Filter(xs: seq<Candidate>, keep: Candidate -> bool): seq<Candidate> {
    if xs == [] then []
    else Filter(xs[..|xs| - 1], keep) + (if keep(xs[|xs| - 1]) then [xs[|xs| - 1]] else [])
  }

  function CandidateByTerm(cs: seq<Candidate>, term: string, normalise: Normalise): Option<Candidate> {
    if term == "" || cs == [] then None
    else if normalise(cs[0].term) == normalise(term) then Some(cs[0])
    else CandidateByTerm(cs[1..], term, normalise)
  }

  function Candidates(metrics: seq<Candidate>, topK: int): seq<Candidate> {
    Slice(SortDesc(Filter(metrics, IsKept), FinalScore), topK)
  }

  /** `resolve` from the scored metrics on. */
  method Resolve(metrics: seq<Candidate>, topK: int, plan: Planner, normalise: Normalise) returns (d: Decision)
    ensures d == Decide(metrics, topK, plan, normalise)
  {
    var scored: seq<Candidate> := [];
    var i := 0;
    while i < |metrics|
      invariant 0 <= i <= |metrics|
      invariant scored == Filter(metrics[..i], IsKept)
    {
      if IsKept(metrics[i]) { scored := scored + [metrics[i]]; }
      assert metrics[..i + 1][..i] == metrics[..i];
      i := i + 1;
    }
    assert metrics[..i] == metrics;
    var candidates := Slice(SortDesc(scored, FinalScore), topK);
    var viable := Filter(candidates, IsViable);
    if viable == [] { return Decision(NoMatch, None, candidates, 0.0); }
    var output := plan(Slice(viable, topK));
    var byTerm := CandidateByTerm(viable, output.selectedTerm, normalise);
    var top := if byTerm.Some? then byTerm.value else viable[0];
    var confidence := if output.selectedTerm != "" then Min(FinalScore(top), output.confidence) else FinalScore(top);
    if output.needsClarification { return Decision(Ambiguous, Some(top), candidates, confidence); }
    if confidence < AutoSelect { return Decision(LowConfidence, Some(top), candidates, confidence); }
    if |viable| > 1 && FinalScore(top) - FinalScore(viable[1]) < AmbiguityDelta {
      return Decision(Ambiguous, Some(top), candidates, confidence);
    }
    return Decision(Selected, Some(top), candidates, confidence);
  }

  function Decide(metrics: seq<Candidate>, topK: int, plan: Planner, normalise: Normalise): Decision {
    var candidates := Candidates(metrics, topK);
    var viable := Filter(candidates, IsViable);
    if viable == [] then Decision(NoMatch, None, candidates, 0.0)
    else Gate(candidates, viable, plan(Slice(viable, topK)), normalise)
  }

  function Gate(
      candidates: seq<Candidate>, viable: seq<Candidate>, output: PlannerOutput, normalise: Normalise): Decision
    requires viable != []
  {
    var byTerm := CandidateByTerm(viable, output.selectedTerm, normalise);
    var top := if byTerm.Some? then byTerm.value else viable[0];
    var confidence := if output.selectedTerm != "" then Min(FinalScore(top), output.confidence) else FinalScore(top);
    var status :=
      if output.needsClarification then Ambiguous
      else if confidence < AutoSelect then LowConfidence
      else if |viable| > 1 && FinalScore(top) - FinalScore(viable[1]) < AmbiguityDelta then Ambiguous
      else Selected;
    Decision(status, Some(top), candidates, confidence)
  }

  // ----- what a selected metric is -----

  /** Metric `w` is good enough, and ahead of each of the others by the margin. */
  ghost predicate ClearWinner(metrics: seq<Candidate>, w: nat) {
    && w < |metrics|
    && FinalScore(metrics[w]) >= AutoSelect
    && forall j :: 0 <= j < |metrics| && j != w ==> FinalScore(metrics[w]) - FinalScore(metrics[j]) >= AmbiguityDelta
  }

  lemma {:induction false} FilterMembers(xs: seq<Candidate>, keep: Candidate -> bool)
    ensures forall c :: multiset(Filter(xs, keep))[c] == if keep(c) then multiset(xs)[c] else 0
  {
    if xs != [] {
      FilterMembers(xs[..|xs| - 1], keep);
      assert xs == xs[..|xs| - 1] + [xs[|xs| - 1]];
    }
  }

  /** Filtering a falling sequence by a lower bound keeps a front part of it. */
  lemma {:induction false} ViableIsPrefix(xs: seq<Candidate>, viable: seq<Candidate>)
    requires Descending(xs, FinalScore) && viable == Filter(xs, IsViable)
    ensures viable <= xs
    ensures forall i :: |viable| <= i < |xs| ==> !IsViable(xs[i])
    ensures forall i :: 0 <= i < |viable| ==> IsViable(viable[i])
  {
    if xs != [] {
      var front, last := xs[..|xs| - 1], xs[|xs| - 1];
      if IsViable(last) {
        BetterIsViable(xs);
        FilterAll(xs, IsViable);
      } else {
        ViableIsPrefix(front, Filter(front, IsViable));
      }
    }
  }

  /** Everything ahead of a viable candidate is viable. */
  lemma BetterIsViable(xs: seq<Candidate>)
    requires Descending(xs, FinalScore) && xs != [] && IsViable(xs[|xs| - 1])
    ensures forall i :: 0 <= i < |xs| ==> IsViable(xs[i])
  {
    forall i | 0 <= i < |xs| - 1
      ensures IsViable(xs[i])
    {
      assert FinalScore(xs[i]) >= FinalScore(xs[|xs| - 1]);
    }
  }

  lemma {:induction false} ByTermMember(cs: seq<Candidate>, term: string, normalise: Normalise)
    ensures var r := CandidateByTerm(cs, term, normalise); r.Some? ==> r.value in cs
  {
    if cs != [] { ByTermMember(cs[1..], term, normalise); }
  }

  /** All kept metrics, best first. */
  function Sorted(metrics: seq<Candidate>): seq<Candidate> { SortDesc(Filter(metrics, IsKept), FinalScore) }

  /** The first of the sorted metrics, ahead of the second by the margin and good enough, is a clear winner. */
  lemma FirstIsWinner(metrics: seq<Candidate>, w: nat)
    requires var s := Sorted(metrics);
             && s != [] && w < |metrics| && metrics[w] == s[0] && FinalScore(s[0]) >= AutoSelect
             && (|s| > 1 ==> FinalScore(s[0]) - FinalScore(s[1]) >= AmbiguityDelta)
    ensures ClearWinner(metrics, w)
  {
    var s := Sorted(metrics);
    SortDescSorts(Filter(metrics, IsKept), FinalScore);
    FilterMembers(metrics, IsKept);
    forall j: nat | j < |metrics| && j != w
      ensures FinalScore(metrics[w]) - FinalScore(metrics[j]) >= AmbiguityDelta
    {
      if IsKept(metrics[j]) {
        AtAnotherPlace(metrics, s, w, j);
      }
    }
  }

  /** A kept metric at another place than the first sorted one stands behind it. */
  lemma AtAnotherPlace(metrics: seq<Candidate>, s: seq<Candidate>, w: nat, j: nat)
    requires w < |metrics| && j < |metrics| && w != j && s != [] && metrics[w] == s[0]
    requires IsKept(metrics[w]) && IsKept(metrics[j])
    requires forall c :: multiset(s)[c] == if IsKept(c) then multiset(metrics)[c] else 0
    ensures exists n :: 1 <= n < |s| && s[n] == metrics[j]
  {
    assert metrics[j] in multiset(metrics);
    if metrics[j] == metrics[w] { TwoPlaces(metrics, if w < j then w else j, if w < j then j else w); }
    BeyondFirst(s, metrics[j]);
  }

  lemma TwoPlaces(xs: seq<Candidate>, low: nat, high: nat)
    requires low < high < |xs| && xs[low] == xs[high]
    ensures multiset(xs)[xs[low]] >= 2
  {
    assert xs == xs[..high] + xs[high..];
    assert xs[low] in xs[..high] by { assert xs[..high][low] == xs[low]; }
    assert xs[low] in xs[high..] by { assert xs[high..][0] == xs[low]; }
  }

  lemma BeyondFirst(s: seq<Candidate>, c: Candidate)
    requires s != [] && multiset(s)[c] >= (if c == s[0] then 2 else 1)
    ensures exists n :: 1 <= n < |s| && s[n] == c
  {
    var rest := s[1..];
    assert s == [s[0]] + rest;
    assert c in multiset(rest);
    var m :| 0 <= m < |rest| && rest[m] == c;
    assert s[m + 1] == c;
  }

  lemma SortedHasMetric(metrics: seq<Candidate>, n: nat) returns (w: nat)
    requires n < |Sorted(metrics)|
    ensures w < |metrics| && metrics[w] == Sorted(metrics)[n] && IsKept(metrics[w])
  {
    var s := Sorted(metrics);
    SortDescSorts(Filter(metrics, IsKept), FinalScore);
    FilterMembers(metrics, IsKept);
    assert s[n] in multiset(s);
    assert s[n] in multiset(metrics);
    w :| 0 <= w < |metrics| && metrics[w] == s[n];
  }

  lemma SliceOfSorted(s: seq<Candidate>, topK: int)
    requires topK >= 2
    ensures Slice(s, topK) <= s && (|Slice(s, topK)| >= 2 || Slice(s, topK) == s)
  {
  }

  /** Whatever term the planner names, only the first viable candidate can be selected. */
  lemma GateSelectsFirst(
      candidates: seq<Candidate>, viable: seq<Candidate>, output: PlannerOutput, normalise: Normalise)
    requires viable != [] && Gate(candidates, viable, output, normalise).status.Selected?
    requires forall i :: 1 <= i < |viable| ==> FinalScore(viable[i]) <= FinalScore(viable[1])
    ensures var top := Gate(candidates, viable, output, normalise).selected.value;
            && top == viable[0] && FinalScore(top) >= AutoSelect
            && (|viable| > 1 ==> FinalScore(top) - FinalScore(viable[1]) >= AmbiguityDelta)
  {
    ByTermMember(viable, output.selectedTerm, normalise);
  }

  /** With room for two candidates, whatever the planner says, a selected metric is the clear winner
      among all metrics, valid and not filtered. */
  lemma SelectedIsClearWinner(metrics: seq<Candidate>, topK: int, plan: Planner, normalise: Normalise)
    requires topK >= 2 && Decide(metrics, topK, plan, normalise).status.Selected?
    ensures exists w: nat :: ClearWinner(metrics, w)
              && Decide(metrics, topK, plan, normalise).selected == Some(metrics[w])
                     && metrics[w].errors == [] && metrics[w].filtered.None?
  {
    var s := Sorted(metrics);
    var candidates := Candidates(metrics, topK);
    var viable := Filter(candidates, IsViable);
    var d := Decide(metrics, topK, plan, normalise);
    var output := plan(Slice(viable, topK));
    SortDescSorts(Filter(metrics, IsKept), FinalScore);
    SliceOfSorted(s, topK);
    ViableIsPrefix(candidates, Filter(candidates, IsViable));
    ByTermMember(viable, output.selectedTerm, normalise);
    var top := d.selected.value;
    assert forall i :: 1 <= i < |viable| ==> FinalScore(viable[i]) <= FinalScore(viable[1]);
    GateSelectsFirst(candidates, viable, output, normalise);
    assert top == s[0];
    assert FinalScore(top) >= AutoSelect;
    var w := SortedHasMetric(metrics, 0);
    FirstIsWinner(metrics, w);
  }

  /** The planner does not stand in the way of `c`: it names it, or nothing that is offered, and is sure enough. */
  predicate Agrees(output: PlannerOutput, viable: seq<Candidate>, c: Candidate, normalise: Normalise) {
    && !output.needsClarification
    && (output.selectedTerm != "" ==> output.confidence >= AutoSelect)
    && CandidateByTerm(viable, output.selectedTerm, normalise) in [None, Some(c)]
  }

  lemma WinnerOnce(metrics: seq<Candidate>, w: nat)
    requires ClearWinner(metrics, w)
    ensures multiset(Sorted(metrics))[metrics[w]] == 1
  {
    SortDescSorts(Filter(metrics, IsKept), FinalScore);
    FilterMembers(metrics, IsKept);
    var m, before, after := metrics[w], metrics[..w], metrics[w + 1..];
    assert metrics == before + [m] + after;
    assert m !in before && m !in after;
    assert multiset(before)[m] == 0 && multiset(after)[m] == 0;
  }

  lemma OnlyFirst(s: seq<Candidate>, n: nat)
    requires s != [] && multiset(s)[s[0]] == 1 && 1 <= n < |s|
    ensures s[n] != s[0]
  {
    assert s == [s[0]] + s[1..];
    assert s[n] in s[1..] by { assert s[1..][n - 1] == s[n]; }
    assert multiset(s[1..])[s[0]] == 0;
  }

  /** A clear winner stands first among the candidates. */
  lemma WinnerIsFirst(metrics: seq<Candidate>, w: nat)
    requires ClearWinner(metrics, w)
    ensures var s := Sorted(metrics);
            && s != [] && s[0] == metrics[w]
            && forall n :: 1 <= n < |s| ==> FinalScore(s[0]) - FinalScore(s[n]) >= AmbiguityDelta
  {
    var s := Sorted(metrics);
    SortDescSorts(Filter(metrics, IsKept), FinalScore);
    WinnerOnce(metrics, w);
    assert metrics[w] in multiset(s);
    var at :| 0 <= at < |s| && s[at] == metrics[w];
    var first := SortedHasMetric(metrics, 0);
    assert FinalScore(s[0]) >= FinalScore(s[at]);
    assert first == w;
    forall n: nat | 1 <= n < |s|
      ensures FinalScore(s[0]) - FinalScore(s[n]) >= AmbiguityDelta
    {
      OnlyFirst(s, n);
      var m := SortedHasMetric(metrics, n);
    }
  }

  lemma GateSelectsExactly(
      candidates: seq<Candidate>, viable: seq<Candidate>, output: PlannerOutput, normalise: Normalise)
    requires viable != [] && FinalScore(viable[0]) >= AutoSelect
    requires forall n :: 1 <= n < |viable| ==> FinalScore(viable[0]) - FinalScore(viable[n]) >= AmbiguityDelta
    requires forall n :: 1 <= n < |viable| ==> FinalScore(viable[n]) <= FinalScore(viable[1])
    ensures Gate(candidates, viable, output, normalise).status.Selected?
        <==> Agrees(output, viable, viable[0], normalise)
  {
    ByTermMember(viable, output.selectedTerm, normalise);
    if Gate(candidates, viable, output, normalise).status.Selected? {
      GateSelectsFirst(candidates, viable, output, normalise);
    }
  }

  /** Exactly the clear winners the planner agrees with are selected. */
  lemma SelectedExactly(metrics: seq<Candidate>, topK: int, plan: Planner, normalise: Normalise, w: nat)
    requires topK >= 2 && ClearWinner(metrics, w)
    ensures var viable := Filter(Candidates(metrics, topK), IsViable);
            Decide(metrics, topK, plan, normalise).status.Selected?
            <==> Agrees(plan(Slice(viable, topK)), viable, metrics[w], normalise)
  {
    var candidates := Candidates(metrics, topK);
    SortDescSorts(Filter(metrics, IsKept), FinalScore);
    WinnerIsFirst(metrics, w);
    SliceOfSorted(Sorted(metrics), topK);
    ViableIsPrefix(candidates, Filter(candidates, IsViable));
    var viable := Filter(candidates, IsViable);
    assert viable != [] && viable[0] == metrics[w];
    GateSelectsExactly(candidates, viable, plan(Slice(viable, topK)), normalise);
  }

  // ----- with room for one candidate the margin is not checked -----

  /** The guarantee, for one bound. */
  ghost predicate SelectsOnlyWinners(topK: int) {
    forall metrics, plan, normalise ::
      Decide(metrics, topK, plan, normalise).status.Selected? ==> exists w: nat :: ClearWinner(metrics, w)
  }

  lemma {:induction false} FilterAll(xs: seq<Candidate>, keep: Candidate -> bool)
    requires forall i :: 0 <= i < |xs| ==> keep(xs[i])
    ensures Filter(xs, keep) == xs
  {
    if xs != [] { FilterAll(xs[..|xs| - 1], keep); }
  }

  /** The guarantee holds for a bound of two or more and for zero, and for no other bound: with one, or with a
      negative one and just enough metrics, ties go unseen. */
  lemma SelectsOnlyWinnersExactly(topK: int)
    ensures SelectsOnlyWinners(topK) <==> topK >= 2 || topK == 0
  {
    if topK >= 2 {
      forall metrics, plan, normalise | Decide(metrics, topK, plan, normalise).status.Selected?
        ensures exists w: nat :: ClearWinner(metrics, w)
      {
        SelectedIsClearWinner(metrics, topK, plan, normalise);
      }
    } else if topK != 0 {
      TieSelected(topK);
    } else {
      assert forall metrics :: Filter(Candidates(metrics, topK), IsViable) == [];
    }
  }

  /** So many equal metrics that the bound leaves one. */
  lemma TieLeavesOne(topK: int, c: Candidate, metrics: seq<Candidate>)
    requires topK == 1 || topK < 0
    requires IsKept(c) && |metrics| == (if topK == 1 then 2 else 1 - topK)
    requires forall i :: 0 <= i < |metrics| ==> metrics[i] == c
    ensures Candidates(metrics, topK) == [c]
  {
    FilterAll(metrics, IsKept);
    SortDescSorted(metrics, FinalScore);
    assert |Slice(metrics, topK)| == 1;
  }

  lemma TieSelected(topK: int)
    requires topK == 1 || topK < 0
    ensures !SelectsOnlyWinners(topK)
  {
    var c := Candidate("m", 0.9, [], None);
    var n: nat := if topK == 1 then 2 else 1 - topK;
    var metrics := seq(n, _ => c);
    var plan: Planner := _ => PlannerOutput("", 0.0, false);
    var normalise: Normalise := s => s;
    TieLeavesOne(topK, c, metrics);
    FilterAll([c], IsViable);
    TieDecided(metrics, topK, plan, normalise, c);
    forall w: nat
      ensures !ClearWinner(metrics, w)
    {
      if w < n {
        var j := if w == 0 then 1 else 0;
        assert metrics[j] == metrics[w];
      }
    }
  }

  lemma TieDecided(metrics: seq<Candidate>, topK: int, plan: Planner, normalise: Normalise, c: Candidate)
    requires Candidates(metrics, topK) == [c] && Filter([c], IsViable) == [c] && FinalScore(c) >= AutoSelect
    requires plan(Slice([c], topK)) == PlannerOutput("", 0.0, false)
    ensures Decide(metrics, topK, plan, normalise).status.Selected?
  {
  }
}

/** Every outcome of the gate, with its bounds as numbers. */
module ResolverMeaning {
  import opened Wrappers
  import opened Numbers
  import opened Ranking
  import opened ResolverGate

  /** A metric with an error, or one that was filtered, is worth nothing; any other its rerank score. */
  function Worth(c: Candidate): real { if c.errors == [] && c.filtered == None then c.rerankScore else 0.0 }

  /** It is carried on when it is worth enough, or when there is something to report about it. */
  predicate Carried(c: Candidate) { Worth(c) >= 0.18 || c.errors != [] || c.filtered != None }

  predicate Falling(cs: seq<Candidate>) { forall i, j :: 0 <= i < j < |cs| ==> Worth(cs[i]) >= Worth(cs[j]) }

  /** `xs[:k]`. */
  function FirstOf(xs: seq<Candidate>, k: int): seq<Candidate> {
    if k >= |xs| then xs else if k >= 0 then xs[..k] else if |xs| + k > 0 then xs[..|xs| + k] else []
  }

  /** All metrics that are carried on, best first. */
  ghost predicate IsOrder(metrics: seq<Candidate>, order: seq<Candidate>) {
    && Falling(order)
    && forall c :: multiset(order)[c] == if Carried(c) then multiset(metrics)[c] else 0
  }

  lemma ScoreIsWorth(c: Candidate)
    ensures FinalScore(c) == Worth(c) && (IsKept(c) <==> Carried(c))
  {
  }

  lemma DescendingFalls(cs: seq<Candidate>)
    ensures Descending(cs, FinalScore) <==> Falling(cs)
  {
    forall c
      ensures FinalScore(c) == Worth(c)
    {
      ScoreIsWorth(c);
    }
  }

  lemma SortedIsOrder(metrics: seq<Candidate>, kept: seq<Candidate>, order: seq<Candidate>)
    requires kept == ResolverGate.Filter(metrics, IsKept) && order == SortDesc(kept, FinalScore)
    ensures IsOrder(metrics, order)
  {
    SortDescSorts(kept, FinalScore);
    FilterMembers(metrics, IsKept);
    DescendingFalls(order);
    forall c
      ensures multiset(order)[c] == if Carried(c) then multiset(metrics)[c] else 0
    {
      ScoreIsWorth(c);
    }
  }

  lemma SliceIsFirst(xs: seq<Candidate>, k: int)
    ensures Slice(xs, k) == FirstOf(xs, k) && FirstOf(xs, k) <= xs
  {
  }

  /** The candidates are the first `topK` of the metrics that are carried on, best first. */
  lemma CandidatesInFull(metrics: seq<Candidate>, topK: int) returns (order: seq<Candidate>)
    ensures IsOrder(metrics, order) && Candidates(metrics, topK) == FirstOf(order, topK)
    ensures Falling(Candidates(metrics, topK))
  {
    var kept := ResolverGate.Filter(metrics, IsKept);
    order := SortDesc(kept, FinalScore);
    SortedIsOrder(metrics, kept, order);
    SliceIsFirst(order, topK);
  }

  /** Those worth at least 0.18 stand in front of the others. */
  predicate IsViablePart(candidates: seq<Candidate>, viable: seq<Candidate>) {
    && viable <= candidates
    && (forall i :: 0 <= i < |viable| ==> Worth(viable[i]) >= 0.18)
    && (forall i :: |viable| <= i < |candidates| ==> Worth(candidates[i]) < 0.18)
  }

  lemma ViableInFull(metrics: seq<Candidate>, topK: int)
    ensures IsViablePart(Candidates(metrics, topK), ResolverGate.Filter(Candidates(metrics, topK), IsViable))
  {
    var order := CandidatesInFull(metrics, topK);
    var cs := Candidates(metrics, topK);
    DescendingFalls(cs);
    ViableIsPrefix(cs, ResolverGate.Filter(cs, IsViable));
    forall i | |ResolverGate.Filter(cs, IsViable)| <= i < |cs|
      ensures Worth(cs[i]) < 0.18
    {
      assert !IsViable(cs[i]);
    }
  }

  /** The planner's term names the candidate at `t`, and none before it. */
  predicate Names(term: string, viable: seq<Candidate>, t: nat, normalise: Normalise) {
    && term != "" && t < |viable| && normalise(viable[t].term) == normalise(term)
    && forall i :: 0 <= i < t ==> normalise(viable[i].term) != normalise(term)
  }

  predicate NamesNone(term: string, viable: seq<Candidate>, normalise: Normalise) {
    term == "" || forall i :: 0 <= i < |viable| ==> normalise(viable[i].term) != normalise(term)
  }

  lemma {:induction false} ByTermInFull(viable: seq<Candidate>, term: string, t: nat, normalise: Normalise)
    ensures Names(term, viable, t, normalise) ==> CandidateByTerm(viable, term, normalise) == Some(viable[t])
    ensures NamesNone(term, viable, normalise) ==> CandidateByTerm(viable, term, normalise) == None
  {
    if viable != [] && term != "" {
      assert viable == [viable[0]] + viable[1..];
      ByTermInFull(viable[1..], term, if t > 0 then t - 1 else 0, normalise);
    }
  }

  /** What becomes of the candidate that is considered, `top`, in view of the viable candidates. */
  predicate Judged(d: Decision, top: Candidate, viable: seq<Candidate>, output: PlannerOutput) {
    && d.selected == Some(top)
    && (output.selectedTerm == "" ==> d.confidence == Worth(top))
    && (output.selectedTerm != "" && output.confidence < Worth(top) ==> d.confidence == output.confidence)
    && (output.selectedTerm != "" && output.confidence >= Worth(top) ==> d.confidence == Worth(top))
    && var close := |viable| > 1 && Worth(top) - Worth(viable[1]) < 0.08;
       && (d.status == LowConfidence <==> !output.needsClarification && d.confidence < 0.62)
       && (d.status == Ambiguous <==> output.needsClarification || (d.confidence >= 0.62 && close))
       && (d.status == Selected <==> !output.needsClarification && d.confidence >= 0.62 && !close)
  }

  /** The whole decision, from the scored metrics and the planner's answer to the viable candidates it was offered. */
  lemma DecideInFull(metrics: seq<Candidate>, topK: int, plan: Planner, normalise: Normalise, viable: seq<Candidate>)
    requires IsViablePart(Candidates(metrics, topK), viable)
    ensures var d, output := Decide(metrics, topK, plan, normalise), plan(FirstOf(viable, topK));
            && d.candidates == Candidates(metrics, topK)
            && (viable == [] ==> d.status == NoMatch && d.selected == None && d.confidence == 0.0)
            && (viable != [] && NamesNone(output.selectedTerm, viable, normalise) ==>
                  Judged(d, viable[0], viable, output))
            && (forall t :: 0 <= t < |viable| && Names(output.selectedTerm, viable, t, normalise) ==>
                  Judged(d, viable[t], viable, output))
  {
    ViableInFull(metrics, topK);
    SamePart(Candidates(metrics, topK), viable, ResolverGate.Filter(Candidates(metrics, topK), IsViable));
    SliceIsFirst(viable, topK);
    var term := plan(FirstOf(viable, topK)).selectedTerm;
    ByTermInFull(viable, term, 0, normalise);
    forall t | 0 <= t < |viable| && Names(term, viable, t, normalise)
      ensures CandidateByTerm(viable, term, normalise) == Some(viable[t])
    {
      ByTermInFull(viable, term, t, normalise);
    }
  }

  lemma ViableAt(candidates: seq<Candidate>, viable: seq<Candidate>, i: nat)
    requires IsViablePart(candidates, viable) && i < |candidates|
    ensures i < |viable| <==> Worth(candidates[i]) >= 0.18
  {
    if i < |viable| { assert candidates[i] == viable[i]; }
  }

  lemma NoShorterPart(candidates: seq<Candidate>, a: seq<Candidate>, b: seq<Candidate>)
    requires IsViablePart(candidates, a) && IsViablePart(candidates, b)
    ensures |a| >= |b|
  {
    if |a| < |candidates| {
      ViableAt(candidates, a, |a|);
      ViableAt(candidates, b, |a|);
    }
  }

  lemma SamePart(candidates: seq<Candidate>, a: seq<Candidate>, b: seq<Candidate>)
    requires IsViablePart(candidates, a) && IsViablePart(candidates, b)
    ensures a == b
  {
    NoShorterPart(candidates, a, b);
    NoShorterPart(candidates, b, a);
  }
}

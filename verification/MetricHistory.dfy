/** The promises of the version log, for a service that is restarted between commands. */
module MetricHistory {
  import opened Wrappers
  import opened MetricVersions
  import opened MetricRestarts

  /** The commands of a run, in order. */
  function CallsOf(actions: seq<Action>): seq<Call> {
    if actions == [] then [] else CallOf(actions[0]) + CallsOf(actions[1..])
  }

  function CallOf(a: Action): seq<Call> { if a.Do? then [a.call] else [] }

  lemma {:induction false} CallsFromActions(actions: seq<Action>)
    ensures forall c :: c in CallsOf(actions) ==> Do(c) in actions
  {
    if actions != [] { CallsFromActions(actions[1..]); }
  }

  lemma {:induction false} CallsDistinct(actions: seq<Action>)
    requires FreshCalls(actions)
    ensures DistinctCalls(CallsOf(actions))
  {
    if actions != [] {
      var rest := CallsOf(actions[1..]);
      CallsDistinct(actions[1..]);
      CallsFromActions(actions[1..]);
      if actions[0].Do? {
        forall j | 0 <= j < |rest|
          ensures rest[j].id != actions[0].call.id
        {
          assert rest[j] in rest && Do(rest[j]) in actions[1..];
        }
      }
    }
  }

  lemma {:induction false} CallsAppend(a: seq<Action>, b: seq<Action>, calls: seq<Call>)
    requires calls == CallsOf(a + b)
    ensures calls == CallsOf(a) + CallsOf(b)
  {
    if a == [] {
      assert a + b == b;
    } else {
      assert (a + b)[0] == a[0] && (a + b)[1..] == a[1..] + b;
      CallsAppend(a[1..], b, CallsOf(a[1..] + b));
      Regroup(CallOf(a[0]), CallsOf(a[1..]), CallsOf(b));
    }
  }

  lemma Regroup(a: seq<Call>, b: seq<Call>, c: seq<Call>)
    ensures a + (b + c) == a + b + c
  {
  }

  lemma {:induction false} RunAppend(fold: Folding, m: Memory, a: seq<Call>, b: seq<Call>, end: Memory)
    requires end == Run(fold, m, a + b)
    ensures end == Run(fold, Run(fold, m, a), b)
    decreases |a|
  {
    if a == [] {
      assert a + b == b;
    } else {
      assert (a + b)[0] == a[0] && (a + b)[1..] == a[1..] + b;
      RunAppend(fold, Step(fold, m, a[0].command, a[0].id, a[0].at), a[1..], b, end);
    }
  }

  /** What a command does to the service's memory is what a step of the log does. */
  lemma ServeIsStep(fold: Folding, s: Service, call: Call)
    ensures Serve(fold, s, call).memory == Step(fold, s.memory, call.command, call.id, call.at)
  {
  }

  /** Without restarts, the service's memory is the memory of the log. */
  lemma {:induction false} ServiceRunsLog(fold: Folding, s: Service, actions: seq<Action>)
    ensures RunService(fold, s, WithoutRestarts(actions)).memory == Run(fold, s.memory, CallsOf(actions))
    decreases |actions|
  {
    if actions != [] {
      var next := if actions[0].Do? then Serve(fold, s, actions[0].call) else s;
      ServiceRunsLog(fold, next, actions[1..]);
      if actions[0].Do? {
        ServeIsStep(fold, s, actions[0].call);
        assert WithoutRestarts(actions)[1..] == WithoutRestarts(actions[1..]);
        assert CallsOf(actions)[1..] == CallsOf(actions[1..]);
      } else {
        assert WithoutRestarts(actions) == WithoutRestarts(actions[1..]);
        assert CallsOf(actions) == CallsOf(actions[1..]);
      }
    }
  }

  const Blank := Memory(map[], map[])

  /** The versions of a term in the order in which the commands of the run made them. */
  function LogOf(fold: Folding, actions: seq<Action>, key: string): seq<Version> {
    History(Run(fold, Blank, CallsOf(actions)), key)
  }

  lemma LogIsOk(fold: Folding, actions: seq<Action>)
    requires FreshCalls(actions)
    ensures MetricVersions.Ok(fold, Run(fold, Blank, CallsOf(actions)))
    ensures forall id :: (forall i :: 0 <= i < |CallsOf(actions)| ==> CallsOf(actions)[i].id != id) ==>
              Fresh(Run(fold, Blank, CallsOf(actions)), id)
  {
    CallsDistinct(actions);
    RunKeeps(fold, Blank, CallsOf(actions));
  }

  /** The version is the `n`-th of the log, up to empty optional texts, and notes the formula shown before it. */
  ghost predicate Stands(log: seq<Version>, n: nat, v: Version) {
    && n < |log| && NoEmptyTexts(v) == NoEmptyTexts(log[n])
    && KeepGiven(v.previousFormula) == KeepGiven(Formula(ShownAfter(log, n)))
  }

  /** The service holds some version that stands at this place. */
  ghost predicate Held(log: seq<Version>, n: nat, vs: seq<Version>) { exists v :: v in vs && Stands(log, n, v) }

  ghost predicate Placed(log: seq<Version>, v: Version) { exists n: nat :: Stands(log, n, v) }

  /** The versions held are those of the log. */
  ghost predicate HoldsLog(log: seq<Version>, vs: seq<Version>) {
    (forall v :: v in vs ==> Placed(log, v)) && (forall n: nat :: n < |log| ==> Held(log, n, vs))
  }

  function TextsOf(vs: seq<Version>): set<Version> { set v | v in vs :: NoEmptyTexts(v) }

  lemma Twin(vs: seq<Version>, log: seq<Version>, v: Version) returns (n: nat)
    requires v in vs && TextsOf(vs) == TextsOf(log)
    ensures n < |log| && NoEmptyTexts(v) == NoEmptyTexts(log[n])
  {
    assert NoEmptyTexts(v) in TextsOf(vs);
    assert NoEmptyTexts(v) in TextsOf(log);
    var w :| w in log && NoEmptyTexts(w) == NoEmptyTexts(v);
    n :| n < |log| && log[n] == w;
  }

  lemma SameStands(log: seq<Version>, n: nat, v: Version)
    requires n < |log| && Follows(log, n) && NoEmptyTexts(v) == NoEmptyTexts(log[n])
    ensures Stands(log, n, v)
  {
    assert NoEmptyTexts(v).previousFormula == NoEmptyTexts(log[n]).previousFormula;
  }

  lemma SameVersions(vs: seq<Version>, log: seq<Version>)
    requires forall n :: 0 <= n < |log| ==> Follows(log, n)
    requires TextsOf(vs) == TextsOf(log)
    ensures HoldsLog(log, vs)
  {
    forall v | v in vs
      ensures Placed(log, v)
    {
      var n := Twin(vs, log, v);
      SameStands(log, n, v);
    }
    forall n: nat | n < |log|
      ensures Held(log, n, vs)
    {
      var k := Twin(log, vs, log[n]);
      SameStands(log, n, vs[k]);
    }
  }

  /** However the service was restarted in between: the commands alone determine for each term a log in which every
      version follows from those before it; the service holds exactly the versions of that log, up to empty optional
      texts, each with the formula shown before it; and it shows the last one unless that is a deletion. */
  lemma RestartedLogsFollow(fold: Folding, actions: seq<Action>, key: string)
    requires FreshCalls(actions)
    ensures var m, log := RunService(fold, Empty, actions).memory, LogOf(fold, actions, key);
            && (log == [] || LogOk(fold, key, log))
            && HoldsLog(log, History(m, key))
            && Trimmed(Current(m, key)) == Trimmed(ShownAfter(log, |log|))
  {
    var m, log := RunService(fold, Empty, actions).memory, LogOf(fold, actions, key);
    LogShown(fold, actions, key);
    SameTexts(fold, actions, key);
    SameVersions(History(m, key), log);
  }

  lemma LogShown(fold: Folding, actions: seq<Action>, key: string)
    requires FreshCalls(actions)
    ensures var log := LogOf(fold, actions, key);
            && (log == [] || LogOk(fold, key, log))
            && (forall n :: 0 <= n < |log| ==> Follows(log, n))
            && Current(Run(fold, Blank, CallsOf(actions)), key) == ShownAfter(log, |log|)
  {
    var t := Run(fold, Blank, CallsOf(actions));
    LogIsOk(fold, actions);
    CurrentIsLast(fold, t, key);
    if key in t.versions { assert LogAndHead(fold, key, t.versions[key], t.active[key]); }
  }

  lemma SameTexts(fold: Folding, actions: seq<Action>, key: string)
    requires FreshCalls(actions)
    ensures var m, t := RunService(fold, Empty, actions).memory, Run(fold, Blank, CallsOf(actions));
            TextsOf(History(m, key)) == TextsOf(History(t, key)) && Trimmed(Current(m, key)) == Trimmed(Current(t, key))
  {
    ServiceRunsLog(fold, Empty, actions);
    RestartsAreInvisible(fold, actions, key);
  }

  lemma PartsDistinct(a: seq<Call>, b: seq<Call>)
    requires DistinctCalls(a + b)
    ensures DistinctCalls(b) && forall i, j :: 0 <= i < |b| && 0 <= j < |a| ==> a[j].id != b[i].id
  {
    var calls := a + b;
    assert forall i :: 0 <= i < |a| ==> calls[i] == a[i];
    assert forall i :: 0 <= i < |b| ==> calls[|a| + i] == b[i];
  }

  lemma PartsFresh(fold: Folding, a: seq<Action>, b: seq<Action>)
    requires FreshCalls(a + b)
    ensures FreshCalls(a) && DistinctCalls(CallsOf(b))
    ensures forall i :: 0 <= i < |CallsOf(b)| ==> Fresh(Run(fold, Blank, CallsOf(a)), CallsOf(b)[i].id)
  {
    assert FreshCalls(a) by { assert forall i :: 0 <= i < |a| ==> (a + b)[i] == a[i]; }
    CallsDistinct(a + b);
    CallsAppend(a, b, CallsOf(a + b));
    PartsDistinct(CallsOf(a), CallsOf(b));
    LogIsOk(fold, a);
  }

  lemma LogGrows(fold: Folding, a: seq<Action>, b: seq<Action>, key: string)
    requires FreshCalls(a + b)
    ensures LogOf(fold, a, key) <= LogOf(fold, a + b, key)
  {
    PartsFresh(fold, a, b);
    LogIsOk(fold, a);
    CallsAppend(a, b, CallsOf(a + b));
    RunAppend(fold, Blank, CallsOf(a), CallsOf(b), Run(fold, Blank, CallsOf(a) + CallsOf(b)));
    RunKeeps(fold, Run(fold, Blank, CallsOf(a)), CallsOf(b));
  }

  /** The log of a run only ever grows at its end, and no version disappears from a restarted service: whatever it held
      after the first actions it still holds after all of them, up to empty optional texts. */
  lemma RestartedLogsGrow(fold: Folding, a: seq<Action>, b: seq<Action>, key: string)
    requires FreshCalls(a + b)
    ensures LogOf(fold, a, key) <= LogOf(fold, a + b, key)
    ensures var before, after := RunService(fold, Empty, a).memory, RunService(fold, Empty, a + b).memory;
            TextsOf(History(before, key)) <= TextsOf(History(after, key))
  {
    PartsFresh(fold, a, b);
    LogGrows(fold, a, b, key);
    SameTexts(fold, a, key);
    SameTexts(fold, a + b, key);
    MoreTexts(LogOf(fold, a, key), LogOf(fold, a + b, key));
  }

  lemma MoreTexts(log: seq<Version>, longer: seq<Version>)
    requires log <= longer
    ensures TextsOf(log) <= TextsOf(longer)
  {
    assert forall v :: v in log ==> v in longer;
  }
}

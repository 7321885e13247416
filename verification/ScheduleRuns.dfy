/** Runs of the scheduler: creations, decisions on approvals, and runs of whatever is due, in any order. */
module ScheduleRuns {
  import opened Wrappers
  import opened Schedules

  datatype Attempt = Attempt(schedule: string, recipient: string, outcome: Outcome, attempts: nat)

  /** An audit record together with the number of the run that wrote it. */
  datatype Logged = Logged(run: nat, record: AuditRecord)

  function LogAll(run: nat, records: seq<AuditRecord>): (r: seq<Logged>)
    ensures |r| == |records| && forall i :: 0 <= i < |r| ==> r[i] == Logged(run, records[i])
  {
    seq(|records|, i requires 0 <= i < |records| => Logged(run, records[i]))
  }

  datatype State = State(
    schedules: seq<Schedule>, requests: Requests, audit: seq<Logged>, notifications: seq<Attempt>, runs: nat)

  /** Where the loop over the schedules stands. */
  datatype Progress = Progress(state: State, attempts: seq<Attempt>, raised: bool)

  /** One turn of the loop. */
  function Turn(p: Progress, i: nat, now: int, env: Env): Progress
    requires i < |p.state.schedules|
  {
    var s := p.state.schedules[i];
    if p.raised || !IsDue(s, now) then p
    else
      var d := Deliver(s, now, env);
      Progress(p.state.(schedules := p.state.schedules[i := d.schedule],
                        audit := p.state.audit + LogAll(p.state.runs, d.records)),
               if d.raised then p.attempts else p.attempts + [Attempt(s.id, s.recipient, d.outcome, d.tries)],
               d.raised)
  }

  /** The first `n` turns of `run_due_schedules`. */
  function Turns(s: State, n: nat, now: int, env: Env): (r: Progress)
    requires n <= |s.schedules|
    ensures |r.state.schedules| == |s.schedules|
    ensures forall i :: n <= i < |s.schedules| ==> r.state.schedules[i] == s.schedules[i]
  {
    if n == 0 then Progress(s, [], false) else Turn(Turns(s, n - 1, now, env), n - 1, now, env)
  }

  /** A run that ends in an error notifies nobody. */
  function RunDue(s: State, now: int, env: Env): State {
    var p := Turns(s, |s.schedules|, now, env);
    p.state.(runs := s.runs + 1, notifications := if p.raised then s.notifications else s.notifications + p.attempts)
  }

  datatype Action =
    | MakeSchedule(order: Order)
    | RunDueSchedules(now: int, env: Env)
    | SaveRequest(saved: Request)
    | Decide(request: string, approved: bool)
    | ExpireRequest(expired: string)

  function Step(s: State, a: Action): State {
    match a
    case MakeSchedule(o) =>
      var c := Create(o, s.requests);
      if c.result.Ok? then s.(requests := c.requests, schedules := s.schedules + [c.result.value])
      else s.(requests := c.requests)
    case RunDueSchedules(now, env) => RunDue(s, now, env)
    case SaveRequest(r) => s.(requests := s.requests[r.id := r])
    case Decide(id, approved) => s.(requests := Decided(s.requests, id, approved))
    case ExpireRequest(id) => s.(requests := ExpiredIn(s.requests, id))
  }

  const Start := State([], map[], [], [], 0)

  function Run(actions: seq<Action>): State {
    if actions == [] then Start else Step(Run(actions[..|actions| - 1]), actions[|actions| - 1])
  }

  // ----- what a delivery does, for use over runs -----

  /** The kinds of records that can be followed: those of reports and those of deliveries. */
  const Followable: set<Kind> := {Generated, Scheduled(Delivered)}

  /** A report that is produced for the schedule is also registered by some try of the same run. */
  predicate Catches(id: string, env: Env) { FirstProduced(id, 1, env) < 4 ==> FirstRegistered(id, 1, env) < 4 }

  ghost predicate CatchesAll(env: Env) { forall id :: Catches(id, env) }

  /** Records of these kinds are only left by a run that moves the schedule. */
  ghost predicate Safe(kinds: set<Kind>, env: Env) { kinds <= Followable && (Generated in kinds ==> CatchesAll(env)) }

  lemma KeepsScope(s: Schedule, now: int, env: Env)
    ensures var d := Deliver(s, now, env);
            && SameScope(d.schedule, s) && OwnRecords(d.records, s, now)
            && (d.schedule.nextRun == s.nextRun || d.schedule.nextRun == now + Period(s.cadence))
  {
    DeliverKeeps(s, now, 1, env, "", Deliver(s, now, env));
    DeliverMoves(s, now, 1, env, "", Deliver(s, now, env));
  }

  lemma MovesNext(s: Schedule, now: int, env: Env, kinds: set<Kind>, i: nat)
    requires Safe(kinds, env) && i < |Deliver(s, now, env).records|
    ensures Deliver(s, now, env).records[i].kind in kinds ==>
              Deliver(s, now, env).schedule.nextRun == now + Period(s.cadence)
  {
    var d := Deliver(s, now, env);
    DeliverMoves(s, now, 1, env, "", d);
    assert d.records[i] in d.records;
    assert Catches(s.id, env) || Generated !in kinds;
  }

  // ----- reports keep their distance -----

  predicate DistinctIds(ss: seq<Schedule>) { forall i, j :: 0 <= i < j < |ss| ==> ss[i].id != ss[j].id }

  /** The record is one of this schedule, which is active and has its cadence. */
  predicate Owns(sch: Schedule, r: AuditRecord) {
    sch.id == r.schedule && sch.cadence == r.cadence && sch.status.Active?
  }

  ghost predicate Accounted(ss: seq<Schedule>, audit: seq<Logged>) {
    forall g :: g in audit ==> exists i :: 0 <= i < |ss| && Owns(ss[i], g.record)
  }

  /** The next run is a cadence after every record of these kinds, and every record a cadence after creation. */
  predicate Ahead(sch: Schedule, r: AuditRecord, kinds: set<Kind>) {
    r.schedule == sch.id ==>
      && sch.createdAt + Period(sch.cadence) <= r.at
      && (r.kind in kinds ==> r.at + Period(sch.cadence) <= sch.nextRun)
  }

  ghost predicate ScheduleAhead(sch: Schedule, audit: seq<Logged>, kinds: set<Kind>) {
    && sch.createdAt + Period(sch.cadence) <= sch.nextRun
    && forall g :: g in audit ==> Ahead(sch, g.record, kinds)
  }

  /** Two records of these kinds about one schedule: left by the same run, or a cadence apart. */
  predicate Apart(earlier: Logged, later: Logged, kinds: set<Kind>) {
    && earlier.record.schedule == later.record.schedule
    && earlier.record.kind in kinds && later.record.kind in kinds ==>
         earlier.run == later.run || later.record.at >= earlier.record.at + Period(earlier.record.cadence)
  }

  ghost predicate AllApart(audit: seq<Logged>, kinds: set<Kind>) {
    forall i, j :: 0 <= i < j < |audit| ==> Apart(audit[i], audit[j], kinds)
  }

  ghost predicate Inv(s: State, kinds: set<Kind>) {
    && DistinctIds(s.schedules) && Accounted(s.schedules, s.audit) && AllApart(s.audit, kinds)
    && forall sch :: sch in s.schedules ==> ScheduleAhead(sch, s.audit, kinds)
  }

  /** A record of a schedule is its own. */
  lemma OwnsIt(ss: seq<Schedule>, audit: seq<Logged>, i: nat, g: Logged)
    requires DistinctIds(ss) && Accounted(ss, audit) && i < |ss| && g in audit && g.record.schedule == ss[i].id
    ensures Owns(ss[i], g.record)
  {
    var k :| 0 <= k < |ss| && Owns(ss[k], g.record);
    assert k == i;
  }

  /** What a due schedule's delivery appends. */
  lemma NewRecordsApart(s: State, i: nat, now: int, env: Env, kinds: set<Kind>)
    requires Inv(s, kinds) && i < |s.schedules| && IsDue(s.schedules[i], now)
    ensures AllApart(s.audit + LogAll(s.runs, Deliver(s.schedules[i], now, env).records), kinds)
  {
    var sch := s.schedules[i];
    var all := s.audit + LogAll(s.runs, Deliver(sch, now, env).records);
    KeepsScope(sch, now, env);
    assert sch in s.schedules;
    forall m, n | 0 <= m < n < |all|
      ensures Apart(all[m], all[n], kinds)
    {
      if m < |s.audit| <= n {
        assert all[m] in s.audit && Ahead(sch, all[m].record, kinds);
        if all[m].record.schedule == sch.id { OwnsIt(s.schedules, s.audit, i, all[m]); }
      }
    }
  }

  lemma DueAhead(sch: Schedule, audit: seq<Logged>, run: nat, now: int, env: Env, kinds: set<Kind>)
    requires ScheduleAhead(sch, audit, kinds) && IsDue(sch, now) && Safe(kinds, env)
    ensures var d := Deliver(sch, now, env); ScheduleAhead(d.schedule, audit + LogAll(run, d.records), kinds)
  {
    var d := Deliver(sch, now, env);
    KeepsScope(sch, now, env);
    forall g | g in audit + LogAll(run, d.records)
      ensures Ahead(d.schedule, g.record, kinds)
    {
      if g in audit {
        assert Ahead(sch, g.record, kinds);
      } else {
        var i :| 0 <= i < |d.records| && LogAll(run, d.records)[i] == g;
        MovesNext(sch, now, env, kinds, i);
      }
    }
  }

  lemma OtherAhead(other: Schedule, sch: Schedule, audit: seq<Logged>, run: nat, now: int, env: Env, kinds: set<Kind>)
    requires ScheduleAhead(other, audit, kinds) && other.id != sch.id
    ensures ScheduleAhead(other, audit + LogAll(run, Deliver(sch, now, env).records), kinds)
  {
    KeepsScope(sch, now, env);
  }

  lemma AccountedAfter(ss: seq<Schedule>, audit: seq<Logged>, i: nat, run: nat, now: int, env: Env)
    requires Accounted(ss, audit) && DistinctIds(ss) && i < |ss| && IsDue(ss[i], now)
    ensures var d := Deliver(ss[i], now, env);
            && Accounted(ss[i := d.schedule], audit + LogAll(run, d.records))
            && DistinctIds(ss[i := d.schedule])
  {
    var d := Deliver(ss[i], now, env);
    KeepsScope(ss[i], now, env);
    var after := ss[i := d.schedule];
    forall g | g in audit + LogAll(run, d.records)
      ensures exists k :: 0 <= k < |after| && Owns(after[k], g.record)
    {
      if g in audit {
        var k :| 0 <= k < |ss| && Owns(ss[k], g.record);
        assert Owns(after[k], g.record);
      } else {
        assert Owns(after[i], g.record);
      }
    }
  }

  lemma TurnKeeps(p: Progress, i: nat, now: int, env: Env, kinds: set<Kind>)
    requires Inv(p.state, kinds) && i < |p.state.schedules| && Safe(kinds, env)
    ensures Inv(Turn(p, i, now, env).state, kinds)
  {
    var s := p.state;
    if !p.raised && IsDue(s.schedules[i], now) {
      var d := Deliver(s.schedules[i], now, env);
      var after := s.schedules[i := d.schedule];
      var audit := s.audit + LogAll(s.runs, d.records);
      NewRecordsApart(s, i, now, env, kinds);
      AccountedAfter(s.schedules, s.audit, i, s.runs, now, env);
      forall k | 0 <= k < |after|
        ensures ScheduleAhead(after[k], audit, kinds)
      {
        assert s.schedules[k] in s.schedules;
        if k == i {
          DueAhead(s.schedules[i], s.audit, s.runs, now, env, kinds);
        } else {
          OtherAhead(s.schedules[k], s.schedules[i], s.audit, s.runs, now, env, kinds);
        }
      }
      TurnState(p, i, now, env);
    }
  }

  lemma TurnState(p: Progress, i: nat, now: int, env: Env)
    requires i < |p.state.schedules| && !p.raised && IsDue(p.state.schedules[i], now)
    ensures var s := p.state;
            var d := Deliver(s.schedules[i], now, env);
            Turn(p, i, now, env).state
            == s.(schedules := s.schedules[i := d.schedule], audit := s.audit + LogAll(s.runs, d.records))
  {
  }

  lemma TurnKept(p: Progress, i: nat, now: int, env: Env, after: Progress, kinds: set<Kind>)
    requires Inv(p.state, kinds) && i < |p.state.schedules| && after == Turn(p, i, now, env) && Safe(kinds, env)
    ensures Inv(after.state, kinds)
  {
    TurnKeeps(p, i, now, env, kinds);
  }

  lemma {:induction false} TurnsKeep(s: State, n: nat, now: int, env: Env, kinds: set<Kind>)
    requires Inv(s, kinds) && n <= |s.schedules| && Safe(kinds, env)
    ensures Inv(Turns(s, n, now, env).state, kinds)
  {
    if n > 0 {
      TurnsKeep(s, n - 1, now, env, kinds);
      TurnKept(Turns(s, n - 1, now, env), n - 1, now, env, Turns(s, n, now, env), kinds);
    }
  }

  /** The id drawn for a schedule is new. */
  ghost predicate Unused(s: State, id: string) { forall sch :: sch in s.schedules ==> sch.id != id }

  lemma MakeKeeps(s: State, sch: Schedule, kinds: set<Kind>)
    requires Inv(s, kinds) && Unused(s, sch.id) && sch.nextRun == sch.createdAt + Period(sch.cadence)
    ensures Inv(s.(schedules := s.schedules + [sch]), kinds)
  {
    var after := s.schedules + [sch];
    forall g | g in s.audit
      ensures exists k :: 0 <= k < |after| && Owns(after[k], g.record)
      ensures g.record.schedule != sch.id
    {
      var k :| 0 <= k < |s.schedules| && Owns(s.schedules[k], g.record);
      assert s.schedules[k] in s.schedules;
      assert after[k] == s.schedules[k];
    }
  }

  /** The ids drawn over a run differ. */
  predicate FreshIds(actions: seq<Action>) {
    forall i, j :: 0 <= i < j < |actions| && actions[i].MakeSchedule? && actions[j].MakeSchedule? ==>
      actions[i].order.schedule != actions[j].order.schedule
  }

  /** Ids of schedules come from the orders. */
  lemma {:induction false} IdsFromOrders(actions: seq<Action>, k: nat) returns (i: nat)
    requires k < |Run(actions).schedules|
    ensures i < |actions| && actions[i].MakeSchedule? && actions[i].order.schedule == Run(actions).schedules[k].id
  {
    var front, last := actions[..|actions| - 1], actions[|actions| - 1];
    StepKeepsScope(Run(front), last);
    if k < |Run(front).schedules| {
      i := IdsFromOrders(front, k);
    } else {
      i := |actions| - 1;
    }
  }

  /** A step changes of the schedules there are only what a delivery may change. */
  lemma StepKeepsScope(s: State, a: Action)
    ensures |Step(s, a).schedules| >= |s.schedules|
    ensures forall k :: 0 <= k < |s.schedules| ==> SameScope(Step(s, a).schedules[k], s.schedules[k])
    ensures !a.MakeSchedule? ==> |Step(s, a).schedules| == |s.schedules|
  {
    if a.RunDueSchedules? { TurnsKeepScope(s, |s.schedules|, a.now, a.env); }
  }

  lemma {:induction false} TurnsKeepScope(s: State, n: nat, now: int, env: Env)
    requires n <= |s.schedules|
    ensures forall k :: 0 <= k < |s.schedules| ==> SameScope(Turns(s, n, now, env).state.schedules[k], s.schedules[k])
  {
    if n > 0 {
      TurnsKeepScope(s, n - 1, now, env);
      KeepsScope(s.schedules[n - 1], now, env);
    }
  }

  /** Over any run the new schedule's id is new. */
  lemma OrderIsNew(actions: seq<Action>)
    requires actions != [] && FreshIds(actions) && actions[|actions| - 1].MakeSchedule?
    ensures Unused(Run(actions[..|actions| - 1]), actions[|actions| - 1].order.schedule)
  {
    var front := actions[..|actions| - 1];
    var s := Run(front);
    forall sch | sch in s.schedules
      ensures sch.id != actions[|actions| - 1].order.schedule
    {
      var k :| 0 <= k < |s.schedules| && s.schedules[k] == sch;
      var i := IdsFromOrders(front, k);
      assert actions[i] == front[i];
    }
  }

  ghost predicate SafeRuns(actions: seq<Action>, kinds: set<Kind>) {
    forall i :: 0 <= i < |actions| && actions[i].RunDueSchedules? ==> Safe(kinds, actions[i].env)
  }

  lemma {:induction false} RunKeeps(actions: seq<Action>, kinds: set<Kind>)
    requires FreshIds(actions) && SafeRuns(actions, kinds)
    ensures Inv(Run(actions), kinds)
  {
    if actions != [] {
      var front, last := actions[..|actions| - 1], actions[|actions| - 1];
      RunKeeps(front, kinds);
      var s := Run(front);
      match last
      case MakeSchedule(o) =>
        OrderIsNew(actions);
        if Create(o, s.requests).result.Ok? { MakeKeeps(s, Create(o, s.requests).result.value, kinds); }
      case RunDueSchedules(now, env) => TurnsKeep(s, |s.schedules|, now, env, kinds);
      case _ =>
    }
  }

  /** Over any run and any clock values: two delivery records of one schedule left by different runs are at least one
      cadence apart, and every record, of whatever kind, is at least one cadence after the schedule was created. */
  lemma DeliveriesKeepDistance(actions: seq<Action>)
    requires FreshIds(actions)
    ensures AllApart(Run(actions).audit, Deliveries)
    ensures forall sch, g :: sch in Run(actions).schedules && g in Run(actions).audit && g.record.schedule == sch.id ==>
              g.record.at >= sch.createdAt + Period(sch.cadence)
  {
    RunKeeps(actions, Deliveries);
    var s := Run(actions);
    forall sch, g | sch in s.schedules && g in s.audit && g.record.schedule == sch.id
      ensures g.record.at >= sch.createdAt + Period(sch.cadence)
    {
      assert Ahead(sch, g.record, Deliveries);
    }
  }

  /** Every run of this action list sees this environment. */
  ghost predicate RunsIn(actions: seq<Action>, env: Env) {
    forall i :: 0 <= i < |actions| && actions[i].RunDueSchedules? ==> actions[i].env == env
  }

  lemma ReportsKeepDistance(actions: seq<Action>)
    requires FreshIds(actions) && SafeRuns(actions, Followable)
    ensures AllApart(Run(actions).audit, Reports)
  {
    RunKeeps(actions, Followable);
    var a := Run(actions).audit;
    forall i, j | 0 <= i < j < |a|
      ensures Apart(a[i], a[j], Reports)
    {
      assert Apart(a[i], a[j], Followable);
    }
  }

  // ----- at most one report in a run -----

  lemma {:induction false} CountAt(rs: seq<AuditRecord>, i: nat, id: string, kinds: set<Kind>)
    requires i < |rs| && rs[i].schedule == id && rs[i].kind in kinds
    ensures Count(rs, id, kinds) >= 1
  {
    if i < |rs| - 1 { CountAt(rs[..|rs| - 1], i, id, kinds); }
  }

  lemma {:induction false} CountTwice(rs: seq<AuditRecord>, i: nat, j: nat, id: string, kinds: set<Kind>)
    requires i < j < |rs| && rs[i].schedule == id && rs[j].schedule == id && rs[i].kind in kinds && rs[j].kind in kinds
    ensures Count(rs, id, kinds) >= 2
  {
    var front := rs[..|rs| - 1];
    if j < |front| { CountTwice(front, i, j, id, kinds); } else { CountAt(front, i, id, kinds); }
  }

  /** The first try that produces a report also registers it, and then ends the run or is the last to produce one. */
  predicate Steady(id: string, env: Env) {
    var k := FirstProduced(id, 1, env);
    k < 4 ==> env.logExport(id, k).None? && (env.logDelivery(id, k).None? || FirstProduced(id, k + 1, env) == 4)
  }

  ghost predicate SteadyAll(env: Env) { forall id :: Steady(id, env) }

  /** Being steady is: one report in a run at most, and registered if there is one. */
  lemma SteadyMeans(s: Schedule, now: int, env: Env)
    ensures Steady(s.id, env) <==> Catches(s.id, env) && Count(Deliver(s, now, env).records, s.id, Reports) <= 1
  {
    OneReportExactly(s, now, env);
    var k, m := FirstProduced(s.id, 1, env), FirstRegistered(s.id, 1, env);
    if k < 4 && env.logExport(s.id, k).None? { assert Registers(s.id, k, env); }
    if k < m < 4 { assert FirstProduced(s.id, k + 1, env) <= m; }
  }

  /** Reports, or deliveries. */
  predicate Single(kinds: set<Kind>) { kinds == Reports || kinds == Deliveries }

  lemma SteadyCounts(s: Schedule, now: int, env: Env, kinds: set<Kind>)
    requires SteadyAll(env) && Single(kinds)
    ensures Count(Deliver(s, now, env).records, s.id, kinds) <= 1
  {
    assert Steady(s.id, env);
    SteadyMeans(s, now, env);
    CountReports(s, now, 1, env, "", Deliver(s, now, env));
    CountDeliveries(s, now, 1, env, "", Deliver(s, now, env));
  }

  /** Two records of one schedule and of these kinds. */
  predicate SamePlan(g: Logged, h: Logged, kinds: set<Kind>) {
    g.record.schedule == h.record.schedule && g.record.kind in kinds && h.record.kind in kinds
  }

  /** Such records come from different runs, in the order of the runs. */
  predicate OnePerRun(audit: seq<Logged>, kinds: set<Kind>) {
    forall i, j :: 0 <= i < j < |audit| && SamePlan(audit[i], audit[j], kinds) ==> audit[i].run < audit[j].run
  }

  /** While a run goes on: the schedules from `n` on have left no record in it yet. */
  predicate MidRun(s: State, n: nat, kinds: set<Kind>) {
    && DistinctIds(s.schedules) && OnePerRun(s.audit, kinds)
    && (forall i :: 0 <= i < |s.audit| ==> s.audit[i].run <= s.runs)
    && (forall i, k :: 0 <= i < |s.audit| && n <= k < |s.schedules| && s.audit[i].run == s.runs ==>
          s.audit[i].record.schedule != s.schedules[k].id)
  }

  lemma TurnAddsOne(s: State, n: nat, d: Delivery, now: int, next: State, kinds: set<Kind>)
    requires MidRun(s, n, kinds) && n < |s.schedules|
    requires SameScope(d.schedule, s.schedules[n]) && OwnRecords(d.records, s.schedules[n], now)
    requires Count(d.records, s.schedules[n].id, kinds) <= 1
    requires next == s.(schedules := s.schedules[n := d.schedule], audit := s.audit + LogAll(s.runs, d.records))
    ensures MidRun(next, n + 1, kinds)
  {
    var a, m, id := next.audit, |s.audit|, s.schedules[n].id;
    forall i, j | 0 <= i < j < |a| && SamePlan(a[i], a[j], kinds)
      ensures a[i].run < a[j].run
    {
      if m <= i { CountTwice(d.records, i - m, j - m, id, kinds); }
    }
  }

  lemma {:induction false} TurnsMidRun(s: State, n: nat, now: int, env: Env, kinds: set<Kind>)
    requires MidRun(s, 0, kinds) && n <= |s.schedules| && SteadyAll(env) && Single(kinds)
    ensures MidRun(Turns(s, n, now, env).state, n, kinds) && Turns(s, n, now, env).state.runs == s.runs
  {
    if n > 0 {
      TurnsMidRun(s, n - 1, now, env, kinds);
      TurnMidRun(Turns(s, n - 1, now, env), n - 1, now, env, Turns(s, n, now, env), kinds);
    }
  }

  lemma TurnMidRun(p: Progress, n: nat, now: int, env: Env, after: Progress, kinds: set<Kind>)
    requires Single(kinds) && MidRun(p.state, n, kinds) && n < |p.state.schedules| && SteadyAll(env)
    requires after == Turn(p, n, now, env)
    ensures MidRun(after.state, n + 1, kinds) && after.state.runs == p.state.runs
  {
    var sch := p.state.schedules[n];
    if !p.raised && IsDue(sch, now) {
      KeepsScope(sch, now, env);
      SteadyCounts(sch, now, env, kinds);
      TurnState(p, n, now, env);
      TurnAddsOne(p.state, n, Deliver(sch, now, env), now, after.state, kinds);
    }
  }

  /** Between runs. */
  predicate Settled(s: State, kinds: set<Kind>) {
    OnePerRun(s.audit, kinds) && forall i :: 0 <= i < |s.audit| ==> s.audit[i].run < s.runs
  }

  ghost predicate SteadyRuns(actions: seq<Action>) {
    forall i :: 0 <= i < |actions| && actions[i].RunDueSchedules? ==> SteadyAll(actions[i].env)
  }

  lemma SteadyIsSafe(actions: seq<Action>)
    requires SteadyRuns(actions)
    ensures SafeRuns(actions, Followable)
  {
    forall i, id | 0 <= i < |actions| && actions[i].RunDueSchedules?
      ensures Catches(id, actions[i].env)
    {
      assert Steady(id, actions[i].env);
      var k := FirstProduced(id, 1, actions[i].env);
      if k < 4 { assert Registers(id, k, actions[i].env); }
    }
  }

  lemma {:induction false} RunSettles(actions: seq<Action>, kinds: set<Kind>)
    requires FreshIds(actions) && SteadyRuns(actions) && Single(kinds)
    ensures Settled(Run(actions), kinds)
  {
    if actions != [] {
      var front, last := actions[..|actions| - 1], actions[|actions| - 1];
      RunSettles(front, kinds);
      if last.RunDueSchedules? {
        SteadyIsSafe(front);
        RunKeeps(front, Followable);
        TurnsMidRun(Run(front), |Run(front).schedules|, last.now, last.env, kinds);
      }
    }
  }

  /** Any two records of one schedule and of these kinds are at least one cadence apart, even within a run. */
  ghost predicate AlwaysApart(audit: seq<Logged>, kinds: set<Kind>) {
    forall i, j :: 0 <= i < j < |audit| && SamePlan(audit[i], audit[j], kinds) ==>
      audit[j].record.at >= audit[i].record.at + Period(audit[i].record.cadence)
  }

  /** In steady runs, any two reports of one schedule are a cadence apart, and so are any two deliveries. */
  lemma SteadyReportsApart(actions: seq<Action>, kinds: set<Kind>)
    requires FreshIds(actions) && SteadyRuns(actions) && Single(kinds)
    ensures AlwaysApart(Run(actions).audit, kinds)
  {
    SteadyIsSafe(actions);
    RunKeeps(actions, Followable);
    RunSettles(actions, kinds);
    var a := Run(actions).audit;
    forall i, j | 0 <= i < j < |a| && SamePlan(a[i], a[j], kinds)
      ensures a[j].record.at >= a[i].record.at + Period(a[i].record.cadence)
    {
      assert Apart(a[i], a[j], Followable);
    }
  }

  /** Nothing is raised while a record is persisted. */
  ghost predicate Persists(env: Env) { forall id, n: nat :: env.logExport(id, n).None? && env.logDelivery(id, n).None? }

  /** So while the audit database works, with any failures before a report is produced. */
  lemma PersistedReportsApart(actions: seq<Action>, kinds: set<Kind>)
    requires FreshIds(actions) && Single(kinds)
    requires forall i :: 0 <= i < |actions| && actions[i].RunDueSchedules? ==> Persists(actions[i].env)
    ensures AlwaysApart(Run(actions).audit, kinds)
  {
    SteadyReportsApart(actions, kinds);
  }

  // ----- and only then -----

  /** An order for a report nobody has to approve. */
  predicate Plain(o: Order) { Allowed(o) && o.artifact.value.tier < 2 }

  /** The order, and two runs at the moment its schedule is first due. */
  function TwoRuns(o: Order, env: Env): seq<Action> {
    var due := o.now + Period(o.cadence);
    [MakeSchedule(o), RunDueSchedules(due, env), RunDueSchedules(due, env)]
  }

  lemma SingleRun(s: State, now: int, env: Env)
    requires |s.schedules| == 1 && IsDue(s.schedules[0], now)
    ensures var d := Deliver(s.schedules[0], now, env); var t := RunDue(s, now, env);
            t.schedules == [d.schedule] && t.audit == s.audit + LogAll(s.runs, d.records) && t.runs == s.runs + 1
  {
    assert Turns(s, 1, now, env) == Turn(Turns(s, 0, now, env), 0, now, env);
  }

  lemma RunThree(actions: seq<Action>)
    requires |actions| == 3
    ensures Run(actions[..2]) == Step(Step(Start, actions[0]), actions[1])
    ensures Run(actions) == Step(Run(actions[..2]), actions[2])
  {
    assert actions[..2][..1] == actions[..1] && actions[..1][..0] == [];
    assert Run(actions[..1]) == Step(Start, actions[0]);
  }

  lemma DueStep(s: State, a: Action)
    requires a.RunDueSchedules?
    ensures Step(s, a) == RunDue(s, a.now, a.env)
  {
  }

  /** One schedule, first due at `due`, and two runs at that moment. */
  ghost predicate TwiceDue(actions: seq<Action>, made: Schedule, due: int, env: Env) {
    && |actions| == 3 && IsDue(made, due)
    && Step(Start, actions[0]) == Start.(schedules := [made])
    && actions[1] == RunDueSchedules(due, env) && actions[2] == RunDueSchedules(due, env)
  }

  lemma Ordered(o: Order, env: Env)
    requires Plain(o)
    ensures var made := NewSchedule(o, o.artifact.value, Active, o.approval);
            TwiceDue(TwoRuns(o, env), made, o.now + Period(o.cadence), env)
  {
  }

  lemma FirstRun(actions: seq<Action>, made: Schedule, due: int, env: Env)
    requires TwiceDue(actions, made, due, env)
    ensures var d := Deliver(made, due, env); var s := Run(actions[..2]);
            s.schedules == [d.schedule] && s.audit == LogAll(0, d.records) && s.runs == 1
  {
    var s := Start.(schedules := [made]);
    RunThree(actions);
    DueStep(s, actions[1]);
    SingleRun(s, due, env);
    assert [] + LogAll(0, Deliver(made, due, env).records) == LogAll(0, Deliver(made, due, env).records);
  }

  lemma SecondRun(actions: seq<Action>, made: Schedule, due: int, env: Env) returns (d: Delivery, e: Delivery)
    requires TwiceDue(actions, made, due, env) && !Catches(made.id, env)
    ensures OwnRecords(d.records, made, due) && OwnRecords(e.records, made, due)
    ensures Has(d.records, Generated) && Has(e.records, Generated)
    ensures Run(actions).audit == LogAll(0, d.records) + LogAll(1, e.records)
  {
    FirstRun(actions, made, due, env);
    d := Deliver(made, due, env);
    KeepsScope(made, due, env);
    DeliverMoves(made, due, 1, env, "", d);
    e := Deliver(d.schedule, due, env);
    KeepsScope(d.schedule, due, env);
    DeliverMoves(d.schedule, due, 1, env, "", e);
    RunThree(actions);
    DueStep(Run(actions[..2]), actions[2]);
    SingleRun(Run(actions[..2]), due, env);
  }

  lemma Clash(rs: seq<AuditRecord>, qs: seq<AuditRecord>, s: Schedule, at: int)
    requires OwnRecords(rs, s, at) && OwnRecords(qs, s, at) && Has(rs, Generated) && Has(qs, Generated)
    ensures !AllApart(LogAll(0, rs) + LogAll(1, qs), Reports) && !AlwaysApart(LogAll(0, rs) + LogAll(1, qs), Reports)
  {
    var i :| 0 <= i < |rs| && rs[i].kind == Generated;
    var j :| 0 <= j < |qs| && qs[j].kind == Generated;
    var a := LogAll(0, rs) + LogAll(1, qs);
    assert a[i] == Logged(0, rs[i]) && a[|rs| + j] == Logged(1, qs[j]);
    assert !Apart(a[i], a[|rs| + j], Reports) && SamePlan(a[i], a[|rs| + j], Reports);
  }

  /** Two runs that both leave a report at one moment. */
  lemma NotCaught(o: Order, env: Env)
    requires Plain(o) && !Catches(o.schedule, env)
    ensures !AllApart(Run(TwoRuns(o, env)).audit, Reports) && !AlwaysApart(Run(TwoRuns(o, env)).audit, Reports)
  {
    var due, made := o.now + Period(o.cadence), NewSchedule(o, o.artifact.value, Active, o.approval);
    Ordered(o, env);
    var d, e := SecondRun(TwoRuns(o, env), made, due, env);
    Clash(d.records, e.records, made, due);
  }

  lemma {:induction false} TwoCounted(rs: seq<AuditRecord>, id: string, kinds: set<Kind>) returns (i: nat, j: nat)
    requires Count(rs, id, kinds) >= 2
    ensures i < j < |rs| && rs[i].schedule == id && rs[j].schedule == id && rs[i].kind in kinds && rs[j].kind in kinds
  {
    var front := rs[..|rs| - 1];
    if Count(front, id, kinds) >= 2 {
      i, j := TwoCounted(front, id, kinds);
    } else {
      i := OneCounted(front, id, kinds);
      j := |rs| - 1;
    }
  }

  lemma {:induction false} OneCounted(rs: seq<AuditRecord>, id: string, kinds: set<Kind>) returns (i: nat)
    requires Count(rs, id, kinds) >= 1
    ensures i < |rs| && rs[i].schedule == id && rs[i].kind in kinds
  {
    var last := rs[|rs| - 1];
    if last.schedule == id && last.kind in kinds { i := |rs| - 1; } else { i := OneCounted(rs[..|rs| - 1], id, kinds); }
  }

  lemma Crowd(rs: seq<AuditRecord>, s: Schedule, at: int)
    requires OwnRecords(rs, s, at) && Count(rs, s.id, Reports) >= 2
    ensures !AlwaysApart(LogAll(0, rs), Reports)
  {
    var i, j := TwoCounted(rs, s.id, Reports);
    var a := LogAll(0, rs);
    assert SamePlan(a[i], a[j], Reports);
  }

  lemma NotSteady(o: Order, env: Env)
    requires Plain(o) && !Steady(o.schedule, env)
    ensures !AlwaysApart(Run(TwoRuns(o, env)).audit, Reports) || !AlwaysApart(Run(TwoRuns(o, env)[..2]).audit, Reports)
  {
    var due, made := o.now + Period(o.cadence), NewSchedule(o, o.artifact.value, Active, o.approval);
    SteadyMeans(made, due, env);
    if Catches(o.schedule, env) {
      Ordered(o, env);
      FirstRun(TwoRuns(o, env), made, due, env);
      KeepsScope(made, due, env);
      Crowd(Deliver(made, due, env).records, made, due);
    } else {
      NotCaught(o, env);
    }
  }

  function SampleOrder(id: string): Order {
    var user := "u@";
    Order(Principal(user, user, user), user, Some(Artifact(user, user, 0, 0)), Daily, user, user, None, 0, id, id)
  }

  lemma SampleRuns(id: string, env: Env)
    ensures var actions := TwoRuns(SampleOrder(id), env);
            FreshIds(actions) && RunsIn(actions, env) && FreshIds(actions[..2]) && RunsIn(actions[..2], env)
    ensures Plain(SampleOrder(id)) && SampleOrder(id).schedule == id
  {
  }

  /** Reports of one schedule from different runs are a cadence apart in every run that sees this environment if and
      only if every run that produces a report also persists the export's own record of one. */
  lemma DistanceExactly(env: Env)
    ensures (forall actions :: FreshIds(actions) && RunsIn(actions, env) ==> AllApart(Run(actions).audit, Reports))
        <==> CatchesAll(env)
  {
    if CatchesAll(env) {
      forall actions | FreshIds(actions) && RunsIn(actions, env)
        ensures AllApart(Run(actions).audit, Reports)
      {
        ReportsKeepDistance(actions);
      }
    } else {
      var id :| !Catches(id, env);
      SampleRuns(id, env);
      NotCaught(SampleOrder(id), env);
    }
  }

  /** Any two reports of one schedule are a cadence apart in every run that sees this environment if and only if it is
      steady for every schedule. */
  lemma AlwaysDistanceExactly(env: Env)
    ensures (forall actions :: FreshIds(actions) && RunsIn(actions, env) ==> AlwaysApart(Run(actions).audit, Reports))
        <==> SteadyAll(env)
  {
    if SteadyAll(env) {
      forall actions | FreshIds(actions) && RunsIn(actions, env)
        ensures AlwaysApart(Run(actions).audit, Reports)
      {
        SteadyReportsApart(actions, Reports);
      }
    } else {
      var id :| !Steady(id, env);
      SampleRuns(id, env);
      NotSteady(SampleOrder(id), env);
    }
  }

  // ----- one run of the due schedules -----

  /** Some due delivery ends in an error, and with it the run. */
  predicate Raises(ss: seq<Schedule>, now: int, env: Env) {
    exists k :: 0 <= k < |ss| && IsDue(ss[k], now) && Deliver(ss[k], now, env).raised
  }

  lemma RaisesLast(ss: seq<Schedule>, now: int, env: Env)
    requires ss != []
    ensures var last := ss[|ss| - 1];
            Raises(ss, now, env) <==>
              Raises(ss[..|ss| - 1], now, env) || (IsDue(last, now) && Deliver(last, now, env).raised)
  {
    var front := ss[..|ss| - 1];
    if k :| 0 <= k < |front| && IsDue(front[k], now) && Deliver(front[k], now, env).raised {
      assert IsDue(ss[k], now) && Deliver(ss[k], now, env).raised;
    }
  }

  lemma {:induction false} DeliverRaises(s: Schedule, now: int, n: nat, env: Env, error: string, d: Delivery)
    requires 1 <= n <= 4 && d == DeliverFrom(s, now, n, env, error)
    ensures d.raised <==> (forall m :: n <= m < 4 ==> TryError(s.id, m, env).Some?) && env.logDelivery(s.id, 4).Some?
    decreases 4 - n
  {
    if n < 4 && TryError(s.id, n, env).Some? {
      var later := TryFails(s, now, n, env, d, error);
      DeliverRaises(TryNote(s, now, n, env), now, n + 1, env, TryError(s.id, n, env).value, later);
    }
  }

  /** The records of one run: those of the due schedules in their order, up to the first that ends in an error. */
  function DueRecords(ss: seq<Schedule>, now: int, env: Env): seq<AuditRecord> {
    if ss == [] then []
    else
      var front, last := ss[..|ss| - 1], ss[|ss| - 1];
      DueRecords(front, now, env)
      + (if IsDue(last, now) && !Raises(front, now, env) then Deliver(last, now, env).records else [])
  }

  /** A run raises exactly when all three tries of some due schedule fail and the record of that failure does too; it
      appends the records of the due schedules up to there, and no others. */
  lemma {:induction false} RunWritesDueRecords(s: State, n: nat, now: int, env: Env)
    requires n <= |s.schedules|
    ensures Wrote(Turns(s, n, now, env), s, s.schedules[..n], now, env)
  {
    if n > 0 {
      RunWritesDueRecords(s, n - 1, now, env);
      assert s.schedules[..n] == s.schedules[..n - 1] + [s.schedules[n - 1]];
      WritesNext(Turns(s, n - 1, now, env), s, s.schedules[..n - 1], now, env, Turns(s, n, now, env));
    } else {
      assert s.audit + [] == s.audit;
    }
  }

  /** Where the loop stands after the turns of these schedules. */
  predicate Wrote(p: Progress, s: State, ss: seq<Schedule>, now: int, env: Env) {
    && (p.raised <==> Raises(ss, now, env))
    && p.state.runs == s.runs && p.state.audit == s.audit + LogAll(s.runs, DueRecords(ss, now, env))
  }

  lemma WritesNext(p: Progress, s: State, ss: seq<Schedule>, now: int, env: Env, after: Progress)
    requires Wrote(p, s, ss, now, env) && |ss| < |p.state.schedules| && after == Turn(p, |ss|, now, env)
    ensures Wrote(after, s, ss + [p.state.schedules[|ss|]], now, env)
  {
    var last := p.state.schedules[|ss|];
    var all := ss + [last];
    assert all[..|all| - 1] == ss;
    RaisesLast(all, now, env);
    if IsDue(last, now) && !p.raised {
      LogAppend(s.audit, s.runs, DueRecords(ss, now, env), Deliver(last, now, env).records);
    } else {
      assert DueRecords(ss, now, env) + [] == DueRecords(ss, now, env);
    }
  }

  lemma LogAppend(audit: seq<Logged>, run: nat, a: seq<AuditRecord>, b: seq<AuditRecord>)
    ensures audit + LogAll(run, a) + LogAll(run, b) == audit + LogAll(run, a + b)
  {
  }

  predicate DueIn(ss: seq<Schedule>, now: int, id: string) {
    exists k :: 0 <= k < |ss| && ss[k].id == id && IsDue(ss[k], now)
  }

  lemma DueInLast(ss: seq<Schedule>, now: int, id: string)
    requires ss != [] && DistinctIds(ss)
    ensures var front, last := ss[..|ss| - 1], ss[|ss| - 1];
            && (DueIn(ss, now, id) <==> DueIn(front, now, id) || (last.id == id && IsDue(last, now)))
            && !(DueIn(front, now, id) && last.id == id)
  {
    var front := ss[..|ss| - 1];
    if k :| 0 <= k < |front| && front[k].id == id && IsDue(front[k], now) {
      assert ss[k].id == id && IsDue(ss[k], now);
    }
  }

  /** None of these records names the schedule. */
  lemma {:induction false} CountNone(rs: seq<AuditRecord>, id: string, kinds: set<Kind>)
    requires forall i :: 0 <= i < |rs| ==> rs[i].schedule != id
    ensures Count(rs, id, kinds) == 0
  {
    if rs != [] { CountNone(rs[..|rs| - 1], id, kinds); }
  }

  lemma DeliverCounts(s: Schedule, now: int, env: Env, id: string)
    ensures var rs := Deliver(s, now, env).records;
            && Count(rs, id, Reports) == (if s.id == id then Produced(id, 1, env) else 0)
            && Count(rs, id, Outcomes) == (if s.id == id then Concluded(id, 1, env) else 0)
  {
    KeepsScope(s, now, env);
    CountReports(s, now, 1, env, "", Deliver(s, now, env));
    CountOutcomes(s, now, 1, env, "", Deliver(s, now, env));
    if s.id != id {
      CountNone(Deliver(s, now, env).records, id, Reports);
      CountNone(Deliver(s, now, env).records, id, Outcomes);
    }
  }

  lemma {:induction false} DueCounts(ss: seq<Schedule>, now: int, env: Env, id: string)
    requires DistinctIds(ss) && !Raises(ss, now, env)
    ensures var rs := DueRecords(ss, now, env);
            && Count(rs, id, Reports) == (if DueIn(ss, now, id) then Produced(id, 1, env) else 0)
            && Count(rs, id, Outcomes) == (if DueIn(ss, now, id) then Concluded(id, 1, env) else 0)
  {
    if ss != [] {
      var front, last := ss[..|ss| - 1], ss[|ss| - 1];
      RaisesLast(ss, now, env);
      DueCounts(front, now, env, id);
      DueInLast(ss, now, id);
      if IsDue(last, now) {
        DeliverCounts(last, now, env, id);
        CountAppend(DueRecords(front, now, env), Deliver(last, now, env).records, id, Reports);
        CountAppend(DueRecords(front, now, env), Deliver(last, now, env).records, id, Outcomes);
      } else {
        assert DueRecords(front, now, env) + [] == DueRecords(front, now, env);
      }
    }
  }

  /** A run that does not raise leaves no record for a schedule that is not due. For each one that is due it leaves at
      least one delivery record, and exactly one if and only if no report of it is registered or the delivery record
      of the first one registered is persisted. */
  lemma OneRecordPerDueRun(ss: seq<Schedule>, now: int, env: Env, id: string)
    requires DistinctIds(ss) && !Raises(ss, now, env)
    ensures var outcomes, k := Count(DueRecords(ss, now, env), id, Outcomes), FirstRegistered(id, 1, env);
            && (DueIn(ss, now, id) <==> outcomes >= 1)
            && (DueIn(ss, now, id) ==> (outcomes == 1 <==> k == 4 || env.logDelivery(id, k).None?))
    ensures !DueIn(ss, now, id) ==> Count(DueRecords(ss, now, env), id, Reports) == 0
  {
    DueCounts(ss, now, env, id);
    ConcludedOnce(id, 1, env);
  }

  // ----- approvals over a run -----

  /** The schedule is for the report that was ordered. */
  predicate MadeFor(o: Order, sch: Schedule) {
    && o.schedule == sch.id && o.artifact.Some? && o.artifact.value.tier == sch.tier && o.principal.user == sch.owner
    && o.source == sch.source && o.cadence == sch.cadence && o.format == sch.format && o.recipient == sch.recipient
  }

  /** The schedule was made, at some point of the run, by an order for its report that was covered at that point. */
  ghost predicate WasCovered(actions: seq<Action>, sch: Schedule) {
    exists i :: 0 <= i < |actions| && actions[i].MakeSchedule? && MadeFor(actions[i].order, sch)
      && Covered(actions[i].order, Run(actions[..i]).requests)
  }

  lemma CoveredEarlier(actions: seq<Action>, was: Schedule, sch: Schedule)
    requires actions != [] && WasCovered(actions[..|actions| - 1], was) && SameScope(sch, was)
    ensures WasCovered(actions, sch)
  {
    var front := actions[..|actions| - 1];
    var i :| 0 <= i < |front| && front[i].MakeSchedule? && MadeFor(front[i].order, was)
      && Covered(front[i].order, Run(front[..i]).requests);
    assert actions[i] == front[i] && actions[..i] == front[..i];
  }

  /** No sensitive schedule is ever active without an approval of its exact scope when it was made. */
  lemma {:induction false} SensitiveWasApproved(actions: seq<Action>, k: nat)
    requires k < |Run(actions).schedules|
    requires Run(actions).schedules[k].status.Active? && Run(actions).schedules[k].tier >= 2
    ensures WasCovered(actions, Run(actions).schedules[k])
  {
    var front, last := actions[..|actions| - 1], actions[|actions| - 1];
    var s, sch := Run(front), Run(actions).schedules[k];
    StepKeepsScope(s, last);
    if k < |s.schedules| {
      SensitiveWasApproved(front, k);
      CoveredEarlier(actions, s.schedules[k], sch);
    } else {
      ActiveExactly(last.order, s.requests);
      assert MadeFor(actions[|actions| - 1].order, sch);
      assert Covered(actions[|actions| - 1].order, Run(actions[..|actions| - 1]).requests);
    }
  }

  /** No sensitive report is ever produced, and no delivery of one tried, without such an approval: every record in the
      audit trail belongs to one schedule, and if that is of tier 2 or more it was covered when it was made. */
  lemma SensitiveReportsWereApproved(actions: seq<Action>, g: Logged) returns (k: nat)
    requires FreshIds(actions) && g in Run(actions).audit
    ensures k < |Run(actions).schedules| && Owns(Run(actions).schedules[k], g.record)
    ensures Run(actions).schedules[k].tier >= 2 ==> WasCovered(actions, Run(actions).schedules[k])
    ensures var ss := Run(actions).schedules;
            forall m :: 0 <= m < |ss| && ss[m].id == g.record.schedule ==> m == k
  {
    RunKeeps(actions, Deliveries);
    var ss := Run(actions).schedules;
    k :| 0 <= k < |ss| && Owns(ss[k], g.record);
    if ss[k].tier >= 2 { SensitiveWasApproved(actions, k); }
  }
}

/** The objects behind scheduled reports: schedules, approval requests and the audit trail are updated in place. */
module ScheduleService {
  import opened Wrappers
  import opened Schedules
  import opened ScheduleRuns

  class ApprovalStore {
    var requests: Requests

    constructor ()
      ensures requests == map[]
    {
      requests := map[];
    }

    method Save(r: Request)
      modifies this
      ensures requests == old(requests)[r.id := r]
    {
      requests := requests[r.id := r];
    }

    method Get(id: string) returns (r: Option<Request>)
      ensures r == if id in requests then Some(requests[id]) else None
    {
      r := if id in requests then Some(requests[id]) else None;
    }

    /** False is the `KeyError` of an unknown id. */
    method Decide(id: string, approved: bool) returns (found: bool)
      modifies this
      ensures requests == Decided(old(requests), id, approved) && found == (id in old(requests))
      ensures found ==> requests == old(requests)[id := requests[id]]
      ensures found && approved ==> requests[id] == old(requests)[id].(state := Approved)
      ensures found && !approved ==> requests[id] == old(requests)[id].(state := Rejected)
      ensures !found ==> requests == old(requests)
    {
      if id !in requests { return false; }
      requests := requests[id := requests[id].(state := if approved then Approved else Rejected)];
      return true;
    }

    method Expire(id: string) returns (found: bool)
      modifies this
      ensures requests == ExpiredIn(old(requests), id) && found == (id in old(requests))
      ensures requests == if found then old(requests)[id := old(requests)[id].(state := Expired)] else old(requests)
    {
      if id !in requests { return false; }
      requests := requests[id := requests[id].(state := Expired)];
      return true;
    }
  }

  /** A schedule, whose last four fields a delivery writes. */
  class ReportSchedule {
    const made: Schedule
    var nextRun: int
    var lastRun: Option<int>
    var lastOutcome: Option<Outcome>
    var lastError: Option<string>

    constructor (s: Schedule)
      ensures Value() == s && fresh(this)
    {
      made := s;
      nextRun, lastRun, lastOutcome, lastError := s.nextRun, s.lastRun, s.lastOutcome, s.lastError;
    }

    function Value(): Schedule
      reads this
    {
      made.(nextRun := nextRun, lastRun := lastRun, lastOutcome := lastOutcome, lastError := lastError)
    }
  }

  ghost function ValuesOf(ss: seq<ReportSchedule>): (r: seq<Schedule>)
    reads ss
    ensures |r| == |ss| && forall i :: 0 <= i < |r| ==> r[i] == ss[i].Value()
  {
    if ss == [] then [] else ValuesOf(ss[..|ss| - 1]) + [ss[|ss| - 1].Value()]
  }

  class ScheduledReportService {
    const store: ApprovalStore
    var schedules: seq<ReportSchedule>
    var audit: seq<Logged>
    var notifications: seq<Attempt>
    var runs: nat

    constructor (store: ApprovalStore)
      requires store.requests == map[]
      ensures this.store == store && Valid() && View() == Start
    {
      this.store := store;
      schedules, audit, notifications, runs := [], [], [], 0;
    }

    /** No object stands for two schedules. */
    ghost predicate Valid()
      reads this`schedules
    {
      forall i, j :: 0 <= i < j < |schedules| ==> schedules[i] != schedules[j]
    }

    ghost function View(): State
      reads this, store, schedules
    {
      State(ValuesOf(schedules), store.requests, audit, notifications, runs)
    }

    /** `create_schedule`; the order carries the ids that are drawn. */
    method CreateSchedule(o: Order) returns (r: Result<Schedule, HttpError>)
      requires Valid()
      modifies this`schedules, store
      ensures Valid() && r == Create(o, old(store.requests)).result
      ensures View() == Step(old(View()), MakeSchedule(o))
      ensures View().schedules == old(View()).schedules + (if r.Ok? then [r.value] else [])
      ensures View().audit == old(View()).audit && View().notifications == old(View()).notifications
    {
      if o.artifact.None? { return Err(NotFound); }
      var a := o.artifact.value;
      if a.owner != o.principal.user { return Err(Forbidden); }
      if '@' !in o.recipient { return Err(BadRequest); }
      if Domain(o.recipient) != Domain(o.principal.email) { return Err(BadRequest); }
      var status, approval := Active, o.approval;
      if a.tier >= 2 {
        var resolved := ResolveApproval(o, a);
        if resolved.Err? { return Err(resolved.error); }
        approval := Some(resolved.value);
        if o.approval.None? { status := ApprovalRequired; }
      }
      var s := NewSchedule(o, a, status, approval);
      AddSchedule(s);
      return Ok(s);
    }

    method AddSchedule(s: Schedule)
      requires Valid()
      modifies this`schedules
      ensures Valid() && View() == old(View()).(schedules := old(View()).schedules + [s])
    {
      var created := new ReportSchedule(s);
      schedules := schedules + [created];
      assert ValuesOf(schedules) == old(ValuesOf(schedules)) + [s];
    }

    /** `_resolve_schedule_approval`. */
    method ResolveApproval(o: Order, a: Artifact) returns (r: Result<string, HttpError>)
      modifies store
      ensures o.approval.None? ==>
                && r == Ok(o.request)
                && store.requests == old(store.requests)[o.request :=
                     Request(o.request, IntentOf(o, a), Requested, o.now, Some(FingerprintOf(IntentOf(o, a))))]
      ensures o.approval.Some? ==> store.requests == old(store.requests)
      ensures o.approval.Some? ==>
                r == if o.approval.value !in store.requests then Err(NotFound)
                     else var q := store.requests[o.approval.value];
                       if q.intent.user != o.principal.user then Err(Forbidden)
                       else if q.fingerprint != Some(FingerprintOf(IntentOf(o, a))) then Err(Conflict)
                       else if !q.state.Approved? then Err(Conflict)
                       else Ok(q.id)
    {
      var intent := IntentOf(o, a);
      if o.approval.None? {
        store.Save(Request(o.request, intent, Requested, o.now, Some(FingerprintOf(intent))));
        return Ok(o.request);
      }
      var found := store.Get(o.approval.value);
      if found.None? { return Err(NotFound); }
      var request := found.value;
      if request.intent.user != o.principal.user { return Err(Forbidden); }
      if request.fingerprint != Some(FingerprintOf(intent)) { return Err(Conflict); }
      if !request.state.Approved? { return Err(Conflict); }
      return Ok(request.id);
    }

    /** `_send_report`: the export job is completed and its record appended before the database is asked. */
    method SendReport(s: ReportSchedule, now: int, n: nat, env: Env) returns (error: Option<string>)
      modifies this`audit
      ensures Produces(s.made.id, n, env) ==>
                audit == old(audit) + [Logged(runs, RecordOf(s.Value(), now, Generated, None))]
      ensures !Produces(s.made.id, n, env) ==> audit == old(audit)
      ensures error == if Produces(s.made.id, n, env) then env.logExport(s.made.id, n) else env.render(s.made.id, n)
    {
      error := env.render(s.made.id, n);
      if error.Some? { return; }
      audit := audit + [Logged(runs, RecordOf(s.Value(), now, Generated, None))];
      error := env.logExport(s.made.id, n);
    }

    /** One try: sends the report, notes it, appends the delivery record and persists it. None when nothing raised. */
    method TryOnce(s: ReportSchedule, now: int, n: nat, env: Env) returns (error: Option<string>)
      modifies s, this`audit
      ensures error == TryError(s.made.id, n, env) && s.Value() == TryNote(old(s.Value()), now, n, env)
      ensures audit == old(audit) + LogAll(runs, TryRecords(old(s.Value()), now, n, env))
    {
      error := SendReport(s, now, n, env);
      if error.Some? { return; }
      s.lastRun, s.lastOutcome, s.lastError := Some(now), Some(Delivered), None;
      s.nextRun := now + Period(s.made.cadence);
      audit := audit + [Logged(runs, RecordOf(s.Value(), now, Scheduled(Delivered), None))];
      error := env.logDelivery(s.made.id, n);
    }

    /** `_deliver_schedule`: the retry loop, on the object. */
    method DeliverSchedule(s: ReportSchedule, now: int, env: Env) returns (attempt: Attempt, raised: bool)
      modifies s, this`audit
      ensures var d := Deliver(old(s.Value()), now, env);
              && s.Value() == d.schedule && audit == old(audit) + LogAll(runs, d.records)
              && attempt == Attempt(s.made.id, s.made.recipient, d.outcome, d.tries) && raised == d.raised
    {
      ghost var whole := Deliver(s.Value(), now, env);
      var counter := 0;
      var lastError := "";
      ghost var done: seq<AuditRecord> := [];
      while counter < 3
        invariant 0 <= counter <= 3
        invariant audit == old(audit) + LogAll(runs, done)
        invariant Continues(whole, done, DeliverFrom(s.Value(), now, counter + 1, env, lastError))
      {
        counter := counter + 1;
        NextTry(whole, done, s.Value(), now, counter, env, lastError);
        LogAppend(old(audit), runs, done, TryRecords(s.Value(), now, counter, env));
        done := done + TryRecords(s.Value(), now, counter, env);
        var error := TryOnce(s, now, counter, env);
        if error.None? {
          return Attempt(s.made.id, s.made.recipient, Delivered, counter), false;
        }
        lastError := error.value;
      }
      LastTry(whole, done, s.Value(), now, env, lastError);
      LogAppend(old(audit), runs, done, [RecordOf(s.Value(), now, Scheduled(NotDelivered), Some(lastError))]);
      s.lastRun, s.lastOutcome, s.lastError := Some(now), Some(NotDelivered), Some(lastError);
      audit := audit + [Logged(runs, RecordOf(s.Value(), now, Scheduled(NotDelivered), Some(lastError)))];
      attempt, raised := Attempt(s.made.id, s.made.recipient, NotDelivered, 3), env.logDelivery(s.made.id, 4).Some?;
    }

    /** The loop body of `run_due_schedules`. */
    method TakeTurn(i: nat, attempts: seq<Attempt>, now: int, env: Env) returns (after: seq<Attempt>, raised: bool)
      requires Valid() && i < |schedules|
      modifies this`audit, schedules[i]
      ensures Progress(View(), after, raised) == Turn(Progress(old(View()), attempts, false), i, now, env)
    {
      var s := schedules[i];
      ghost var values := ValuesOf(schedules);
      if !(s.made.status.Active? && s.nextRun <= now) { return attempts, false; }
      var attempt;
      attempt, raised := DeliverSchedule(s, now, env);
      assert ValuesOf(schedules) == values[i := s.Value()];
      after := if raised then attempts else attempts + [attempt];
    }

    /** The same, for a loop that began at `start`. */
    method TakeNextTurn(ghost start: State, i: nat, attempts: seq<Attempt>, now: int, env: Env)
      returns (after: seq<Attempt>, raised: bool)
      requires Valid() && i < |schedules| && |start.schedules| == |schedules|
      requires Progress(View(), attempts, false) == Turns(start, i, now, env)
      modifies this`audit, schedules[i]
      ensures Progress(View(), after, raised) == Turns(start, i + 1, now, env)
    {
      ghost var before := Progress(View(), attempts, false);
      after, raised := TakeTurn(i, attempts, now, env);
      TurnsNext(start, i, now, env, before, Progress(View(), after, raised));
    }

    method TakeTurns(now: int, env: Env) returns (attempts: seq<Attempt>, raised: bool)
      requires Valid()
      modifies this`audit, schedules
      ensures Progress(View(), attempts, raised) == Turns(old(View()), |schedules|, now, env)
    {
      ghost var start := View();
      attempts, raised := [], false;
      var i := 0;
      while i < |schedules| && !raised
        invariant 0 <= i <= |schedules|
        invariant Progress(View(), attempts, raised) == Turns(start, i, now, env)
      {
        attempts, raised := TakeNextTurn(start, i, attempts, now, env);
        i := i + 1;
      }
      TurnsStay(start, i, |schedules|, now, env);
    }

    /** `run_due_schedules`; `raised` when an error left the loop. */
    method RunDueSchedules(now: int, env: Env) returns (attempts: seq<Attempt>, raised: bool)
      requires Valid()
      modifies this`audit, this`notifications, this`runs, schedules
      ensures Valid() && View() == RunDue(old(View()), now, env)
      ensures var p := Turns(old(View()), |schedules|, now, env); raised == p.raised && attempts == p.attempts
    {
      attempts, raised := TakeTurns(now, env);
      FinishRun(attempts, raised);
    }

    /** An error that left the loop also skips the notifications. */
    method FinishRun(attempts: seq<Attempt>, raised: bool)
      modifies this`notifications, this`runs
      ensures View() == (var s := old(View());
                         s.(runs := s.runs + 1,
                            notifications := if raised then s.notifications else s.notifications + attempts))
    {
      runs := runs + 1;
      if !raised { notifications := notifications + attempts; }
    }
  }

  lemma TurnsNext(s: State, i: nat, now: int, env: Env, p: Progress, q: Progress)
    requires i < |s.schedules| && p == Turns(s, i, now, env) && q == Turn(p, i, now, env)
    ensures q == Turns(s, i + 1, now, env)
  {
  }

  /** `whole` is what comes after the records `done`, with them in front. */
  ghost predicate Continues(whole: Delivery, done: seq<AuditRecord>, rest: Delivery) {
    whole == rest.(records := done + rest.records)
  }

  /** The two ways a try can go on. */
  lemma NextTry(whole: Delivery, done: seq<AuditRecord>, s: Schedule, now: int, n: nat, env: Env, error: string)
    requires 1 <= n <= 3 && Continues(whole, done, DeliverFrom(s, now, n, env, error))
    ensures TryError(s.id, n, env).None? ==>
              whole == Delivery(TryNote(s, now, n, env), done + TryRecords(s, now, n, env), n, Delivered, false)
    ensures TryError(s.id, n, env).Some? ==>
              Continues(whole, done + TryRecords(s, now, n, env),
                        DeliverFrom(TryNote(s, now, n, env), now, n + 1, env, TryError(s.id, n, env).value))
  {
    if TryError(s.id, n, env).Some? {
      var later := TryFails(s, now, n, env, DeliverFrom(s, now, n, env, error), error);
      assert done + (TryRecords(s, now, n, env) + later.records) == done + TryRecords(s, now, n, env) + later.records;
    }
  }

  lemma LastTry(whole: Delivery, done: seq<AuditRecord>, s: Schedule, now: int, env: Env, error: string)
    requires Continues(whole, done, DeliverFrom(s, now, 4, env, error))
    ensures whole == Delivery(FailedNote(s, now, error),
                              done + [RecordOf(s, now, Scheduled(NotDelivered), Some(error))], 3, NotDelivered,
                              env.logDelivery(s.id, 4).Some?)
  {
  }

  /** After an error no turn does anything. */
  lemma {:induction false} TurnsStay(s: State, i: nat, n: nat, now: int, env: Env)
    requires i <= n <= |s.schedules|
    ensures Turns(s, i, now, env).raised || i == n ==> Turns(s, n, now, env) == Turns(s, i, now, env)
  {
    if i < n { TurnsStay(s, i, n - 1, now, env); }
  }
}

/** What ordering and delivering a report leaves behind, field by field. */
module ScheduleMeaning {
  import opened Wrappers
  import opened Schedules
  import opened ScheduleRuns

  // ----- domains -----

  /** The part of an address behind its last at sign, or the whole text if it has none. */
  predicate IsDomain(s: string, d: string) {
    && '@' !in d
    && (s == d || (|d| < |s| && s[|s| - |d| - 1] == '@' && s[|s| - |d|..] == d))
  }

  lemma {:induction false} DomainIs(s: string, d: string)
    requires d == Domain(s)
    ensures IsDomain(s, d)
  {
    if s != "" && s[|s| - 1] != '@' {
      var front, last := s[..|s| - 1], s[|s| - 1];
      var e := Domain(front);
      DomainIs(front, e);
      assert d == e + [last];
      assert s == front + [last];
    }
  }

  lemma NoShorterDomain(s: string, d: string, e: string)
    requires IsDomain(s, d) && IsDomain(s, e)
    ensures |d| >= |e|
  {
  }

  lemma SameDomain(s: string, d: string, e: string)
    requires IsDomain(s, d) && IsDomain(s, e)
    ensures d == e
  {
    NoShorterDomain(s, d, e);
    NoShorterDomain(s, e, d);
    assert s[|s| - |d|..] == d && s[|s| - |e|..] == e;
  }

  lemma DomainOnly(s: string, d: string)
    ensures IsDomain(s, d) <==> d == Domain(s)
  {
    DomainIs(s, Domain(s));
    if IsDomain(s, d) { SameDomain(s, d, Domain(s)); }
  }

  // ----- orders -----

  lemma PeriodsInSeconds()
    ensures Period(Daily) == 86_400 && Period(Weekly) == 604_800 && Period(Monthly) == 2_592_000
  {
  }

  /** The schedule made for an order. */
  predicate IsNew(s: Schedule, o: Order, a: Artifact, status: Status, approval: Option<string>) {
    && s.id == o.schedule && s.owner == o.principal.user && s.source == o.source && s.cadence == o.cadence
    && s.format == o.format && s.recipient == o.recipient && s.department == a.department && s.tier == a.tier
    && s.status == status && s.createdAt == o.now && s.approval == approval
    && s.nextRun == o.now + (match o.cadence case Daily => 86_400 case Weekly => 604_800 case Monthly => 2_592_000)
    && s.lastRun == None && s.lastOutcome == None && s.lastError == None
  }

  function Rhythm(c: Cadence): string {
    match c case Daily => "daily" case Weekly => "weekly" case Monthly => "monthly"
  }

  /** The request for approval that it waits for. */
  predicate IsRequest(r: Request, o: Order, a: Artifact) {
    && r.id == o.request && r.state == Requested && r.createdAt == o.now
    && r.intent.user == o.principal.user && r.intent.department == o.principal.department
    && r.intent.tier == a.tier && r.intent.intentType == "scheduled_report" && r.intent.estimatedRows == a.rows
    && r.intent.filters.Keys == {"source_request_id", "cadence", "format", "recipient"}
    && r.intent.filters["source_request_id"] == o.source && r.intent.filters["format"] == o.format
    && r.intent.filters["recipient"] == o.recipient
    && r.intent.filters["cadence"] == Rhythm(o.cadence)
    && r.intent.digest == o.source + ":" + Rhythm(o.cadence) + ":" + o.format + ":" + o.recipient
    && r.fingerprint == Some(Fingerprint(o.principal.user, o.principal.department, "scheduled_report", a.tier,
                                         r.intent.filters, r.intent.digest))
  }

  /** The orders that are refused, check by check, when recipient and principal have these domains. */
  lemma RefusedInFull(o: Order, rs: Requests, recipient: string, own: string)
    requires IsDomain(o.recipient, recipient) && IsDomain(o.principal.email, own)
    ensures o.artifact == None ==> Create(o, rs) == Created(Err(NotFound), rs)
    ensures o.artifact != None && o.artifact.value.owner != o.principal.user ==>
              Create(o, rs) == Created(Err(Forbidden), rs)
    ensures o.artifact != None && o.artifact.value.owner == o.principal.user ==>
              ('@' !in o.recipient || recipient != own ==> Create(o, rs) == Created(Err(BadRequest), rs))
  {
    DomainOnly(o.recipient, recipient);
    DomainOnly(o.principal.email, own);
  }

  /** The owner's order to an address of the own domain: a report below tier 2 is scheduled at once, and a sensitive one
      without an approval waits for the request that is filed for it. */
  lemma OrderedInFull(o: Order, rs: Requests, a: Artifact, domain: string)
    requires o.artifact == Some(a) && a.owner == o.principal.user && '@' in o.recipient
    requires IsDomain(o.recipient, domain) && IsDomain(o.principal.email, domain)
    ensures var (r, after) := (Create(o, rs).result, Create(o, rs).requests);
            && (a.tier < 2 ==> r.Ok? && IsNew(r.value, o, a, Active, o.approval) && after == rs)
            && (a.tier >= 2 && o.approval == None ==>
                  && r.Ok? && IsNew(r.value, o, a, ApprovalRequired, Some(o.request))
                  && o.request in after && after == rs[o.request := after[o.request]]
                  && IsRequest(after[o.request], o, a))
  {
    DomainOnly(o.recipient, domain);
    DomainOnly(o.principal.email, domain);
    NewRequest(o, a);
    NewIsNew(o, a, Active, o.approval);
    NewIsNew(o, a, ApprovalRequired, Some(o.request));
  }

  lemma NewIsNew(o: Order, a: Artifact, status: Status, approval: Option<string>)
    ensures IsNew(NewSchedule(o, a, status, approval), o, a, status, approval)
  {
  }

  lemma NewRequest(o: Order, a: Artifact)
    ensures IsRequest(Request(o.request, IntentOf(o, a), Requested, o.now, Some(FingerprintOf(IntentOf(o, a)))), o, a)
  {
  }

  /** What is made of the request that an order names. */
  lemma ApprovalRead(o: Order, rs: Requests, a: Artifact, id: string, wanted: Fingerprint)
    requires o.artifact == Some(a) && a.owner == o.principal.user && a.tier >= 2 && o.approval == Some(id)
    requires '@' in o.recipient && Domain(o.recipient) == Domain(o.principal.email)
    requires wanted == FingerprintOf(IntentOf(o, a))
    ensures id !in rs ==> Create(o, rs) == Created(Err(NotFound), rs)
    ensures id in rs && rs[id].intent.user != o.principal.user ==> Create(o, rs) == Created(Err(Forbidden), rs)
    ensures id in rs && rs[id].intent.user == o.principal.user ==>
              (rs[id].fingerprint != Some(wanted) || rs[id].state != Approved ==>
                 Create(o, rs) == Created(Err(Conflict), rs))
    ensures id in rs && rs[id].intent.user == o.principal.user ==>
              (rs[id].fingerprint == Some(wanted) && rs[id].state == Approved ==>
                 Create(o, rs) == Created(Ok(NewSchedule(o, a, Active, Some(rs[id].id))), rs))
  {
  }

  /** The owner's order of a sensitive report that names an approval. */
  lemma ApprovedInFull(o: Order, rs: Requests, a: Artifact, domain: string, id: string, wanted: Fingerprint)
    requires o.artifact == Some(a) && a.owner == o.principal.user && a.tier >= 2 && o.approval == Some(id)
    requires '@' in o.recipient && IsDomain(o.recipient, domain) && IsDomain(o.principal.email, domain)
    requires wanted == FingerprintOf(IntentOf(o, a))
    ensures Create(o, rs).requests == rs
    ensures var r := Create(o, rs).result;
            && (id !in rs ==> r == Err(NotFound))
            && (id in rs && rs[id].intent.user != o.principal.user ==> r == Err(Forbidden))
            && (id in rs && rs[id].intent.user == o.principal.user ==>
                  if rs[id].fingerprint == Some(wanted) && rs[id].state == Approved
                  then r.Ok? && IsNew(r.value, o, a, Active, Some(rs[id].id))
                  else r == Err(Conflict))
  {
    DomainOnly(o.recipient, domain);
    DomainOnly(o.principal.email, domain);
    ApprovalRead(o, rs, a, id, wanted);
    if id in rs { NewIsNew(o, a, Active, Some(rs[id].id)); }
  }

  // ----- deliveries -----

  /** The first error raised in a try, if any: by the rendering, by the export's own record, by the delivery record. */
  predicate Raises(id: string, n: nat, env: Env, error: Option<string>) {
    && (env.render(id, n) != None ==> error == env.render(id, n))
    && (env.render(id, n) == None && env.logExport(id, n) != None ==> error == env.logExport(id, n))
    && (env.render(id, n) == None && env.logExport(id, n) == None ==> error == env.logDelivery(id, n))
  }

  /** Nothing raises in a try. */
  predicate Clean(id: string, n: nat, env: Env) {
    env.render(id, n) == None && env.logExport(id, n) == None && env.logDelivery(id, n) == None
  }

  /** All records of a delivery name the schedule, its owner, its source and the time of the run. */
  predicate Signed(r: AuditRecord, s: Schedule, now: int) {
    r.request == s.source && r.user == s.owner && r.schedule == s.id && r.cadence == s.cadence && r.at == now
  }

  /** The schedule after a run that delivered, and after one that did not. */
  predicate NotedSent(s: Schedule, now: int) {
    s.lastRun == Some(now) && s.lastOutcome == Some(Delivered) && s.lastError == None
  }

  predicate NotedFailed(s: Schedule, now: int, error: Option<string>) {
    s.lastRun == Some(now) && s.lastOutcome == Some(NotDelivered) && s.lastError == error
  }

  predicate AllSigned(rs: seq<AuditRecord>, s: Schedule, now: int) {
    forall i :: 0 <= i < |rs| ==>
      && Signed(rs[i], s, now)
      && (rs[i].kind != Scheduled(NotDelivered) ==> rs[i].error == None)
  }

  lemma SignedAppend(a: seq<AuditRecord>, b: seq<AuditRecord>, s: Schedule, now: int)
    requires AllSigned(a, s, now) && AllSigned(b, s, now)
    ensures AllSigned(a + b, s, now)
  {
  }

  lemma CleanTry(id: string, n: nat, env: Env)
    ensures Clean(id, n, env) <==> TryError(id, n, env) == None
    ensures Raises(id, n, env, TryError(id, n, env))
  {
  }

  /** A run delivers in the first of three tries in which nothing raises, if there is one, and notes it. */
  lemma {:induction false} DeliveredInFull(s: Schedule, now: int, n: nat, env: Env, error: string, d: Delivery)
    requires 1 <= n <= 4 && d == DeliverFrom(s, now, n, env, error)
    ensures d.outcome == Delivered <==> exists m :: n <= m <= 3 && Clean(s.id, m, env)
    ensures d.outcome == Delivered ==>
              && n <= d.tries <= 3 && Clean(s.id, d.tries, env)
              && (forall m :: n <= m < d.tries ==> !Clean(s.id, m, env))
              && NotedSent(d.schedule, now) && !d.raised
    decreases 4 - n
  {
    if n < 4 {
      CleanTry(s.id, n, env);
      if TryError(s.id, n, env).Some? {
        var next, e := TryNote(s, now, n, env), TryError(s.id, n, env).value;
        var later := TryFails(s, now, n, env, d, error);
        DeliveredInFull(next, now, n + 1, env, e, later);
      }
    }
  }

  /** Otherwise it notes a failure with the error of the third try, appends a record of it last, and raises when writing
      that record does. */
  lemma {:induction false} FailedInFull(s: Schedule, now: int, n: nat, env: Env, error: string, d: Delivery)
    requires 1 <= n <= 4 && d == DeliverFrom(s, now, n, env, error) && d.outcome == NotDelivered
    ensures d.tries == 3 && (d.raised <==> env.logDelivery(s.id, 4) != None) && d.records != []
    ensures var last := d.records[|d.records| - 1];
            && last.kind == Scheduled(NotDelivered) && last.error.Some? && NotedFailed(d.schedule, now, last.error)
            && (if n == 4 then last.error == Some(error) else Raises(s.id, 3, env, last.error))
    decreases 4 - n
  {
    if n < 4 {
      CleanTry(s.id, n, env);
      var next, e := TryNote(s, now, n, env), TryError(s.id, n, env).value;
      var later := TryFails(s, now, n, env, d, error);
      FailedInFull(next, now, n + 1, env, e, later);
    }
  }

  lemma TrySigned(s: Schedule, now: int, n: nat, env: Env)
    ensures AllSigned(TryRecords(s, now, n, env), s, now)
  {
  }

  /** Every record of a run names the report, its owner, the schedule and the time. */
  lemma {:induction false} RecordsSigned(s: Schedule, now: int, n: nat, env: Env, error: string, d: Delivery)
    requires 1 <= n <= 4 && d == DeliverFrom(s, now, n, env, error)
    ensures AllSigned(d.records, s, now)
    decreases 4 - n
  {
    if n < 4 {
      TrySigned(s, now, n, env);
      if TryError(s.id, n, env).Some? {
        var later := TryFails(s, now, n, env, d, error);
        RecordsSigned(TryNote(s, now, n, env), now, n + 1, env, TryError(s.id, n, env).value, later);
        SignedAppend(TryRecords(s, now, n, env), later.records, s, now);
      }
    }
  }

  // ----- runs -----

  predicate DueNow(s: Schedule, now: int) { s.status == Active && s.nextRun <= now }

  /** Its turn ends the run with an error. */
  predicate Breaks(s: Schedule, now: int, env: Env) { DueNow(s, now) && Deliver(s, now, env).raised }

  predicate Unbroken(ss: seq<Schedule>, now: int, env: Env) {
    forall k :: 0 <= k < |ss| ==> !Breaks(ss[k], now, env)
  }

  /** The schedule at `i` after a run: delivered if it was due and no turn before it ended the run. */
  function AfterRun(ss: seq<Schedule>, i: nat, now: int, env: Env): Schedule
    requires i < |ss|
  {
    if DueNow(ss[i], now) && Unbroken(ss[..i], now, env) then Deliver(ss[i], now, env).schedule else ss[i]
  }

  function Notice(s: Schedule, now: int, env: Env): seq<Attempt> {
    var d := Deliver(s, now, env);
    if DueNow(s, now) && !d.raised then [Attempt(s.id, s.recipient, d.outcome, d.tries)] else []
  }

  /** One notification for each due schedule, in order, up to the turn that ends the run. */
  function Announced(ss: seq<Schedule>, now: int, env: Env): seq<Attempt> {
    if ss == [] then []
    else Notice(ss[0], now, env) + (if Breaks(ss[0], now, env) then [] else Announced(ss[1..], now, env))
  }

  lemma UnbrokenParts(a: seq<Schedule>, b: seq<Schedule>, now: int, env: Env)
    ensures Unbroken(a + b, now, env) <==> Unbroken(a, now, env) && Unbroken(b, now, env)
  {
    var all := a + b;
    assert forall i :: 0 <= i < |a| ==> all[i] == a[i];
    assert forall i :: 0 <= i < |b| ==> all[|a| + i] == b[i];
  }

  lemma UnbrokenOne(s: Schedule, now: int, env: Env)
    ensures Unbroken([s], now, env) <==> !Breaks(s, now, env)
  {
    assert [s][0] == s;
  }

  lemma AnnouncedFirst(first: Schedule, rest: seq<Schedule>, now: int, env: Env, notice: seq<Attempt>, breaks: bool)
    requires notice == Notice(first, now, env) && breaks == Breaks(first, now, env)
    ensures Announced([first] + rest, now, env) == notice + (if breaks then [] else Announced(rest, now, env))
  {
    assert ([first] + rest)[1..] == rest;
  }

  lemma {:induction false} AnnouncedAppend(
      ss: seq<Schedule>, last: Schedule, now: int, env: Env, notice: seq<Attempt>, unbroken: bool)
    requires notice == Notice(last, now, env) && unbroken == Unbroken(ss, now, env)
    ensures Announced(ss + [last], now, env) == Announced(ss, now, env) + (if unbroken then notice else [])
  {
    if ss == [] {
      AnnouncedFirst(last, [], now, env, notice, Breaks(last, now, env));
      assert ss + [last] == [last] + [];
    } else {
      var first, rest := ss[0], ss[1..];
      var own, breaks := Notice(first, now, env), Breaks(first, now, env);
      assert ss == [first] + rest && ss + [last] == [first] + (rest + [last]);
      UnbrokenParts([first], rest, now, env);
      UnbrokenOne(first, now, env);
      AnnouncedFirst(first, rest, now, env, own, breaks);
      AnnouncedFirst(first, rest + [last], now, env, own, breaks);
      AnnouncedAppend(rest, last, now, env, notice, Unbroken(rest, now, env));
    }
  }

  /** The schedules after the first `n` turns. */
  predicate SchedulesLeft(before: seq<Schedule>, n: nat, now: int, env: Env, after: seq<Schedule>)
    requires n <= |before|
  {
    && |after| == |before|
    && (forall i :: 0 <= i < n ==> after[i] == AfterRun(before, i, now, env))
    && (forall i :: n <= i < |before| ==> after[i] == before[i])
  }

  /** What they leave of all else. */
  predicate TurnsLeave(s: State, n: nat, now: int, env: Env, p: Progress)
    requires n <= |s.schedules|
  {
    && p.state.requests == s.requests && p.state.notifications == s.notifications && p.state.runs == s.runs
    && (p.raised <==> !Unbroken(s.schedules[..n], now, env))
    && p.attempts == Announced(s.schedules[..n], now, env)
  }

  /** One turn, which leaves `done` of its schedule. */
  predicate Turned(p: Progress, i: nat, done: Schedule, notice: seq<Attempt>, breaks: bool, q: Progress)
    requires i < |p.state.schedules|
  {
    && q.state.schedules == p.state.schedules[i := done]
    && q.state.requests == p.state.requests && q.state.notifications == p.state.notifications
    && q.state.runs == p.state.runs && (q.raised <==> p.raised || breaks)
    && q.attempts == p.attempts + (if p.raised then [] else notice)
  }

  lemma TurnInFull(p: Progress, i: nat, now: int, env: Env, s: Schedule, q: Progress)
    requires i < |p.state.schedules| && s == p.state.schedules[i] && q == Turn(p, i, now, env)
    ensures Turned(p, i, if !p.raised && DueNow(s, now) then Deliver(s, now, env).schedule else s,
                   Notice(s, now, env), Breaks(s, now, env), q)
  {
  }

  lemma AfterRunIs(ss: seq<Schedule>, i: nat, now: int, env: Env, unbroken: bool, done: Schedule)
    requires i < |ss| && unbroken == Unbroken(ss[..i], now, env)
    requires done == if unbroken && DueNow(ss[i], now) then Deliver(ss[i], now, env).schedule else ss[i]
    ensures AfterRun(ss, i, now, env) == done
  {
  }

  lemma SchedulesNext(
      before: seq<Schedule>, n: nat, next: nat, now: int, env: Env, after: seq<Schedule>, done: Schedule,
      longer: seq<Schedule>)
    requires next == n + 1 <= |before| && SchedulesLeft(before, n, now, env, after)
    requires done == AfterRun(before, n, now, env) && longer == after[n := done]
    ensures SchedulesLeft(before, next, now, env, longer)
  {
  }

  lemma TurnLeaves(
      s: State, n: nat, next: nat, now: int, env: Env, p: Progress, done: Schedule, notice: seq<Attempt>, breaks: bool,
      q: Progress)
    requires next == n + 1 <= |s.schedules| == |p.state.schedules| && TurnsLeave(s, n, now, env, p)
    requires Turned(p, n, done, notice, breaks, q)
    requires notice == Notice(s.schedules[n], now, env) && breaks == Breaks(s.schedules[n], now, env)
    ensures TurnsLeave(s, next, now, env, q)
  {
    var front, last := s.schedules[..n], s.schedules[n];
    assert s.schedules[..next] == front + [last];
    UnbrokenParts(front, [last], now, env);
    UnbrokenOne(last, now, env);
    AnnouncedAppend(front, last, now, env, notice, Unbroken(front, now, env));
  }

  lemma TurnsNone(s: State, now: int, env: Env)
    ensures TurnsLeave(s, 0, now, env, Progress(s, [], false))
    ensures SchedulesLeft(s.schedules, 0, now, env, s.schedules)
  {
    assert s.schedules[..0] == [];
  }

  lemma {:induction false} TurnsInFull(s: State, n: nat, now: int, env: Env, p: Progress)
    requires n <= |s.schedules| && p == Turns(s, n, now, env)
    ensures TurnsLeave(s, n, now, env, p) && SchedulesLeft(s.schedules, n, now, env, p.state.schedules)
  {
    if n == 0 {
      TurnsNone(s, now, env);
    } else {
      var i, before := n - 1, Turns(s, n - 1, now, env);
      TurnsInFull(s, i, now, env, before);
      NextTurn(s, i, n, now, env, before, p);
    }
  }

  lemma NextTurn(s: State, i: nat, n: nat, now: int, env: Env, p: Progress, q: Progress)
    requires n == i + 1 <= |s.schedules| && TurnsLeave(s, i, now, env, p)
    requires SchedulesLeft(s.schedules, i, now, env, p.state.schedules) && q == Turn(p, i, now, env)
    ensures TurnsLeave(s, n, now, env, q) && SchedulesLeft(s.schedules, n, now, env, q.state.schedules)
  {
    var last := s.schedules[i];
    var done := if !p.raised && DueNow(last, now) then Deliver(last, now, env).schedule else last;
    TurnInFull(p, i, now, env, last, q);
    AfterRunIs(s.schedules, i, now, env, !p.raised, done);
    SchedulesNext(s.schedules, i, n, now, env, p.state.schedules, done, q.state.schedules);
    TurnLeaves(s, i, n, now, env, p, done, Notice(last, now, env), Breaks(last, now, env), q);
  }

  /** A run delivers, in order, the active schedules whose next run has come, up to the first whose delivery raises, and
      touches no other; it notifies of each unless one raised. */
  lemma RunInFull(s: State, now: int, env: Env)
    ensures var after := RunDue(s, now, env);
            && |after.schedules| == |s.schedules| && after.requests == s.requests && after.runs == s.runs + 1
            && (forall i :: 0 <= i < |s.schedules| ==> after.schedules[i] == AfterRun(s.schedules, i, now, env))
            && after.notifications
               == s.notifications
                  + (if Unbroken(s.schedules, now, env) then Announced(s.schedules, now, env) else [])
  {
    var n := |s.schedules|;
    TurnsInFull(s, n, now, env, Turns(s, n, now, env));
    assert s.schedules[..n] == s.schedules;
  }
}

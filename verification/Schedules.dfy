/** Scheduled reports: creation with approval, delivery with retries, and what a run of them keeps. */
module Schedules {
  import opened Wrappers

  // ----- approvals -----

  datatype ApprovalState = Requested | PendingReview | Approved | Rejected | Expired

  /** The fields a fingerprint is computed from; equal fingerprints stand for equal fields. */
  datatype Fingerprint = Fingerprint(
    user: string, department: string, intentType: string, tier: int, filters: map<string, string>, digest: string)

  datatype QueryIntent = QueryIntent(
    user: string, department: string, tier: int, intentType: string, filters: map<string, string>,
    estimatedRows: nat, digest: string)

  function FingerprintOf(i: QueryIntent): Fingerprint {
    Fingerprint(i.user, i.department, i.intentType, i.tier, i.filters, i.digest)
  }

  datatype Request = Request(
    id: string, intent: QueryIntent, state: ApprovalState, createdAt: int, fingerprint: Option<Fingerprint>)

  type Requests = map<string, Request>

  function Decided(rs: Requests, id: string, approved: bool): Requests {
    if id in rs then rs[id := rs[id].(state := if approved then Approved else Rejected)] else rs
  }

  function ExpiredIn(rs: Requests, id: string): Requests {
    if id in rs then rs[id := rs[id].(state := Expired)] else rs
  }

  // ----- schedules -----

  datatype Cadence = Daily | Weekly | Monthly

  const Day := 86_400

  function Period(c: Cadence): (p: int)
    ensures p >= 86_400
  {
    match c case Daily => Day case Weekly => 7 * Day case Monthly => 30 * Day
  }

  function CadenceText(c: Cadence): string {
    match c case Daily => "daily" case Weekly => "weekly" case Monthly => "monthly"
  }

  datatype Status = ApprovalRequired | Active | Paused | Failed

  datatype Outcome = Delivered | NotDelivered

  datatype Schedule = Schedule(
    id: string, owner: string, source: string, cadence: Cadence, format: string, recipient: string,
    department: string, tier: int, status: Status, createdAt: int, nextRun: int, approval: Option<string>,
    lastRun: Option<int>, lastOutcome: Option<Outcome>, lastError: Option<string>)

  datatype Principal = Principal(user: string, department: string, email: string)

  /** The stored result a report is made from. */
  datatype Artifact = Artifact(owner: string, department: string, tier: int, rows: nat)

  /** What `create_schedule` is asked for. `schedule` and `request` are the ids drawn for what it creates. */
  datatype Order = Order(
    principal: Principal, source: string, artifact: Option<Artifact>, cadence: Cadence, format: string,
    recipient: string, approval: Option<string>, now: int, schedule: string, request: string)

  datatype HttpError = NotFound | Forbidden | BadRequest | Conflict

  /** `s.split("@")[-1]`. */
  function Domain(s: string): string
    decreases |s|
  {
    if s == "" || s[|s| - 1] == '@' then "" else Domain(s[..|s| - 1]) + [s[|s| - 1]]
  }

  function IntentOf(o: Order, a: Artifact): QueryIntent {
    QueryIntent(o.principal.user, o.principal.department, a.tier, "scheduled_report",
                map["source_request_id" := o.source, "cadence" := CadenceText(o.cadence), "format" := o.format,
                    "recipient" := o.recipient],
                a.rows, o.source + ":" + CadenceText(o.cadence) + ":" + o.format + ":" + o.recipient)
  }

  function NewSchedule(o: Order, a: Artifact, status: Status, approval: Option<string>): Schedule {
    Schedule(o.schedule, o.principal.user, o.source, o.cadence, o.format, o.recipient, a.department, a.tier, status,
             o.now, o.now + Period(o.cadence), approval, None, None, None)
  }

  datatype Created = Created(result: Result<Schedule, HttpError>, requests: Requests)

  /** The checks of `create_schedule` in their order; only a sensitive report without an approval id writes a
      request. */
  function Create(o: Order, rs: Requests): Created {
    if o.artifact.None? then Created(Err(NotFound), rs)
    else
      var a := o.artifact.value;
      if a.owner != o.principal.user then Created(Err(Forbidden), rs)
      else if '@' !in o.recipient then Created(Err(BadRequest), rs)
      else if Domain(o.recipient) != Domain(o.principal.email) then Created(Err(BadRequest), rs)
      else if a.tier < 2 then Created(Ok(NewSchedule(o, a, Active, o.approval)), rs)
      else if o.approval.None? then
        var request := Request(o.request, IntentOf(o, a), Requested, o.now, Some(FingerprintOf(IntentOf(o, a))));
        Created(Ok(NewSchedule(o, a, ApprovalRequired, Some(o.request))), rs[o.request := request])
      else if o.approval.value !in rs then Created(Err(NotFound), rs)
      else
        var request := rs[o.approval.value];
        if request.intent.user != o.principal.user then Created(Err(Forbidden), rs)
        else if request.fingerprint != Some(FingerprintOf(IntentOf(o, a))) then Created(Err(Conflict), rs)
        else if !request.state.Approved? then Created(Err(Conflict), rs)
        else Created(Ok(NewSchedule(o, a, Active, Some(request.id))), rs)
  }

  /** The requested report is covered by an approved request for exactly this scope. */
  predicate Covered(o: Order, rs: Requests) {
    && o.artifact.Some? && o.approval.Some? && o.approval.value in rs
    && rs[o.approval.value].state.Approved?
    && rs[o.approval.value].intent.user == o.principal.user
    && rs[o.approval.value].fingerprint == Some(FingerprintOf(IntentOf(o, o.artifact.value)))
  }

  /** The report's owner asks for it, to an address of their own domain. */
  predicate Allowed(o: Order) {
    && o.artifact.Some? && o.artifact.value.owner == o.principal.user
    && '@' in o.recipient && Domain(o.recipient) == Domain(o.principal.email)
  }

  /** A schedule comes out active exactly when the order is allowed and, for a sensitive report, covered. */
  lemma ActiveExactly(o: Order, rs: Requests)
    ensures (Create(o, rs).result.Ok? && Create(o, rs).result.value.status.Active?)
        <==> Allowed(o) && (o.artifact.value.tier < 2 || Covered(o, rs))
    ensures Create(o, rs).result.Err? || o.approval.Some? || o.artifact.value.tier < 2 ==> Create(o, rs).requests == rs
  {
  }

  /** The order asks for the report that another order asked for: same source, rhythm, format, recipient and user. */
  predicate SameReport(o: Order, other: Order) {
    && o.source == other.source && o.cadence == other.cadence && o.format == other.format
    && o.recipient == other.recipient && o.principal.user == other.principal.user
    && o.principal.department == other.principal.department
  }

  /** A sensitive order without approval that only waits for one. */
  predicate Waits(o: Order) { Allowed(o) && o.artifact.value.tier >= 2 && o.approval.None? }

  lemma FingerprintPinsReport(o: Order, a: Artifact, other: Order, b: Artifact)
    requires FingerprintOf(IntentOf(o, a)) == FingerprintOf(IntentOf(other, b))
    ensures SameReport(o, other) && a.tier == b.tier
  {
    var f, g := IntentOf(o, a).filters, IntentOf(other, b).filters;
    assert f == g;
    assert f["source_request_id"] == g["source_request_id"];
    assert f["cadence"] == g["cadence"];
    assert f["format"] == g["format"];
    assert f["recipient"] == g["recipient"];
    assert CadenceText(o.cadence)[0] == CadenceText(other.cadence)[0];
  }

  /** Waiting, having the request approved and ordering the same report again makes it active. */
  lemma ApprovedOrderSucceeds(o: Order, rs: Requests, again: Order)
    requires Waits(o) && Allowed(again) && SameReport(again, o) && again.artifact.value.tier == o.artifact.value.tier
    requires again.approval == Some(o.request)
    ensures var approved := Decided(Create(o, rs).requests, o.request, true);
            Create(again, approved).result.Ok? && Create(again, approved).result.value.status.Active?
  {
    var requests := Create(o, rs).requests;
    assert o.request in requests;
  }

  /** However the request fares, no other sensitive report is made active with it. */
  lemma ApprovalIsForOneReport(o: Order, rs: Requests, other: Order, later: Requests)
    requires Waits(o) && other.approval == Some(o.request) && other.artifact.Some? && other.artifact.value.tier >= 2
    requires o.request in later && later[o.request].fingerprint == Create(o, rs).requests[o.request].fingerprint
    requires Create(other, later).result.Ok?
    ensures SameReport(other, o) && other.artifact.value.tier == o.artifact.value.tier
    ensures later[o.request].state.Approved?
  {
    FingerprintPinsReport(other, other.artifact.value, o, o.artifact.value);
  }

  // ----- delivery -----

  /** By schedule and try: None for a success, otherwise the error that is raised. */
  type Tried = (string, nat) -> Option<string>

  /** How the tries of one run go. `render` is everything up to the completed export job. The audit database may then
      fail twice: on the export's own record (`logExport`) and on the delivery record (`logDelivery`, where number 4 is
      the record of a failure). */
  datatype Env = Env(render: Tried, logExport: Tried, logDelivery: Tried)

  /** A report was produced in this try. */
  predicate Produces(id: string, n: nat, env: Env) { env.render(id, n).None? }

  /** It was produced and its own audit record was persisted. */
  predicate Registers(id: string, n: nat, env: Env) { Produces(id, n, env) && env.logExport(id, n).None? }

  /** What is raised inside the `try`. */
  function TryError(id: string, n: nat, env: Env): Option<string> {
    if env.render(id, n).Some? then env.render(id, n)
    else if env.logExport(id, n).Some? then env.logExport(id, n)
    else env.logDelivery(id, n)
  }

  /** The two kinds of audit records: a report was produced (`export:generate`), and how the delivery went
      (`export:scheduled_delivery`). */
  datatype Kind = Generated | Scheduled(outcome: Outcome)

  /** `at` is the time of the run. */
  datatype AuditRecord = AuditRecord(
    request: string, user: string, schedule: string, cadence: Cadence, at: int, kind: Kind, error: Option<string>)

  function RecordOf(s: Schedule, now: int, kind: Kind, error: Option<string>): AuditRecord {
    AuditRecord(s.source, s.owner, s.id, s.cadence, now, kind, error)
  }

  /** After a report was sent: the next run is one cadence on from now. */
  function SentNote(s: Schedule, now: int): Schedule {
    s.(lastRun := Some(now), lastOutcome := Some(Delivered), lastError := None, nextRun := now + Period(s.cadence))
  }

  /** After three tries without success: the next run stays where it is. */
  function FailedNote(s: Schedule, now: int, error: string): Schedule {
    s.(lastRun := Some(now), lastOutcome := Some(NotDelivered), lastError := Some(error))
  }

  function TryNote(s: Schedule, now: int, n: nat, env: Env): Schedule {
    if Registers(s.id, n, env) then SentNote(s, now) else s
  }

  /** A record is appended in memory before the database is asked, so a failing write leaves it there. */
  function TryRecords(s: Schedule, now: int, n: nat, env: Env): seq<AuditRecord> {
    if !Produces(s.id, n, env) then []
    else if !Registers(s.id, n, env) then [RecordOf(s, now, Generated, None)]
    else [RecordOf(s, now, Generated, None), RecordOf(s, now, Scheduled(Delivered), None)]
  }

  /** What `_deliver_schedule` does: the schedule afterwards, the records it appends, the tries it makes, how it
      ends. */
  datatype Delivery = Delivery(
    schedule: Schedule, records: seq<AuditRecord>, tries: nat, outcome: Outcome, raised: bool)

  /** From try `n` on. Whatever raises inside the `try` makes it a failed try, even after the report was produced. */
  function DeliverFrom(s: Schedule, now: int, n: nat, env: Env, error: string): Delivery
    requires 1 <= n <= 4
    decreases 4 - n
  {
    if n == 4 then
      Delivery(FailedNote(s, now, error), [RecordOf(s, now, Scheduled(NotDelivered), Some(error))], 3, NotDelivered,
               env.logDelivery(s.id, 4).Some?)
    else
      match TryError(s.id, n, env)
      case None => Delivery(TryNote(s, now, n, env), TryRecords(s, now, n, env), n, Delivered, false)
      case Some(e) =>
        var later := DeliverFrom(TryNote(s, now, n, env), now, n + 1, env, e);
        later.(records := TryRecords(s, now, n, env) + later.records)
  }

  function Deliver(s: Schedule, now: int, env: Env): Delivery { DeliverFrom(s, now, 1, env, "") }

  predicate IsDue(s: Schedule, now: int) { s.status.Active? && s.nextRun <= now }

  // ----- one delivery -----

  /** What a delivery may not change: everything but the next run and the notes on the last one. */
  predicate SameScope(a: Schedule, b: Schedule) {
    a == b.(lastRun := a.lastRun, lastOutcome := a.lastOutcome, lastError := a.lastError, nextRun := a.nextRun)
  }

  predicate Has(records: seq<AuditRecord>, kind: Kind) { exists r :: r in records && r.kind == kind }

  /** Records of this schedule at this time. */
  predicate OwnRecords(records: seq<AuditRecord>, s: Schedule, now: int) {
    forall i :: 0 <= i < |records| ==>
      records[i].schedule == s.id && records[i].cadence == s.cadence && records[i].at == now
  }

  /** The first try from `n` on in which a report is produced; 4 if there is none. */
  function FirstProduced(id: string, n: nat, env: Env): (k: nat)
    requires 1 <= n <= 4
    ensures n <= k <= 4 && (k < 4 ==> Produces(id, k, env))
    ensures forall m :: n <= m < k ==> !Produces(id, m, env)
    decreases 4 - n
  {
    if n == 4 || Produces(id, n, env) then n else FirstProduced(id, n + 1, env)
  }

  /** The first try from `n` on whose report is also registered; 4 if there is none. */
  function FirstRegistered(id: string, n: nat, env: Env): (k: nat)
    requires 1 <= n <= 4
    ensures n <= k <= 4 && (k < 4 ==> Registers(id, k, env))
    ensures forall m :: n <= m < k ==> !Registers(id, m, env)
    decreases 4 - n
  {
    if n == 4 || Registers(id, n, env) then n else FirstRegistered(id, n + 1, env)
  }

  /** The delivery once more, with its tries from `n + 1` on, when try `n` does not end it. */
  lemma TryFails(s: Schedule, now: int, n: nat, env: Env, d: Delivery, error: string) returns (later: Delivery)
    requires 1 <= n < 4 && TryError(s.id, n, env).Some? && d == DeliverFrom(s, now, n, env, error)
    ensures later == DeliverFrom(TryNote(s, now, n, env), now, n + 1, env, TryError(s.id, n, env).value)
    ensures d == later.(records := TryRecords(s, now, n, env) + later.records)
  {
    later := DeliverFrom(TryNote(s, now, n, env), now, n + 1, env, TryError(s.id, n, env).value);
  }

  lemma {:induction false} DeliverKeeps(s: Schedule, now: int, n: nat, env: Env, error: string, d: Delivery)
    requires 1 <= n <= 4 && d == DeliverFrom(s, now, n, env, error)
    ensures SameScope(d.schedule, s) && OwnRecords(d.records, s, now)
    ensures d.records != [] && d.records[0].kind != Scheduled(Delivered) && 1 <= d.tries <= 3
    decreases 4 - n
  {
    if n < 4 && TryError(s.id, n, env).Some? {
      var later := TryFails(s, now, n, env, d, error);
      DeliverKeeps(TryNote(s, now, n, env), now, n + 1, env, TryError(s.id, n, env).value, later);
    }
  }

  lemma HasAppend(a: seq<AuditRecord>, b: seq<AuditRecord>, kind: Kind)
    ensures Has(a + b, kind) <==> Has(a, kind) || Has(b, kind)
  {
    if r :| r in a && r.kind == kind { assert r in a + b; }
    if r :| r in b && r.kind == kind { assert r in a + b; }
  }

  lemma TryHas(s: Schedule, now: int, n: nat, env: Env)
    ensures Has(TryRecords(s, now, n, env), Generated) <==> Produces(s.id, n, env)
    ensures Has(TryRecords(s, now, n, env), Scheduled(Delivered)) <==> Registers(s.id, n, env)
  {
    var records := TryRecords(s, now, n, env);
    if Produces(s.id, n, env) { assert records[0].kind == Generated; }
    if Registers(s.id, n, env) { assert records[1].kind == Scheduled(Delivered); }
  }

  /** A report is produced exactly when some try gets that far, and the next run moves, to one cadence from now,
      exactly when the export's own record of some report was persisted. Otherwise the schedule stays due, whatever was
      produced. */
  lemma {:induction false} DeliverMoves(s: Schedule, now: int, n: nat, env: Env, error: string, d: Delivery)
    requires 1 <= n <= 4 && d == DeliverFrom(s, now, n, env, error)
    ensures Has(d.records, Generated) <==> FirstProduced(s.id, n, env) < 4
    ensures Has(d.records, Scheduled(Delivered)) <==> FirstRegistered(s.id, n, env) < 4
    ensures d.schedule.nextRun == if FirstRegistered(s.id, n, env) < 4 then now + Period(s.cadence) else s.nextRun
    decreases 4 - n
  {
    if n < 4 {
      TryHas(s, now, n, env);
      if TryError(s.id, n, env).Some? {
        var later := TryFails(s, now, n, env, d, error);
        DeliverMoves(TryNote(s, now, n, env), now, n + 1, env, TryError(s.id, n, env).value, later);
        HasAppend(TryRecords(s, now, n, env), later.records, Generated);
        HasAppend(TryRecords(s, now, n, env), later.records, Scheduled(Delivered));
      }
    }
  }

  /** How many records of these kinds name the schedule. */
  function Count(rs: seq<AuditRecord>, id: string, kinds: set<Kind>): nat {
    if rs == [] then 0
    else Count(rs[..|rs| - 1], id, kinds) + (if rs[|rs| - 1].schedule == id && rs[|rs| - 1].kind in kinds then 1 else 0)
  }

  const Reports: set<Kind> := {Generated}
  const Deliveries: set<Kind> := {Scheduled(Delivered)}
  const Outcomes: set<Kind> := {Scheduled(Delivered), Scheduled(NotDelivered)}

  lemma {:induction false} CountAppend(a: seq<AuditRecord>, b: seq<AuditRecord>, id: string, kinds: set<Kind>)
    ensures Count(a + b, id, kinds) == Count(a, id, kinds) + Count(b, id, kinds)
  {
    if b == [] {
      assert a + b == a;
    } else {
      CountAppend(a, b[..|b| - 1], id, kinds);
      assert (a + b)[..|a + b| - 1] == a + b[..|b| - 1];
    }
  }

  lemma CountOne(r: AuditRecord, id: string, kinds: set<Kind>)
    ensures Count([r], id, kinds) == if r.schedule == id && r.kind in kinds then 1 else 0
  {
    assert [r][..0] == [];
  }

  lemma CountTry(s: Schedule, now: int, n: nat, env: Env)
    ensures Count(TryRecords(s, now, n, env), s.id, Reports) == if Produces(s.id, n, env) then 1 else 0
    ensures Count(TryRecords(s, now, n, env), s.id, Outcomes) == if Registers(s.id, n, env) then 1 else 0
  {
    var first, second := RecordOf(s, now, Generated, None), RecordOf(s, now, Scheduled(Delivered), None);
    assert [first, second] == [first] + [second];
    CountTwo(first, second, s.id, Reports);
    CountTwo(first, second, s.id, Outcomes);
    CountOne(first, s.id, Reports);
    CountOne(first, s.id, Outcomes);
  }

  lemma CountTwo(r: AuditRecord, q: AuditRecord, id: string, kinds: set<Kind>)
    ensures Count([r] + [q], id, kinds) == Count([r], id, kinds) + Count([q], id, kinds)
    ensures Count([q], id, kinds) == if q.schedule == id && q.kind in kinds then 1 else 0
  {
    CountAppend([r], [q], id, kinds);
    CountOne(q, id, kinds);
  }

  /** How many reports the tries from `n` on produce. */
  function Produced(id: string, n: nat, env: Env): nat
    requires 1 <= n <= 4
    decreases 4 - n
  {
    if n == 4 then 0
    else (if Produces(id, n, env) then 1 else 0) + (if TryError(id, n, env).None? then 0 else Produced(id, n + 1, env))
  }

  /** How many delivery records they leave, the record of a failure included. */
  function Concluded(id: string, n: nat, env: Env): (c: nat)
    requires 1 <= n <= 4
    ensures c >= 1
    decreases 4 - n
  {
    if n == 4 then 1
    else (if Registers(id, n, env) then 1 else 0)
         + (if TryError(id, n, env).None? then 0 else Concluded(id, n + 1, env))
  }

  lemma CountJoined(s: Schedule, now: int, n: nat, env: Env, records: seq<AuditRecord>, later: seq<AuditRecord>)
    requires records == TryRecords(s, now, n, env) + later
    ensures Count(records, s.id, Reports) == (if Produces(s.id, n, env) then 1 else 0) + Count(later, s.id, Reports)
    ensures Count(records, s.id, Outcomes) == (if Registers(s.id, n, env) then 1 else 0) + Count(later, s.id, Outcomes)
  {
    CountTry(s, now, n, env);
    CountAppend(TryRecords(s, now, n, env), later, s.id, Reports);
    CountAppend(TryRecords(s, now, n, env), later, s.id, Outcomes);
  }

  lemma {:induction false} CountReports(s: Schedule, now: int, n: nat, env: Env, error: string, d: Delivery)
    requires 1 <= n <= 4 && d == DeliverFrom(s, now, n, env, error)
    ensures Count(d.records, s.id, Reports) == Produced(s.id, n, env)
    decreases 4 - n
  {
    if n == 4 {
      CountOne(RecordOf(s, now, Scheduled(NotDelivered), Some(error)), s.id, Reports);
    } else if TryError(s.id, n, env).None? {
      CountTry(s, now, n, env);
    } else {
      var later := TryFails(s, now, n, env, d, error);
      CountReports(TryNote(s, now, n, env), now, n + 1, env, TryError(s.id, n, env).value, later);
      CountJoined(s, now, n, env, d.records, later.records);
    }
  }

  lemma {:induction false} CountOutcomes(s: Schedule, now: int, n: nat, env: Env, error: string, d: Delivery)
    requires 1 <= n <= 4 && d == DeliverFrom(s, now, n, env, error)
    ensures Count(d.records, s.id, Outcomes) == Concluded(s.id, n, env)
    decreases 4 - n
  {
    if n == 4 {
      CountOne(RecordOf(s, now, Scheduled(NotDelivered), Some(error)), s.id, Outcomes);
    } else if TryError(s.id, n, env).None? {
      CountTry(s, now, n, env);
    } else {
      var later := TryFails(s, now, n, env, d, error);
      CountOutcomes(TryNote(s, now, n, env), now, n + 1, env, TryError(s.id, n, env).value, later);
      CountJoined(s, now, n, env, d.records, later.records);
    }
  }

  lemma DeliveryTry(s: Schedule, now: int, n: nat, env: Env)
    ensures Count(TryRecords(s, now, n, env), s.id, Deliveries) == if Registers(s.id, n, env) then 1 else 0
  {
    var first, second := RecordOf(s, now, Generated, None), RecordOf(s, now, Scheduled(Delivered), None);
    assert [first, second] == [first] + [second];
    CountTwo(first, second, s.id, Deliveries);
    CountOne(first, s.id, Deliveries);
  }

  lemma DeliveriesJoined(s: Schedule, now: int, n: nat, env: Env, records: seq<AuditRecord>, later: seq<AuditRecord>)
    requires records == TryRecords(s, now, n, env) + later
    ensures Count(records, s.id, Deliveries)
         == (if Registers(s.id, n, env) then 1 else 0) + Count(later, s.id, Deliveries)
  {
    DeliveryTry(s, now, n, env);
    CountAppend(TryRecords(s, now, n, env), later, s.id, Deliveries);
  }

  /** No more reports are delivered than produced. */
  lemma {:induction false} CountDeliveries(s: Schedule, now: int, n: nat, env: Env, error: string, d: Delivery)
    requires 1 <= n <= 4 && d == DeliverFrom(s, now, n, env, error)
    ensures Count(d.records, s.id, Deliveries) <= Produced(s.id, n, env)
    decreases 4 - n
  {
    if n == 4 {
      CountOne(RecordOf(s, now, Scheduled(NotDelivered), Some(error)), s.id, Deliveries);
    } else if TryError(s.id, n, env).None? {
      DeliveryTry(s, now, n, env);
    } else {
      var later := TryFails(s, now, n, env, d, error);
      CountDeliveries(TryNote(s, now, n, env), now, n + 1, env, TryError(s.id, n, env).value, later);
      DeliveriesJoined(s, now, n, env, d.records, later.records);
    }
  }

  lemma {:induction false} ConcludedOnce(id: string, n: nat, env: Env)
    requires 1 <= n <= 4
    ensures var k := FirstRegistered(id, n, env); Concluded(id, n, env) == 1 <==> k == 4 || env.logDelivery(id, k).None?
    decreases 4 - n
  {
    if n < 4 { ConcludedOnce(id, n + 1, env); }
  }

  lemma {:induction false} ProducedOnce(id: string, n: nat, env: Env)
    requires 1 <= n <= 4
    ensures var k := FirstProduced(id, n, env);
            && (Produced(id, n, env) == 0 <==> k == 4)
            && (Produced(id, n, env) <= 1
                <==> k == 4 || TryError(id, k, env).None? || FirstProduced(id, k + 1, env) == 4)
    decreases 4 - n
  {
    if n < 4 { ProducedOnce(id, n + 1, env); }
  }

  /** A due run makes one to three tries. It leaves exactly one delivery record if and only if no report is registered
      or the delivery record of the first one registered is persisted. */
  lemma OneOutcomeExactly(s: Schedule, now: int, env: Env)
    ensures var d, k := Deliver(s, now, env), FirstRegistered(s.id, 1, env);
            && 1 <= d.tries <= 3
            && (Count(d.records, s.id, Outcomes) == 1 <==> k == 4 || env.logDelivery(s.id, k).None?)
  {
    DeliverKeeps(s, now, 1, env, "", Deliver(s, now, env));
    CountOutcomes(s, now, 1, env, "", Deliver(s, now, env));
    ConcludedOnce(s.id, 1, env);
  }

  /** At most one report is produced if and only if the first try that produces one ends the run, or no later one
      does. */
  lemma OneReportExactly(s: Schedule, now: int, env: Env)
    ensures var d, k := Deliver(s, now, env), FirstProduced(s.id, 1, env);
            && (Count(d.records, s.id, Reports) == 0 <==> k == 4)
            && (Count(d.records, s.id, Reports) <= 1
                <==> k == 4 || TryError(s.id, k, env).None? || FirstProduced(s.id, k + 1, env) == 4)
  {
    CountReports(s, now, 1, env, "", Deliver(s, now, env));
    ProducedOnce(s.id, 1, env);
  }

  /** The records tell what happened: one report and its delivery, or no report and a failure. */
  predicate Honest(records: seq<AuditRecord>) {
    || (|records| == 1 && records[0].kind == Scheduled(NotDelivered))
    || (|records| == 2 && records[0].kind == Generated && records[1].kind == Scheduled(Delivered))
  }

  /** A due run leaves records that are true to what happened if and only if no try produces a report, or the first
      that does has both of its records persisted. */
  lemma {:induction false} HonestExactly(s: Schedule, now: int, n: nat, env: Env, error: string, d: Delivery)
    requires 1 <= n <= 4 && d == DeliverFrom(s, now, n, env, error)
    ensures var k := FirstProduced(s.id, n, env);
            && (Honest(d.records) <==> k == 4 || TryError(s.id, k, env).None?)
            && (Honest(d.records) ==> (d.outcome.Delivered? <==> k < 4) && (k < 4 ==> d.tries == k && !d.raised))
    decreases 4 - n
  {
    if n < 4 && TryError(s.id, n, env).Some? {
      var next, e := TryNote(s, now, n, env), TryError(s.id, n, env).value;
      var later := TryFails(s, now, n, env, d, error);
      if Produces(s.id, n, env) {
        DeliverKeeps(next, now, n + 1, env, e, later);
      } else {
        HonestExactly(next, now, n + 1, env, e, later);
        assert [] + later.records == later.records;
      }
    }
  }

  // ----- a database that fails throughout -----

  const Works: Tried := (_, _) => None

  function Outage(e: string): Env { Env(Works, (_, _) => Some(e), (_, _) => Some(e)) }

  /** While the audit database fails, one due run produces the report three times and says once that it failed; the
      schedule stays due. */
  lemma OutageProduces(s: Schedule, now: int, error: string, e: string)
    ensures var d := DeliverFrom(s, now, 1, Outage(e), error);
            && d.raised && d.outcome.NotDelivered? && d.schedule == FailedNote(s, now, e)
            && Count(d.records, s.id, Reports) == 3 && |d.records| == 4
            && d.records[3] == RecordOf(s, now, Scheduled(NotDelivered), Some(e))
  {
    var env := Outage(e);
    var r, f := RecordOf(s, now, Generated, None), RecordOf(s, now, Scheduled(NotDelivered), Some(e));
    assert DeliverFrom(s, now, 4, env, e).records == [f];
    assert DeliverFrom(s, now, 3, env, e).records == [r] + [f];
    assert DeliverFrom(s, now, 2, env, e).records == [r] + ([r] + [f]);
    assert DeliverFrom(s, now, 1, env, error).records == [r] + ([r] + ([r] + [f]));
    CountAppend([r], [r] + ([r] + [f]), s.id, Reports);
    CountAppend([r], [r] + [f], s.id, Reports);
    CountTwo(r, f, s.id, Reports);
    CountOne(r, s.id, Reports);
  }

  /** So two runs at the same moment produce the same report six times. */
  lemma OutageRepeats(s: Schedule, now: int, e: string)
    requires IsDue(s, now)
    ensures var first := Deliver(s, now, Outage(e)).schedule;
            && IsDue(first, now) && first.nextRun == s.nextRun
            && Count(Deliver(s, now, Outage(e)).records
                     + Deliver(first, now, Outage(e)).records, s.id, Reports) == 6
  {
    var first := Deliver(s, now, Outage(e));
    OutageProduces(s, now, "", e);
    OutageProduces(first.schedule, now, "", e);
    CountAppend(first.records, Deliver(first.schedule, now, Outage(e)).records, s.id, Reports);
  }
}

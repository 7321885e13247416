/** What holds over whole runs of the cache, whatever the operations and whenever they run. */
module CacheRuns {
  import opened Wrappers
  import opened RedisStore
  import opened CacheModel

  /** An operation with the clock readings between which it ran. */
  datatype TimedOperation = TimedOperation(op: Operation, start: real, end: real)

  /** The tables before the first and after each operation. */
  ghost predicate IsRun(tables: seq<Table>, run: seq<TimedOperation>) {
    && |tables| == |run| + 1
    && (forall i :: 0 <= i < |run| ==> Step(run[i].op, tables[i], run[i].start, tables[i + 1], run[i].end))
    && (forall i :: 0 <= i < |run| - 1 ==> run[i].end <= run[i + 1].start)
  }

  predicate StoresFor(op: Operation, user: string) { op.StoreEntry? && op.entry.owner == user }

  predicate Touches(op: Operation, e: Entry) {
    match op
    case StoreEntry(other) => other.scope == e.scope && other.owner == e.owner && other.intent == e.intent
    case InvalidateUser(user) => user == e.owner
    case InvalidateQuery(scope, intent) => scope == e.scope && intent == e.intent
    case Find(_, _) => false
    case Wait => false
  }

  /** Once a user's entries are invalidated, no table, and so no lookup in any scope, shows an entry of
      that user until one is stored again. */
  lemma {:induction false} InvalidatedStaysGone(
      tables: seq<Table>, run: seq<TimedOperation>, user: string, i: nat, n: nat)
    requires IsRun(tables, run) && i < n <= |run|
    requires run[i].op == InvalidateUser(user)
    requires forall j :: i < j < n ==> !StoresFor(run[j].op, user)
    ensures forall k :: k in tables[n] && k.EntryKey? ==> k.owner != user
    decreases n
  {
    if i + 1 < n {
      InvalidatedStaysGone(tables, run, user, i, n - 1);
      var op := run[n - 1].op;
      assert Step(op, tables[n - 1], run[n - 1].start, tables[n], run[n - 1].end);
      if op.StoreEntry? {
        StepStores(op.entry, tables[n - 1], run[n - 1].start, tables[n], run[n - 1].end);
        assert KeyOf(op.entry).owner != user;
      }
    }
  }

  /** The same of a query: once it is invalidated, no table shows an entry of its scope and intent until one is
      stored. */
  lemma {:induction false} InvalidatedQueryStaysGone(
      tables: seq<Table>, run: seq<TimedOperation>, scope: string, intent: string, i: nat, n: nat)
    requires IsRun(tables, run) && i < n <= |run|
    requires run[i].op == InvalidateQuery(scope, intent)
    requires forall j :: i < j < n ==>
               !(run[j].op.StoreEntry? && run[j].op.entry.scope == scope && run[j].op.entry.intent == intent)
    ensures forall k :: k in tables[n] && k.EntryKey? ==> k.scope != scope || k.intent != intent
    decreases n
  {
    if i + 1 < n {
      InvalidatedQueryStaysGone(tables, run, scope, intent, i, n - 1);
      var op := run[n - 1].op;
      assert Step(op, tables[n - 1], run[n - 1].start, tables[n], run[n - 1].end);
      if op.StoreEntry? { StepStores(op.entry, tables[n - 1], run[n - 1].start, tables[n], run[n - 1].end); }
    }
  }

  /** Over a run that starts with no entries, every table shows each entry under its own key. */
  lemma {:induction false} TablesKeyed(tables: seq<Table>, run: seq<TimedOperation>, n: nat)
    requires IsRun(tables, run) && Keyed(tables[0]) && n <= |run|
    ensures Keyed(tables[n])
  {
    if n > 0 {
      TablesKeyed(tables, run, n - 1);
      var op := run[n - 1].op;
      assert Step(op, tables[n - 1], run[n - 1].start, tables[n], run[n - 1].end);
      if op.StoreEntry? { StepStores(op.entry, tables[n - 1], run[n - 1].start, tables[n], run[n - 1].end); }
    }
  }

  /** A store writes its entry, to last for the time to live, and leaves every other key to time. */
  lemma StepStores(e: Entry, t: Table, before: real, t': Table, after: real)
    requires Step(StoreEntry(e), t, before, t', after)
    ensures KeyOf(e) in t' ==> t'[KeyOf(e)].entry == e && before + 300.0 <= t'[KeyOf(e)].deadline <= after + 300.0
    ensures after < before + 300.0 ==> KeyOf(e) in t'
    ensures forall k :: k != KeyOf(e) ==> (k in t' <==> k in t && after < t[k].deadline)
    ensures forall k :: k != KeyOf(e) && k in t' ==> t'[k] == t[k]
  {
    var deadline :| before + TTL <= deadline <= after + TTL
      && t' == Surviving(t[KeyOf(e) := Timed(e, deadline)], after);
  }

  /** An operation that does not touch an entry leaves it as it is until its deadline. */
  lemma StepKeepsEntry(op: Operation, t: Table, before: real, t': Table, after: real, e: Entry)
    requires Step(op, t, before, t', after) && !Touches(op, e)
    requires KeyOf(e) in t && t[KeyOf(e)].entry == e && after < t[KeyOf(e)].deadline
    ensures KeyOf(e) in t' && t'[KeyOf(e)] == t[KeyOf(e)]
  {
    if op.StoreEntry? { StepStores(op.entry, t, before, t', after); }
  }

  /** A stored entry is found for five minutes unless it is overwritten, its owner's entries are
      invalidated or its query is: invalidating other users and queries never touches it. */
  lemma {:induction false} StoredStaysFindable(tables: seq<Table>, run: seq<TimedOperation>, e: Entry, i: nat, n: nat)
    requires IsRun(tables, run) && i < n <= |run|
    requires run[i].op == StoreEntry(e)
    requires forall j :: i < j < n ==> !Touches(run[j].op, e)
    requires run[n - 1].end < run[i].start + 300.0
    ensures KeyOf(e) in tables[n] && tables[n][KeyOf(e)].entry == e
    ensures tables[n][KeyOf(e)].deadline >= run[i].start + 300.0
    decreases n
  {
    var last := run[n - 1];
    assert Step(last.op, tables[n - 1], last.start, tables[n], last.end);
    if i + 1 < n {
      assert run[n - 2].end <= last.start <= last.end;
      StoredStaysFindable(tables, run, e, i, n - 1);
      StepKeepsEntry(last.op, tables[n - 1], last.start, tables[n], last.end, e);
    } else {
      StepStores(e, tables[n - 1], last.start, tables[n], last.end);
    }
  }

  /** And no entry outlives its last store by more than five minutes. */
  lemma {:induction false} NothingOutlivesItsTime(tables: seq<Table>, run: seq<TimedOperation>, n: nat, k: Key)
    requires IsRun(tables, run) && tables[0] == map[] && n <= |run| && k in tables[n]
    ensures exists i :: 0 <= i < n && run[i].op == StoreEntry(tables[n][k].entry)
              && k == KeyOf(tables[n][k].entry)
              && run[n - 1].end < tables[n][k].deadline <= run[i].end + 300.0
    decreases n
  {
    var op := run[n - 1].op;
    assert Step(op, tables[n - 1], run[n - 1].start, tables[n], run[n - 1].end);
    var stored := op.StoreEntry? && k == KeyOf(op.entry);
    if stored {
      StepStores(op.entry, tables[n - 1], run[n - 1].start, tables[n], run[n - 1].end);
      assert run[n - 1].op == StoreEntry(tables[n][k].entry);
    } else {
      if op.StoreEntry? { StepStores(op.entry, tables[n - 1], run[n - 1].start, tables[n], run[n - 1].end); }
      assert k in tables[n - 1] && tables[n - 1][k] == tables[n][k];
      NothingOutlivesItsTime(tables, run, n - 1, k);
      var i :| 0 <= i < n - 1 && run[i].op == StoreEntry(tables[n][k].entry)
               && k == KeyOf(tables[n][k].entry) && tables[n][k].deadline <= run[i].end + TTL;
      assert run[n - 1].end < tables[n][k].deadline;
    }
  }
}

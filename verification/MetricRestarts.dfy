/** Restarting the service between any two commands changes nothing that can be seen, except that empty
    optional texts become absent. */
module MetricRestarts {
  import opened Wrappers
  import opened MetricVersions

  // ----- what rereading changes -----

  function NoEmptyTextsIn(c: Content): Content {
    c.(aggregation := KeepGiven(c.aggregation), grain := KeepGiven(c.grain), unit := KeepGiven(c.unit),
       cubeName := KeepGiven(c.cubeName), measureName := KeepGiven(c.measureName),
       timeDimension := KeepGiven(c.timeDimension), displayFormat := KeepGiven(c.displayFormat),
       runtimeStatus := KeepGiven(c.runtimeStatus), lastSynced := KeepGiven(c.lastSynced))
  }

  /** The same version with every empty optional text absent. */
  function NoEmptyTexts(v: Version): Version {
    v.(content := NoEmptyTextsIn(v.content), previousFormula := KeepGiven(v.previousFormula),
       reason := KeepGiven(v.reason))
  }

  /** Texts and lists are stripped already. */
  predicate Tidy(c: Content) { RereadContent(c) == NoEmptyTextsIn(c) }

  lemma TidyInput(c: Content)
    ensures Tidy(FromInput(c))
  {
    StripListTwice(c.aliases);
    StripListTwice(c.dimensions);
    StripListTwice(c.certifiedFilters);
    StripListTwice(c.examples);
    StripListTwice(c.negativeExamples);
    StripListTwice(c.cubeDimensions);
    StripListTwice(c.primaryKey);
    StripListTwice(c.runtimeErrors);
  }

  lemma TidyReread(v: Version)
    requires Tidy(v.content)
    ensures Reread(v) == NoEmptyTexts(v) && Tidy(Reread(v).content) && NoEmptyTexts(Reread(v)) == NoEmptyTexts(v)
  {
    assert RereadContent(v.content) == NoEmptyTextsIn(v.content);
  }

  function Trimmed(v: Option<Version>): Option<Version> {
    match v case Some(w) => Some(NoEmptyTexts(w)) case None => None
  }

  /** Commands do not look at empty optional texts. */
  lemma NextVersionTrimmed(current: Option<Version>, target: Option<Version>, c: Command, id: string, at: int)
    ensures Trimmed(NextVersion(current, target, c, id, at))
         == Trimmed(NextVersion(Trimmed(current), Trimmed(target), c, id, at))
  {
  }

  lemma NextVersionTidy(current: Option<Version>, target: Option<Version>, c: Command, id: string, at: int)
    requires current.Some? ==> Tidy(current.value.content)
    requires target.Some? ==> Tidy(target.value.content)
    requires NextVersion(current, target, c, id, at).Some?
    ensures Tidy(NextVersion(current, target, c, id, at).value.content)
  {
    if c.Publish? { TidyInput(c.input); }
  }

  // ----- the log nobody restarts -----

  /** All versions ever made, by id, and the active one of each term. */
  datatype Ledger = Ledger(log: map<string, Version>, active: map<string, string>)

  function LookUp(fold: Folding, l: Ledger, key: string, id: string): Option<Version> {
    if id in l.log && fold(l.log[id].term) == key then Some(l.log[id]) else None
  }

  function ShownIn(fold: Folding, l: Ledger, key: string): Option<Version> {
    if key in l.active then Shown(LookUp(fold, l, key, l.active[key])) else None
  }

  function AimedAt(fold: Folding, l: Ledger, c: Command, key: string): Option<Version> {
    if c.Rollback? then LookUp(fold, l, key, c.target) else None
  }

  function LedgerStep(fold: Folding, l: Ledger, call: Call): Ledger {
    var key := KeyOf(fold, call.command.term);
    match NextVersion(ShownIn(fold, l, key), AimedAt(fold, l, call.command, key), call.command, call.id, call.at)
    case Some(v) => Ledger(l.log[v.id := NoEmptyTexts(v)], l.active[key := v.id])
    case None => l
  }

  // ----- the service and its store -----

  /** The catalog's rows, in the order they were written, and its heads. */
  datatype Service = Service(memory: Memory, rows: seq<Version>, heads: map<string, string>)

  predicate IdIn(vs: seq<Version>, id: string) { exists i :: 0 <= i < |vs| && vs[i].id == id }

  function Stored(rows: seq<Version>, v: Version): seq<Version> { if IdIn(rows, v.id) then rows else rows + [v] }

  /** The version a call adds, if any. */
  function Made(fold: Folding, m: Memory, call: Call): Option<Version> {
    var key := KeyOf(fold, call.command.term);
    NextVersion(Current(m, key), Target(call.command, History(m, key)), call.command, call.id, call.at)
  }

  function Serve(fold: Folding, s: Service, call: Call): Service {
    var key := KeyOf(fold, call.command.term);
    match Made(fold, s.memory, call)
    case Some(v) => Service(Added(s.memory, key, v), Stored(s.rows, v), s.heads[key := v.id])
    case None => s
  }

  function Grouped(fold: Folding, order: seq<Version>): map<string, seq<Version>> {
    if order == [] then map[]
    else
      var before := Grouped(fold, order[..|order| - 1]);
      var v := Reread(order[|order| - 1]);
      WithVersion(before, fold(v.term), v)
  }

  /** `_load_persisted_state`: the database gives the rows in the order `order`. */
  function Loaded(fold: Folding, order: seq<Version>, heads: map<string, string>): Memory {
    if order == [] then Memory(map[], map[]) else Memory(Grouped(fold, order), heads)
  }

  datatype Action = Do(call: Call) | Restart(order: seq<Version>)

  /** A restart reads all rows, in whatever order. */
  function Act(fold: Folding, s: Service, a: Action): Service {
    match a
    case Do(call) => Serve(fold, s, call)
    case Restart(order) =>
      if multiset(order) == multiset(s.rows) then s.(memory := Loaded(fold, order, s.heads)) else s
  }

  function RunService(fold: Folding, s: Service, actions: seq<Action>): Service
    decreases |actions|
  {
    if actions == [] then s else RunService(fold, Act(fold, s, actions[0]), actions[1..])
  }

  /** The ledger does not notice a restart. */
  function LedgerAct(fold: Folding, l: Ledger, a: Action): Ledger {
    if a.Do? then LedgerStep(fold, l, a.call) else l
  }

  function RunLedger(fold: Folding, l: Ledger, actions: seq<Action>): Ledger
    decreases |actions|
  {
    if actions == [] then l
    else RunLedger(fold, LedgerAct(fold, l, actions[0]), actions[1..])
  }

  // ----- both tell the same story -----

  /** The version is in the ledger as it is, up to empty optional texts. */
  predicate Recorded(l: Ledger, v: Version) {
    v.id in l.log && l.log[v.id] == NoEmptyTexts(v) && Tidy(v.content)
  }

  ghost predicate Holding(vs: seq<Version>, id: string) { exists v :: v in vs && v.id == id }

  /** The memory holds the version of this id under its term. */
  ghost predicate HeldIn(fold: Folding, m: Memory, l: Ledger, id: string)
    requires id in l.log
  {
    Holding(History(m, fold(l.log[id].term)), id)
  }

  ghost predicate MemoryTells(fold: Folding, m: Memory, l: Ledger) {
    && m.active == l.active
    && (forall key :: key in m.versions ==>
          forall v :: v in m.versions[key] ==> Recorded(l, v) && fold(v.term) == key)
    && (forall id :: id in l.log ==> HeldIn(fold, m, l, id))
  }

  ghost predicate RowsTell(rows: seq<Version>, l: Ledger) {
    && (forall v :: v in rows ==> Recorded(l, v))
    && (forall id :: id in l.log ==> Holding(rows, id))
  }

  /** The terms with a head are the terms with a version. */
  predicate HeadsMatch(fold: Folding, rows: seq<Version>, heads: map<string, string>) {
    heads.Keys == set v | v in rows :: fold(v.term)
  }

  /** `get_metric` never misses the active id of a term that has versions. */
  predicate KeysMatch(fold: Folding, s: Service) {
    s.memory.versions.Keys == s.memory.active.Keys && HeadsMatch(fold, s.rows, s.heads)
  }

  lemma RowHeadsMatch(fold: Folding, rows: seq<Version>, heads: map<string, string>, v: Version)
    requires HeadsMatch(fold, rows, heads)
    ensures HeadsMatch(fold, rows + [v], heads[fold(v.term) := v.id])
  {
    assert (set w | w in rows + [v] :: fold(w.term)) == (set w | w in rows :: fold(w.term)) + {fold(v.term)};
  }

  lemma ServeKeys(fold: Folding, s: Service, call: Call)
    requires KeysMatch(fold, s) && s.memory.active == s.heads
    requires Made(fold, s.memory, call).Some? ==>
               var v := Made(fold, s.memory, call).value;
               Stored(s.rows, v) == s.rows + [v] && fold(v.term) == KeyOf(fold, call.command.term)
    ensures KeysMatch(fold, Serve(fold, s, call))
  {
    if Made(fold, s.memory, call).Some? { RowHeadsMatch(fold, s.rows, s.heads, Made(fold, s.memory, call).value); }
  }

  ghost predicate Tells(fold: Folding, s: Service, l: Ledger) {
    MemoryTells(fold, s.memory, l) && RowsTell(s.rows, l) && s.heads == l.active && KeysMatch(fold, s)
  }

  lemma FindTells(fold: Folding, m: Memory, l: Ledger, key: string, id: string)
    requires MemoryTells(fold, m, l)
    ensures Trimmed(Find(History(m, key), id)) == LookUp(fold, l, key, id)
  {
    var found := Find(History(m, key), id);
    if found.Some? { assert Recorded(l, found.value); }
  }

  /** What the service shows for a term is what the ledger shows. */
  lemma CurrentTells(fold: Folding, m: Memory, l: Ledger, key: string)
    requires MemoryTells(fold, m, l)
    ensures Trimmed(Current(m, key)) == ShownIn(fold, l, key)
  {
    if key in m.active { FindTells(fold, m, l, key, m.active[key]); }
  }

  function Noted(l: Ledger, key: string, v: Version): Ledger {
    Ledger(l.log[v.id := NoEmptyTexts(v)], l.active[key := v.id])
  }

  /** The metric shown and the version aimed at are those of the ledger, up to empty optional texts. */
  lemma SeenTells(fold: Folding, m: Memory, l: Ledger, command: Command, key: string)
    requires MemoryTells(fold, m, l)
    ensures Trimmed(Current(m, key)) == ShownIn(fold, l, key)
    ensures Trimmed(Target(command, History(m, key))) == AimedAt(fold, l, command, key)
  {
    CurrentTells(fold, m, l, key);
    if command.Rollback? { FindTells(fold, m, l, key, command.target); }
  }

  lemma SeenTidy(fold: Folding, m: Memory, l: Ledger, command: Command, key: string)
    requires MemoryTells(fold, m, l)
    ensures var current := Current(m, key); current.Some? ==> Tidy(current.value.content)
    ensures var target := Target(command, History(m, key)); target.Some? ==> Tidy(target.value.content)
  {
    var current, target := Current(m, key), Target(command, History(m, key));
    assert current.Some? ==> Recorded(l, current.value);
    assert target.Some? ==> Recorded(l, target.value);
  }

  lemma MadeTells(fold: Folding, m: Memory, l: Ledger, call: Call)
    requires MemoryTells(fold, m, l)
    ensures Made(fold, m, call).None? ==> LedgerStep(fold, l, call) == l
    ensures Made(fold, m, call).Some? ==>
              (var v := Made(fold, m, call).value; var key := KeyOf(fold, call.command.term);
               LedgerStep(fold, l, call) == Noted(l, key, v) && Tidy(v.content) && v.id == call.id)
  {
    var key := KeyOf(fold, call.command.term);
    SeenTells(fold, m, l, call.command, key);
    NextVersionTrimmed(Current(m, key), Target(call.command, History(m, key)), call.command, call.id, call.at);
    if Made(fold, m, call).Some? {
      SeenTidy(fold, m, l, call.command, key);
      NextVersionTidy(Current(m, key), Target(call.command, History(m, key)), call.command, call.id, call.at);
    }
  }

  lemma MadeTerm(fold: Folding, m: Memory, l: Ledger, call: Call)
    requires MemoryTells(fold, m, l) && Made(fold, m, call).Some?
    ensures fold(Made(fold, m, call).value.term) == KeyOf(fold, call.command.term)
  {
  }

  lemma StaysRecorded(l: Ledger, key: string, v: Version, w: Version)
    requires Recorded(l, w) && v.id !in l.log
    ensures Recorded(Noted(l, key, v), w)
  {
  }

  /** A tidy version with a new id is recorded once it is noted. */
  lemma IsRecorded(l: Ledger, key: string, v: Version)
    requires Tidy(v.content)
    ensures Recorded(Noted(l, key, v), v)
  {
  }

  lemma AddedRecorded(fold: Folding, m: Memory, l: Ledger, key: string, v: Version, k: string, w: Version)
    requires MemoryTells(fold, m, l) && v.id !in l.log && Tidy(v.content) && fold(v.term) == key
    requires w in History(Added(m, key, v), k)
    ensures Recorded(Noted(l, key, v), w) && fold(w.term) == k
  {
    if w in History(m, k) {
      assert Recorded(l, w);
      StaysRecorded(l, key, v, w);
    } else {
      IsRecorded(l, key, v);
    }
  }

  lemma HistoryAfter(m: Memory, key: string, v: Version, k: string)
    ensures History(Added(m, key, v), k) == if k == key then History(m, k) + [v] else History(m, k)
  {
  }

  lemma HoldingMore(vs: seq<Version>, v: Version, id: string)
    ensures Holding(vs + [v], id) <==> Holding(vs, id) || v.id == id
  {
    assert v in vs + [v];
    if Holding(vs, id) {
      var w :| w in vs && w.id == id;
      assert w in vs + [v];
    }
  }

  lemma AddedHolds(fold: Folding, m: Memory, l: Ledger, key: string, v: Version, id: string)
    requires v.id !in l.log && fold(v.term) == key && id in Noted(l, key, v).log
    requires id in l.log ==> HeldIn(fold, m, l, id)
    ensures HeldIn(fold, Added(m, key, v), Noted(l, key, v), id)
  {
    var k := fold(Noted(l, key, v).log[id].term);
    HistoryAfter(m, key, v, k);
    HoldingMore(History(m, k), v, id);
  }

  lemma AddedTells(fold: Folding, m: Memory, l: Ledger, key: string, v: Version)
    requires MemoryTells(fold, m, l) && v.id !in l.log && Tidy(v.content) && fold(v.term) == key
    ensures MemoryTells(fold, Added(m, key, v), Noted(l, key, v))
  {
    var m2, l2 := Added(m, key, v), Noted(l, key, v);
    forall k, w | k in m2.versions && w in m2.versions[k]
      ensures Recorded(l2, w) && fold(w.term) == k
    {
      AddedRecorded(fold, m, l, key, v, k, w);
    }
    forall id | id in l2.log
      ensures HeldIn(fold, m2, l2, id)
    {
      AddedHolds(fold, m, l, key, v, id);
    }
  }

  lemma StoredNew(rows: seq<Version>, l: Ledger, v: Version)
    requires (forall w :: w in rows ==> Recorded(l, w)) && v.id !in l.log
    ensures Stored(rows, v) == rows + [v]
  {
    assert forall i :: 0 <= i < |rows| ==> Recorded(l, rows[i]);
  }

  lemma StoredRecorded(rows: seq<Version>, l: Ledger, key: string, v: Version)
    requires (forall w :: w in rows ==> Recorded(l, w)) && v.id !in l.log && Tidy(v.content)
    ensures forall w :: w in rows + [v] ==> Recorded(Noted(l, key, v), w)
  {
    IsRecorded(l, key, v);
    forall w | w in rows + [v]
      ensures Recorded(Noted(l, key, v), w)
    {
      if w in rows { StaysRecorded(l, key, v, w); }
    }
  }

  lemma StoredHasAll(rows: seq<Version>, l: Ledger, key: string, v: Version)
    requires RowsTell(rows, l)
    ensures forall id :: id in Noted(l, key, v).log ==> Holding(rows + [v], id)
  {
    forall id | id in Noted(l, key, v).log
      ensures Holding(rows + [v], id)
    {
      HoldingMore(rows, v, id);
    }
  }

  lemma StoredTells(rows: seq<Version>, l: Ledger, key: string, v: Version)
    requires RowsTell(rows, l) && v.id !in l.log && Tidy(v.content)
    ensures Stored(rows, v) == rows + [v] && RowsTell(Stored(rows, v), Noted(l, key, v))
  {
    StoredNew(rows, l, v);
    StoredRecorded(rows, l, key, v);
    StoredHasAll(rows, l, key, v);
  }

  function WithVersion(groups: map<string, seq<Version>>, key: string, v: Version): map<string, seq<Version>> {
    groups[key := (if key in groups then groups[key] else []) + [v]]
  }

  /** Only versions of the ledger, each under the key of its term. */
  ghost predicate Sorted(fold: Folding, groups: map<string, seq<Version>>, l: Ledger) {
    forall key :: key in groups ==> forall v :: v in groups[key] ==> Recorded(l, v) && fold(v.term) == key
  }

  ghost predicate Holds(fold: Folding, groups: map<string, seq<Version>>, order: seq<Version>) {
    forall v :: v in order ==> fold(v.term) in groups && Reread(v) in groups[fold(v.term)]
  }

  lemma WithVersionSorted(fold: Folding, groups: map<string, seq<Version>>, l: Ledger, v: Version)
    requires Sorted(fold, groups, l) && Recorded(l, v)
    ensures Sorted(fold, WithVersion(groups, fold(v.term), v), l)
  {
  }

  lemma WithVersionHolds(fold: Folding, groups: map<string, seq<Version>>, order: seq<Version>, v: Version)
    requires Holds(fold, groups, order)
    ensures Holds(fold, WithVersion(groups, fold(v.term), Reread(v)), order + [v])
  {
    var after := WithVersion(groups, fold(v.term), Reread(v));
    assert after[fold(v.term)][|after[fold(v.term)]| - 1] == Reread(v);
    forall w | w in order
      ensures fold(w.term) in after && Reread(w) in after[fold(w.term)]
    {
      assert Reread(w) in groups[fold(w.term)];
    }
  }

  lemma {:induction false} GroupedSorted(fold: Folding, order: seq<Version>, l: Ledger)
    requires forall i :: 0 <= i < |order| ==> Recorded(l, order[i])
    ensures Sorted(fold, Grouped(fold, order), l)
  {
    if order != [] {
      var front, last := order[..|order| - 1], order[|order| - 1];
      GroupedSorted(fold, front, l);
      assert Recorded(l, last);
      TidyReread(last);
      WithVersionSorted(fold, Grouped(fold, front), l, Reread(last));
    }
  }

  lemma {:induction false} GroupedHolds(fold: Folding, order: seq<Version>)
    ensures Holds(fold, Grouped(fold, order), order)
  {
    if order != [] {
      var front, last := order[..|order| - 1], order[|order| - 1];
      GroupedHolds(fold, front);
      WithVersionHolds(fold, Grouped(fold, front), front, last);
      assert front + [last] == order;
    }
  }

  lemma {:induction false} GroupedKeys(fold: Folding, order: seq<Version>)
    ensures Grouped(fold, order).Keys == set v | v in order :: fold(v.term)
  {
    if order != [] {
      var front, last := order[..|order| - 1], order[|order| - 1];
      GroupedKeys(fold, front);
      assert order == front + [last];
    }
  }

  lemma SameMembers(a: seq<Version>, b: seq<Version>)
    requires multiset(a) == multiset(b)
    ensures forall v :: v in a <==> v in b
  {
    assert forall v :: v in a <==> v in multiset(a);
    assert forall v :: v in b <==> v in multiset(b);
  }

  lemma LoadedKeys(fold: Folding, rows: seq<Version>, order: seq<Version>, heads: map<string, string>)
    requires HeadsMatch(fold, rows, heads) && multiset(order) == multiset(rows)
    ensures Loaded(fold, order, heads).versions.Keys == heads.Keys
    ensures Loaded(fold, order, heads).active == heads
  {
    SameMembers(rows, order);
    GroupedKeys(fold, order);
    if order == [] { assert rows == [] by { assert |multiset(rows)| == 0; } }
  }

  /** Loading the rows, in any order, brings back a memory that tells the same. */
  lemma LoadedTells(fold: Folding, rows: seq<Version>, order: seq<Version>, l: Ledger)
    requires RowsTell(rows, l) && multiset(order) == multiset(rows)
    requires order == [] ==> l.active == map[]
    ensures MemoryTells(fold, Loaded(fold, order, l.active), l)
  {
    SameMembers(rows, order);
    assert forall i :: 0 <= i < |order| ==> Recorded(l, order[i]) by {
      assert forall i :: 0 <= i < |order| ==> order[i] in order;
    }
    GroupedSorted(fold, order, l);
    GroupedHasAll(fold, rows, order, l);
  }

  lemma GroupedHasAll(fold: Folding, rows: seq<Version>, order: seq<Version>, l: Ledger)
    requires RowsTell(rows, l) && forall v :: v in rows ==> v in order
    ensures forall id :: id in l.log ==> HeldIn(fold, Memory(Grouped(fold, order), l.active), l, id)
  {
    var m := Memory(Grouped(fold, order), l.active);
    GroupedHolds(fold, order);
    forall id | id in l.log
      ensures HeldIn(fold, m, l, id)
    {
      var v :| v in rows && v.id == id;
      assert v in order && Recorded(l, v);
      assert Reread(v) in History(m, fold(v.term));
    }
  }

  lemma DoTells(fold: Folding, s: Service, l: Ledger, call: Call)
    requires Tells(fold, s, l) && call.id !in l.log
    ensures Tells(fold, Serve(fold, s, call), LedgerStep(fold, l, call))
    ensures LedgerStep(fold, l, call).log.Keys <= l.log.Keys + {call.id}
  {
    MadeTells(fold, s.memory, l, call);
    if Made(fold, s.memory, call).Some? {
      var v, key := Made(fold, s.memory, call).value, KeyOf(fold, call.command.term);
      MadeTerm(fold, s.memory, l, call);
      AddedTells(fold, s.memory, l, key, v);
      StoredTells(s.rows, l, key, v);
    }
    ServeKeys(fold, s, call);
  }

  lemma ActTells(fold: Folding, s: Service, l: Ledger, a: Action)
    requires Tells(fold, s, l)
    requires a.Do? ==> a.call.id !in l.log
    ensures Tells(fold, Act(fold, s, a), LedgerAct(fold, l, a))
    ensures LedgerAct(fold, l, a).log.Keys <= l.log.Keys + (if a.Do? then {a.call.id} else {})
  {
    match a
    case Do(call) =>
      DoTells(fold, s, l, call);
    case Restart(order) =>
      if multiset(order) == multiset(s.rows) {
        LoadedKeys(fold, s.rows, order, s.heads);
        LoadedTells(fold, s.rows, order, l);
      }
  }

  /** The ids drawn for the calls of a run differ. */
  predicate FreshCalls(actions: seq<Action>) {
    forall i, j :: 0 <= i < j < |actions| && actions[i].Do? && actions[j].Do? ==>
      actions[i].call.id != actions[j].call.id
  }

  predicate Unused(l: Ledger, actions: seq<Action>) {
    forall i :: 0 <= i < |actions| && actions[i].Do? ==> actions[i].call.id !in l.log
  }

  lemma StillUnused(l: Ledger, next: Ledger, actions: seq<Action>)
    requires actions != [] && FreshCalls(actions) && Unused(l, actions)
    requires next.log.Keys <= l.log.Keys + (if actions[0].Do? then {actions[0].call.id} else {})
    ensures FreshCalls(actions[1..]) && Unused(next, actions[1..])
  {
    forall i | 0 <= i < |actions| - 1 && actions[1..][i].Do?
      ensures actions[1..][i].call.id !in next.log
    {
      assert actions[1..][i] == actions[i + 1];
    }
  }

  /** A run of commands and restarts tells what the ledger of the commands alone tells. */
  lemma {:induction false} RunTells(fold: Folding, s: Service, l: Ledger, actions: seq<Action>)
    requires Tells(fold, s, l) && FreshCalls(actions) && Unused(l, actions)
    ensures Tells(fold, RunService(fold, s, actions), RunLedger(fold, l, actions))
    decreases |actions|
  {
    if actions != [] {
      ActTells(fold, s, l, actions[0]);
      StillUnused(l, LedgerAct(fold, l, actions[0]), actions);
      RunTells(fold, Act(fold, s, actions[0]), LedgerAct(fold, l, actions[0]), actions[1..]);
    }
  }

  function WithoutRestarts(actions: seq<Action>): seq<Action>
    decreases |actions|
  {
    if actions == [] then []
    else (if actions[0].Do? then [actions[0]] else []) + WithoutRestarts(actions[1..])
  }

  lemma {:induction false} LedgerIgnoresRestarts(fold: Folding, l: Ledger, actions: seq<Action>)
    ensures RunLedger(fold, l, WithoutRestarts(actions)) == RunLedger(fold, l, actions)
    decreases |actions|
  {
    if actions != [] {
      LedgerIgnoresRestarts(fold, LedgerAct(fold, l, actions[0]), actions[1..]);
      assert actions[0].Do? ==> WithoutRestarts(actions)[1..] == WithoutRestarts(actions[1..]);
      assert actions[0].Restart? ==> WithoutRestarts(actions) == WithoutRestarts(actions[1..]);
    }
  }

  lemma {:induction false} WithoutRestartsSubset(actions: seq<Action>)
    ensures forall a :: a in WithoutRestarts(actions) ==> a in actions && a.Do?
    decreases |actions|
  {
    if actions != [] { WithoutRestartsSubset(actions[1..]); }
  }

  lemma {:induction false} WithoutRestartsFresh(actions: seq<Action>)
    requires FreshCalls(actions)
    ensures FreshCalls(WithoutRestarts(actions))
    decreases |actions|
  {
    if actions != [] {
      var rest := WithoutRestarts(actions[1..]);
      WithoutRestartsFresh(actions[1..]);
      WithoutRestartsSubset(actions[1..]);
      if actions[0].Do? {
        forall j | 0 <= j < |rest|
          ensures rest[j].call.id != actions[0].call.id
        {
          assert rest[j] in actions[1..];
        }
      }
    }
  }

  const Empty := Service(Memory(map[], map[]), [], map[])

  /** For every run and every way of restarting in between: each term shows the same metric, and has the
      same versions, as if the service had never been restarted, up to empty optional texts. */
  lemma RestartsAreInvisible(fold: Folding, actions: seq<Action>, key: string)
    requires FreshCalls(actions)
    ensures var s := RunService(fold, Empty, actions).memory;
            var t := RunService(fold, Empty, WithoutRestarts(actions)).memory;
            && Trimmed(Current(s, key)) == Trimmed(Current(t, key))
            && (set v | v in History(s, key) :: NoEmptyTexts(v)) == (set v | v in History(t, key) :: NoEmptyTexts(v))
  {
    var l0 := Ledger(map[], map[]);
    RunTells(fold, Empty, l0, actions);
    WithoutRestartsFresh(actions);
    RunTells(fold, Empty, l0, WithoutRestarts(actions));
    LedgerIgnoresRestarts(fold, l0, actions);
    var s, t := RunService(fold, Empty, actions).memory, RunService(fold, Empty, WithoutRestarts(actions)).memory;
    var l := RunLedger(fold, l0, actions);
    CurrentTells(fold, s, l, key);
    CurrentTells(fold, t, l, key);
    VersionsTell(fold, s, l, key);
    VersionsTell(fold, t, l, key);
  }

  lemma VersionsTell(fold: Folding, m: Memory, l: Ledger, key: string)
    requires MemoryTells(fold, m, l)
    ensures (set v | v in History(m, key) :: NoEmptyTexts(v))
         == (set id | id in l.log && fold(l.log[id].term) == key :: l.log[id])
  {
    forall id | id in l.log && fold(l.log[id].term) == key
      ensures l.log[id] in (set v | v in History(m, key) :: NoEmptyTexts(v))
    {
      var v :| v in History(m, key) && v.id == id;
      assert Recorded(l, v);
    }
    forall v | v in History(m, key)
      ensures v.id in l.log && NoEmptyTexts(v) == l.log[v.id] && fold(l.log[v.id].term) == key
    {
      assert Recorded(l, v);
    }
  }
}

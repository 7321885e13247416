/** The version log of the semantic metrics: publish, rollback, delete, and what a restart reads back. */
module MetricVersions {
  import opened Wrappers

  // ----- text -----

  /** The characters Python's `str.strip` removes. */
  predicate IsSpace(c: char) {
    var n := c as int;
    9 <= n <= 13 || 0x1c <= n <= 0x20 || 0x2000 <= n <= 0x200a
    || n in [0x85, 0xa0, 0x1680, 0x2028, 0x2029, 0x202f, 0x205f, 0x3000]
  }

  function Strip(s: string): (r: string)
    ensures r == "" || (!IsSpace(r[0]) && !IsSpace(r[|r| - 1]))
  {
    if s == "" then ""
    else if IsSpace(s[0]) then Strip(s[1..])
    else if IsSpace(s[|s| - 1]) then Strip(s[..|s| - 1])
    else s
  }

  lemma StripTwice(s: string)
    ensures Strip(Strip(s)) == Strip(s)
  {
  }

  /** An optional text given by a caller: absent and empty are the same, anything else is stripped. */
  function StripGiven(t: Option<string>): Option<string> {
    match t case Some(s) => (if s == "" then None else Some(Strip(s))) case None => None
  }

  function KeepGiven(t: Option<string>): Option<string> { if t == Some("") then None else t }

  /** `_normalize_str_list`. */
  function StripList(ts: seq<string>): seq<string> {
    if ts == [] then []
    else (if Strip(ts[0]) == "" then [] else [Strip(ts[0])]) + StripList(ts[1..])
  }

  lemma {:induction false} StripListTwice(ts: seq<string>)
    ensures StripList(StripList(ts)) == StripList(ts)
  {
    if ts != [] {
      StripListTwice(ts[1..]);
      StripTwice(ts[0]);
      if Strip(ts[0]) == "" {
        assert StripList(ts) == StripList(ts[1..]);
      } else {
        assert StripList(ts)[1..] == StripList(ts[1..]);
      }
    }
  }

  type Record = map<string, string>

  function Filled(r: Option<Record>): Option<Record> { if r == Some(map[]) then None else r }

  // ----- versions -----

  datatype Content = Content(
    definition: string, formula: string, owner: string, freshnessRule: string,
    aliases: seq<string>, aggregation: Option<string>, grain: Option<string>, unit: Option<string>,
    dimensions: seq<string>, source: Option<Record>, joins: seq<Record>, certifiedFilters: seq<string>,
    examples: seq<string>, negativeExamples: seq<string>, security: Option<Record>,
    cubeName: Option<string>, measureName: Option<string>, timeDimension: Option<string>,
    cubeDimensions: seq<string>, primaryKey: seq<string>, displayFormat: Option<string>,
    runtimeStatus: Option<string>, runtimeErrors: seq<string>, lastSynced: Option<string>)

  datatype Change = Published | RolledBack | Deleted

  datatype Version = Version(
    id: string, term: string, content: Content, changedBy: string, at: int,
    previousFormula: Option<string>, action: Change, reason: Option<string>)

  /** What `publish_metric` keeps of what it is given. */
  function FromInput(c: Content): Content {
    Content(Strip(c.definition), Strip(c.formula), Strip(c.owner), Strip(c.freshnessRule),
            StripList(c.aliases), StripGiven(c.aggregation), StripGiven(c.grain), StripGiven(c.unit),
            StripList(c.dimensions), Filled(c.source), c.joins, StripList(c.certifiedFilters),
            StripList(c.examples), StripList(c.negativeExamples), Filled(c.security),
            StripGiven(c.cubeName), StripGiven(c.measureName), StripGiven(c.timeDimension),
            StripList(c.cubeDimensions), StripList(c.primaryKey), StripGiven(c.displayFormat),
            StripGiven(c.runtimeStatus), StripList(c.runtimeErrors), c.lastSynced)
  }

  /** What rollback and delete copy. */
  function Copied(c: Content): Content { c.(source := Filled(c.source), security := Filled(c.security)) }

  function RereadContent(c: Content): Content {
    Content(c.definition, c.formula, c.owner, c.freshnessRule,
            StripList(c.aliases), StripGiven(c.aggregation), StripGiven(c.grain), StripGiven(c.unit),
            StripList(c.dimensions), c.source, c.joins, StripList(c.certifiedFilters),
            StripList(c.examples), StripList(c.negativeExamples), c.security,
            StripGiven(c.cubeName), StripGiven(c.measureName), StripGiven(c.timeDimension),
            StripList(c.cubeDimensions), StripList(c.primaryKey), StripGiven(c.displayFormat),
            StripGiven(c.runtimeStatus), StripList(c.runtimeErrors), KeepGiven(c.lastSynced))
  }

  /** What `_version_from_payload` makes of a stored version. */
  function Reread(v: Version): Version {
    v.(content := RereadContent(v.content), previousFormula := KeepGiven(v.previousFormula),
       reason := KeepGiven(v.reason))
  }

  datatype Command =
    | Publish(term: string, input: Content, changedBy: string)
    | Rollback(term: string, target: string, changedBy: string, reason: Option<string>)
    | Delete(term: string, changedBy: string, reason: Option<string>)

  type Folding = string -> string

  function KeyOf(fold: Folding, term: string): string { fold(Strip(term)) }

  function Formula(v: Option<Version>): Option<string> {
    match v case Some(w) => Some(w.content.formula) case None => None
  }

  /** The version a command adds, given the metric shown for the term and the version aimed at; None is
      the `KeyError` of a rollback without target or a delete without current metric. */
  function NextVersion(current: Option<Version>, target: Option<Version>, c: Command, id: string, at: int)
    : Option<Version>
  {
    match c
    case Publish(term, input, changedBy) =>
      Some(Version(id, Strip(term), FromInput(input), changedBy, at, Formula(current), Published, None))
    case Rollback(_, _, changedBy, reason) =>
      if target.None? then None
      else Some(Version(id, target.value.term, Copied(target.value.content), changedBy, at, Formula(current),
                        RolledBack, StripGiven(reason)))
    case Delete(_, changedBy, reason) =>
      if current.None? then None
      else Some(Version(id, current.value.term, Copied(current.value.content), changedBy, at, Formula(current),
                        Deleted, StripGiven(reason)))
  }

  // ----- the service's memory -----

  datatype Memory = Memory(versions: map<string, seq<Version>>, active: map<string, string>)

  function History(m: Memory, key: string): seq<Version> { if key in m.versions then m.versions[key] else [] }

  function Find(vs: seq<Version>, id: string): (r: Option<Version>)
    ensures r.Some? ==> r.value in vs && r.value.id == id
    ensures r.None? ==> forall v :: v in vs ==> v.id != id
  {
    if vs == [] then None else if vs[0].id == id then Some(vs[0]) else Find(vs[1..], id)
  }

  function Shown(v: Option<Version>): Option<Version> {
    if v.Some? && v.value.action.Deleted? then None else v
  }

  /** `get_metric`. */
  function Current(m: Memory, key: string): Option<Version> {
    if key in m.active then Shown(Find(History(m, key), m.active[key])) else None
  }

  function Target(c: Command, vs: seq<Version>): Option<Version> {
    if c.Rollback? then Find(vs, c.target) else None
  }

  function Added(m: Memory, key: string, v: Version): Memory {
    Memory(m.versions[key := History(m, key) + [v]], m.active[key := v.id])
  }

  function Step(fold: Folding, m: Memory, c: Command, id: string, at: int): Memory {
    var key := KeyOf(fold, c.term);
    match NextVersion(Current(m, key), Target(c, History(m, key)), c, id, at)
    case Some(v) => Added(m, key, v)
    case None => m
  }

  // ----- the log over a run -----

  /** What was shown after the first `n` versions of a log. */
  function ShownAfter(vs: seq<Version>, n: nat): Option<Version>
    requires n <= |vs|
  {
    if n == 0 then None else Shown(Some(vs[n - 1]))
  }

  predicate SameContent(v: Version, w: Version) { v.term == w.term && v.content == w.content }

  predicate NoEmptyRecords(c: Content) { c.source != Some(map[]) && c.security != Some(map[]) }

  /** Version `n` of a log follows from the ones before it. */
  ghost predicate Follows(vs: seq<Version>, n: nat)
    requires n < |vs|
  {
    var v, shown := vs[n], ShownAfter(vs, n);
    && v.previousFormula == Formula(shown)
    && (v.action.Deleted? ==> shown.Some? && SameContent(v, shown.value))
    && (v.action.RolledBack? ==> exists j :: 0 <= j < n && SameContent(v, vs[j]))
  }

  predicate DistinctIds(vs: seq<Version>) {
    forall i, j :: 0 <= i < j < |vs| ==> vs[i].id != vs[j].id
  }

  ghost predicate LogOk(fold: Folding, key: string, vs: seq<Version>) {
    && vs != [] && DistinctIds(vs)
    && (forall v :: v in vs ==> fold(v.term) == key && NoEmptyRecords(v.content))
    && (forall n :: 0 <= n < |vs| ==> Follows(vs, n))
  }

  /** A log in order, whose last version is the active one. */
  ghost predicate LogAndHead(fold: Folding, key: string, vs: seq<Version>, head: string) {
    LogOk(fold, key, vs) && head == vs[|vs| - 1].id
  }

  ghost predicate Ok(fold: Folding, m: Memory) {
    && m.versions.Keys == m.active.Keys
    && (forall key :: key in m.versions ==> LogAndHead(fold, key, m.versions[key], m.active[key]))
  }

  ghost predicate Fresh(m: Memory, id: string) {
    forall key :: key in m.versions ==> forall v :: v in m.versions[key] ==> v.id != id
  }

  lemma {:induction false} FindLast(vs: seq<Version>)
    requires vs != [] && DistinctIds(vs)
    ensures Find(vs, vs[|vs| - 1].id) == Some(vs[|vs| - 1])
  {
    if |vs| > 1 {
      assert vs[0].id != vs[|vs| - 1].id;
      FindLast(vs[1..]);
    }
  }

  /** The metric shown is the last version, unless that is a deletion. */
  lemma CurrentIsLast(fold: Folding, m: Memory, key: string)
    requires Ok(fold, m)
    ensures Current(m, key) == ShownAfter(History(m, key), |History(m, key)|)
  {
    if key in m.versions { FindLast(m.versions[key]); }
  }

  lemma FollowsStays(vs: seq<Version>, v: Version, n: nat)
    requires n < |vs| && Follows(vs, n)
    ensures Follows(vs + [v], n)
  {
    var ws := vs + [v];
    assert ws[n] == vs[n] && ShownAfter(ws, n) == ShownAfter(vs, n);
    if vs[n].action.RolledBack? {
      var j :| 0 <= j < n && SameContent(vs[n], vs[j]);
      assert SameContent(ws[n], ws[j]);
    }
  }

  lemma AddedFollows(vs: seq<Version>, c: Command, id: string, at: int)
    requires forall v :: v in vs ==> NoEmptyRecords(v.content)
    requires NextVersion(ShownAfter(vs, |vs|), Target(c, vs), c, id, at).Some?
    ensures var v := NextVersion(ShownAfter(vs, |vs|), Target(c, vs), c, id, at).value;
            Follows(vs + [v], |vs|) && NoEmptyRecords(v.content) && v.id == id
  {
    var shown, target := ShownAfter(vs, |vs|), Target(c, vs);
    var v := NextVersion(shown, target, c, id, at).value;
    var ws := vs + [v];
    assert ShownAfter(ws, |vs|) == shown;
    if c.Rollback? {
      var j :| 0 <= j < |vs| && vs[j] == target.value;
      assert NoEmptyRecords(vs[j].content);
      assert SameContent(ws[|vs|], ws[j]);
    } else if c.Delete? {
      assert shown.value in vs;
    }
  }

  /** The term of the version added folds to the key it is filed under. */
  lemma AddedTerm(fold: Folding, vs: seq<Version>, c: Command, id: string, at: int)
    requires forall v :: v in vs ==> fold(v.term) == KeyOf(fold, c.term)
    requires NextVersion(ShownAfter(vs, |vs|), Target(c, vs), c, id, at).Some?
    ensures fold(NextVersion(ShownAfter(vs, |vs|), Target(c, vs), c, id, at).value.term) == KeyOf(fold, c.term)
  {
    if c.Delete? { assert ShownAfter(vs, |vs|).value in vs; }
  }

  lemma LogGrows(fold: Folding, key: string, vs: seq<Version>, v: Version)
    requires vs == [] || LogOk(fold, key, vs)
    requires forall w :: w in vs ==> w.id != v.id
    requires fold(v.term) == key && NoEmptyRecords(v.content) && Follows(vs + [v], |vs|)
    ensures LogOk(fold, key, vs + [v])
  {
    forall n | 0 <= n < |vs|
      ensures Follows(vs + [v], n)
    {
      FollowsStays(vs, v, n);
    }
  }

  lemma AddedOk(fold: Folding, m: Memory, key: string, v: Version)
    requires Ok(fold, m) && LogOk(fold, key, History(m, key) + [v])
    ensures Ok(fold, Added(m, key, v))
  {
    var t := Added(m, key, v);
    assert LogAndHead(fold, key, History(m, key) + [v], v.id);
    forall k | k in t.versions
      ensures LogAndHead(fold, k, t.versions[k], t.active[k])
    {
      if k != key { AddedElsewhere(m, key, v, k); }
    }
  }

  lemma AddedElsewhere(m: Memory, key: string, v: Version, k: string)
    requires k != key && m.versions.Keys == m.active.Keys && k in Added(m, key, v).versions
    ensures var after := Added(m, key, v);
            k in m.versions && after.versions[k] == m.versions[k] && after.active[k] == m.active[k]
  {
  }

  /** What a command does to memory, if it does anything. */
  lemma StepAdds(fold: Folding, m: Memory, c: Command, id: string, at: int) returns (added: Option<Version>)
    requires Ok(fold, m) && Fresh(m, id)
    ensures added.None? ==> Step(fold, m, c, id, at) == m
    ensures added.Some? ==>
              (var key := KeyOf(fold, c.term);
               && Step(fold, m, c, id, at) == Added(m, key, added.value)
               && added == NextVersion(Current(m, key), Target(c, History(m, key)), c, id, at)
               && added.value.id == id && LogOk(fold, key, History(m, key) + [added.value]))
  {
    var key := KeyOf(fold, c.term);
    var vs := History(m, key);
    CurrentIsLast(fold, m, key);
    added := NextVersion(Current(m, key), Target(c, vs), c, id, at);
    if added.Some? {
      AddedFollows(vs, c, id, at);
      AddedTerm(fold, vs, c, id, at);
      LogGrows(fold, key, vs, added.value);
    }
  }

  lemma AddedStaysFresh(m: Memory, key: string, v: Version, other: string)
    requires Fresh(m, other) && other != v.id
    ensures Fresh(Added(m, key, v), other)
  {
  }

  /** One command with a fresh id keeps the logs in order and only ever appends. */
  lemma StepKeeps(fold: Folding, m: Memory, c: Command, id: string, at: int)
    requires Ok(fold, m) && Fresh(m, id)
    ensures Ok(fold, Step(fold, m, c, id, at))
    ensures forall key :: History(m, key) <= History(Step(fold, m, c, id, at), key)
    ensures forall other :: other != id && Fresh(m, other) ==> Fresh(Step(fold, m, c, id, at), other)
  {
    var added := StepAdds(fold, m, c, id, at);
    if added.Some? {
      var key := KeyOf(fold, c.term);
      AddedOk(fold, m, key, added.value);
      forall other | other != id && Fresh(m, other)
        ensures Fresh(Added(m, key, added.value), other)
      {
        AddedStaysFresh(m, key, added.value, other);
      }
    }
  }

  /** A command as it is carried out: with the id drawn for its version and the time. */
  datatype Call = Call(command: Command, id: string, at: int)

  function Run(fold: Folding, m: Memory, calls: seq<Call>): Memory
    decreases |calls|
  {
    if calls == [] then m else Run(fold, Step(fold, m, calls[0].command, calls[0].id, calls[0].at), calls[1..])
  }

  predicate DistinctCalls(calls: seq<Call>) { forall i, j :: 0 <= i < j < |calls| ==> calls[i].id != calls[j].id }

  /** Over any run every log only grows at its end, the active version is always its last, and every
      version follows from the ones before it. */
  lemma {:induction false} RunKeeps(fold: Folding, m: Memory, calls: seq<Call>)
    requires Ok(fold, m) && DistinctCalls(calls)
    requires forall i :: 0 <= i < |calls| ==> Fresh(m, calls[i].id)
    ensures Ok(fold, Run(fold, m, calls))
    ensures forall key :: History(m, key) <= History(Run(fold, m, calls), key)
    ensures forall id :: Fresh(m, id) && (forall i :: 0 <= i < |calls| ==> calls[i].id != id) ==>
              Fresh(Run(fold, m, calls), id)
    decreases |calls|
  {
    if calls != [] {
      StepKeeps(fold, m, calls[0].command, calls[0].id, calls[0].at);
      var next := Step(fold, m, calls[0].command, calls[0].id, calls[0].at);
      forall i | 0 <= i < |calls| - 1
        ensures Fresh(next, calls[1..][i].id)
      {
        assert calls[0].id != calls[i + 1].id;
      }
      assert DistinctCalls(calls[1..]);
      RunKeeps(fold, next, calls[1..]);
      forall id | Fresh(m, id) && forall i :: 0 <= i < |calls| ==> calls[i].id != id
        ensures Fresh(Run(fold, m, calls), id)
      {
        assert calls[0].id != id;
        forall i | 0 <= i < |calls| - 1
          ensures calls[1..][i].id != id
        {
          assert calls[1..][i] == calls[i + 1];
        }
      }
    }
  }

  lemma AddedShows(fold: Folding, m: Memory, key: string, v: Version)
    requires LogOk(fold, key, History(m, key) + [v])
    ensures Current(Added(m, key, v), key) == Shown(Some(v))
  {
    FindLast(History(m, key) + [v]);
  }

  /** A rollback shows the content of its target again; a delete shows nothing; a publish shows what was given. */
  lemma StepShows(fold: Folding, m: Memory, c: Command, id: string, at: int)
    requires Ok(fold, m) && Fresh(m, id)
    ensures var key := KeyOf(fold, c.term);
            var shown := Current(Step(fold, m, c, id, at), key);
            match c
            case Publish(term, input, _) => shown.Some? && shown.value.content == FromInput(input)
            case Rollback(_, target, _, _) =>
              (match Find(History(m, key), target)
               case Some(v) => shown.Some? && SameContent(shown.value, v)
               case None => shown == Current(m, key))
            case Delete(_, _, _) => shown.None?
  {
    var key := KeyOf(fold, c.term);
    var added := StepAdds(fold, m, c, id, at);
    if added.Some? { AddedShows(fold, m, key, added.value); }
    if c.Rollback? && Find(History(m, key), c.target).Some? {
      assert NoEmptyRecords(Find(History(m, key), c.target).value.content);
    }
  }
}

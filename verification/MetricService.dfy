/** The service object and its store, method by method. */
module MetricService {
  import opened Wrappers
  import opened MetricVersions
  import opened MetricRestarts
  import opened MetricMeaning

  /** The catalog tables: version rows in the order written, and the head of each term. */
  class CatalogStore {
    var rows: seq<Version>
    var heads: map<string, string>

    constructor ()
      ensures rows == [] && heads == map[]
    {
      rows, heads := [], map[];
    }

    /** A row whose id is there already is not written again; the head always is. */
    method AppendSemanticVersion(v: Version, key: string)
      modifies this
      ensures rows == Stored(old(rows), v) && heads == old(heads)[key := v.id]
    {
      if !IdIn(rows, v.id) { rows := rows + [v]; }
      heads := heads[key := v.id];
    }
  }

  class SemanticLayerService {
    const fold: Folding
    const store: CatalogStore
    var versions: map<string, seq<Version>>
    var active: map<string, string>

    ghost function View(): Service
      reads this, store
    {
      Service(Memory(versions, active), store.rows, store.heads)
    }

    /** Starting on a store whose rows come back in the order `order`. */
    constructor (fold: Folding, store: CatalogStore, order: seq<Version>)
      requires multiset(order) == multiset(store.rows)
      ensures this.fold == fold && this.store == store
      ensures View() == Act(fold, Service(Memory(map[], map[]), store.rows, store.heads), Restart(order))
    {
      this.fold, this.store := fold, store;
      versions, active := map[], map[];
      new;
      if order == [] { return; }
      var i := 0;
      assert order[..0] == [];
      while i < |order|
        invariant 0 <= i <= |order|
        invariant versions == Grouped(fold, order[..i])
        invariant active == map[]
      {
        var v := Reread(order[i]);
        var key := fold(v.term);
        versions := versions[key := (if key in versions then versions[key] else []) + [v]];
        assert order[..i + 1][..i] == order[..i];
        i := i + 1;
      }
      assert order[..i] == order;
      active := store.heads;
    }

    /** A term with versions but no active one would raise; `MetricRestarts.KeysMatch` says there is none. */
    method GetMetric(term: string) returns (r: Option<Version>)
      requires versions.Keys == active.Keys
      ensures r == Current(View().memory, KeyOf(fold, term))
    {
      var key := KeyOf(fold, term);
      if key !in versions { return None; }
      var vs, id := versions[key], active[key];
      r := FindVersion(vs, id);
      if r.Some? && r.value.action.Deleted? { r := None; }
    }

    method FindVersion(vs: seq<Version>, id: string) returns (r: Option<Version>)
      ensures r == Find(vs, id)
    {
      var i := 0;
      while i < |vs|
        invariant 0 <= i <= |vs|
        invariant Find(vs, id) == Find(vs[i..], id)
      {
        if vs[i].id == id { return Some(vs[i]); }
        i := i + 1;
      }
      return None;
    }

    method AddVersion(key: string, v: Version)
      modifies this, store
      ensures View() == (var s := old(View());
                         Service(Added(s.memory, key, v), Stored(s.rows, v), s.heads[key := v.id]))
    {
      versions := versions[key := (if key in versions then versions[key] else []) + [v]];
      active := active[key := v.id];
      store.AppendSemanticVersion(v, key);
    }

    method PublishMetric(term: string, input: Content, changedBy: string, id: string, at: int) returns (v: Version)
      requires versions.Keys == active.Keys
      modifies this, store
      ensures View() == Serve(fold, old(View()), Call(Publish(term, input, changedBy), id, at))
      ensures Some(v) == Made(fold, old(View()).memory, Call(Publish(term, input, changedBy), id, at))
      ensures Stamped(v, id, changedBy, at, Published, Current(old(View()).memory, KeyOf(fold, term)))
      ensures Stripped(term, v.term) && v.reason == None && IsCleaned(input, v.content)
    {
      StripStrips(term);
      InputIsCleaned(input);
      var previous := GetMetric(term);
      v := Version(id, Strip(term), FromInput(input), changedBy, at,
                   if previous.Some? then Some(previous.value.content.formula) else None, Published, None);
      AddVersion(KeyOf(fold, term), v);
    }

    /** None is the `KeyError` for an unknown target. */
    method RollbackMetric(term: string, target: string, changedBy: string, reason: Option<string>, id: string, at: int)
      returns (r: Option<Version>)
      requires versions.Keys == active.Keys
      modifies this, store
      ensures View() == Serve(fold, old(View()), Call(Rollback(term, target, changedBy, reason), id, at))
      ensures r == Made(fold, old(View()).memory, Call(Rollback(term, target, changedBy, reason), id, at))
      ensures r.Some? ==>
                var (before, v) := (old(View()).memory, r.value);
                && Stamped(v, id, changedBy, at, RolledBack, Current(before, KeyOf(fold, term)))
                && StrippedGiven(reason, v.reason)
    {
      StripGivenStrips(reason);
      var current := GetMetric(term);
      var key := KeyOf(fold, term);
      var found := FindVersion(if key in versions then versions[key] else [], target);
      if found.None? { return None; }
      var v := Version(id, found.value.term, Copied(found.value.content), changedBy, at,
                       if current.Some? then Some(current.value.content.formula) else None, RolledBack,
                       StripGiven(reason));
      AddVersion(key, v);
      return Some(v);
    }

    /** None is the `KeyError` for a term that shows no metric. */
    method DeleteMetric(term: string, changedBy: string, reason: Option<string>, id: string, at: int)
      returns (r: Option<Version>)
      requires versions.Keys == active.Keys
      modifies this, store
      ensures View() == Serve(fold, old(View()), Call(Delete(term, changedBy, reason), id, at))
      ensures r == Made(fold, old(View()).memory, Call(Delete(term, changedBy, reason), id, at))
      ensures r.Some? ==>
                var (before, v) := (old(View()).memory, r.value);
                && Stamped(v, id, changedBy, at, Deleted, Current(before, KeyOf(fold, term)))
                && StrippedGiven(reason, v.reason)
    {
      StripGivenStrips(reason);
      var current := GetMetric(term);
      if current.None? { return None; }
      var v := Version(id, current.value.term, Copied(current.value.content), changedBy, at,
                       Some(current.value.content.formula), Deleted, StripGiven(reason));
      AddVersion(KeyOf(fold, term), v);
      return Some(v);
    }
  }
}

/** The cache as a flat table of live entries, and the invariant that ties the store to it. */
module CacheModel {
  import opened Wrappers
  import opened RedisStore

  const TTL := 300.0

  datatype Timed = Timed(entry: Entry, deadline: real)

  type Table = map<Key, Timed>

  function KeyOf(e: Entry): Key { EntryKey(e.scope, e.owner, e.intent) }

  predicate IsLive(s: Store, k: Key, now: real) {
    k.EntryKey? && k in s.values && k in s.expires && now < s.expires[k]
  }

  /** The entries that a reader may still see. */
  function Live(s: Store, now: real): Table {
    map k | k in s.values && IsLive(s, k, now) :: Timed(s.values[k], s.expires[k])
  }

  /** What time leaves of a table. */
  function Surviving(t: Table, now: real): Table {
    map k | k in t && now < t[k].deadline :: t[k]
  }

  predicate IndexedIn(s: Store, k: Key, index: Key) {
    && index in s.sets && k in s.sets[index]
    && index in s.expires && k in s.expires && s.expires[k] <= s.expires[index]
  }

  predicate Indexed(s: Store, k: Key)
    requires k.EntryKey?
  {
    IndexedIn(s, k, ScopeKey(k.scope)) && IndexedIn(s, k, UserKey(k.owner))
  }

  predicate ValuesKeyed(s: Store) {
    forall k :: k in s.values ==> k == KeyOf(s.values[k]) && k in s.expires
  }

  /** An index holds entry keys of its own scope or owner only. */
  predicate IndexesTyped(s: Store) {
    forall index :: index in s.sets ==>
      && !index.EntryKey?
      && forall k :: k in s.sets[index] ==>
           && k.EntryKey?
           && (index.ScopeKey? ==> k.scope == index.scope)
           && (index.UserKey? ==> k.owner == index.user)
  }

  predicate ExpiriesBounded(s: Store, now: real) {
    forall k :: k in s.expires ==> s.expires[k] <= now + TTL
  }

  predicate WellFormed(s: Store, now: real) { ValuesKeyed(s) && IndexesTyped(s) && ExpiriesBounded(s, now) }

  /** Every live entry, but for those being written or removed, is in the index of its scope and in
      the index of its owner, and neither index expires before the entry. */
  ghost predicate AllIndexed(s: Store, now: real, pending: set<Key>) {
    forall k :: IsLive(s, k, now) && k !in pending ==> Indexed(s, k)
  }

  ghost predicate Consistent(s: Store, now: real, pending: set<Key>) {
    WellFormed(s, now) && AllIndexed(s, now, pending)
  }

  /** `r` shows a reader what `s` shows. */
  ghost predicate SameLive(s: Store, r: Store, now: real) {
    forall k :: IsLive(s, k, now) || IsLive(r, k, now) ==>
      && IsLive(s, k, now) && IsLive(r, k, now)
      && s.values[k] == r.values[k] && s.expires[k] == r.expires[k]
  }

  /** Every entry of the table stands under the key of its own scope, owner and intent. */
  predicate Keyed(t: Table) {
    forall k :: k in t ==> k == EntryKey(t[k].entry.scope, t[k].entry.owner, t[k].entry.intent)
  }

  lemma LiveKeyed(s: Store, now: real)
    requires ValuesKeyed(s)
    ensures Keyed(Live(s, now))
  {
    forall k | k in Live(s, now)
      ensures k == EntryKey(s.values[k].scope, s.values[k].owner, s.values[k].intent)
    {
      assert k == KeyOf(s.values[k]);
    }
  }

  lemma SameLiveTable(s: Store, r: Store, now: real)
    requires SameLive(s, r, now)
    ensures Live(s, now) == Live(r, now)
  {
    forall k
      ensures k in Live(s, now) <==> k in Live(r, now)
      ensures k in Live(s, now) ==> Live(s, now)[k] == Live(r, now)[k]
    {
      assert IsLive(s, k, now) <==> IsLive(r, k, now);
    }
  }

  // ---- Elementary steps -----------------------------------------------------------------

  lemma TimePasses(s: Store, now: real, later: real, pending: set<Key>)
    requires Consistent(s, now, pending) && now <= later
    ensures Consistent(s, later, pending)
    ensures Live(s, later) == Surviving(Live(s, now), later)
  {
    assert forall k :: IsLive(s, k, later) ==> IsLive(s, k, now);
  }

  lemma SurvivingTwice(t: Table, now: real, later: real)
    requires now <= later
    ensures Surviving(Surviving(t, now), later) == Surviving(t, later)
  {
  }

  lemma DeleteWellFormed(s: Store, key: Key, now: real)
    requires WellFormed(s, now)
    ensures WellFormed(Delete(s, key), now)
  {
  }

  /** Deleting a key leaves alone the indexing of every entry that does not depend on it. */
  lemma DeleteKeepsIndexed(s: Store, key: Key, k: Key)
    requires k.EntryKey? && Indexed(s, k) && key != k && key != ScopeKey(k.scope) && key != UserKey(k.owner)
    ensures Indexed(Delete(s, key), k)
  {
  }

  lemma DeleteLive(s: Store, key: Key, now: real)
    ensures forall k :: IsLive(Delete(s, key), k, now) <==> IsLive(s, k, now) && k != key
  {
  }

  /** Dropping expired keys when they are touched never hides a live entry. */
  lemma PurgeKeepsLive(s: Store, key: Key, now: real, pending: set<Key>)
    requires Consistent(s, now, pending)
    ensures WellFormed(Purge(s, key, now), now)
    ensures SameLive(s, Purge(s, key, now), now)
    ensures forall k :: IsLive(s, k, now) && k.EntryKey? && Indexed(s, k) ==> Indexed(Purge(s, key, now), k)
    ensures Consistent(Purge(s, key, now), now, pending)
    ensures key in Purge(s, key, now).values <==> IsLive(s, key, now)
  {
    if key in s.expires && s.expires[key] <= now {
      DeleteWellFormed(s, key, now);
      DeleteLive(s, key, now);
      forall k | IsLive(s, k, now) && k.EntryKey? && Indexed(s, k)
        ensures Indexed(Purge(s, key, now), k)
      {
        DeleteKeepsIndexed(s, key, k);
      }
    }
  }

  /** An index without one of its members, after the index itself was purged. */
  lemma RemoveMemberKeepsLive(s: Store, index: Key, member: Key, now: real, pending: set<Key>)
    requires Consistent(s, now, pending) && !index.EntryKey?
    requires member in pending || !IsLive(s, member, now)
    ensures Consistent(RemoveMember(s, index, member, now), now, pending)
    ensures SameLive(s, RemoveMember(s, index, member, now), now)
  {
    PurgeKeepsLive(s, index, now, pending);
    RemoveFromIndex(Purge(s, index, now), index, member, now, pending);
  }

  lemma DiscardWellFormed(s: Store, index: Key, member: Key, now: real)
    requires WellFormed(s, now) && !index.EntryKey?
    ensures WellFormed(Discard(s, index, member), now)
    ensures SameLive(s, Discard(s, index, member), now)
  {
  }

  lemma RemoveFromIndex(s: Store, index: Key, member: Key, now: real, pending: set<Key>)
    requires Consistent(s, now, pending) && !index.EntryKey?
    requires member in pending || !IsLive(s, member, now)
    ensures Consistent(Discard(s, index, member), now, pending)
    ensures SameLive(s, Discard(s, index, member), now)
  {
    var r := Discard(s, index, member);
    DiscardWellFormed(s, index, member, now);
    forall k | IsLive(s, k, now) && k !in pending
      ensures Indexed(r, k)
    {
      DiscardIndexed(s, index, member, k, ScopeKey(k.scope));
      DiscardIndexed(s, index, member, k, UserKey(k.owner));
    }
  }

  lemma DiscardIndexed(s: Store, index: Key, member: Key, k: Key, other: Key)
    requires IndexedIn(s, k, other) && k != member && k.EntryKey? && !other.EntryKey? && !index.EntryKey?
    ensures IndexedIn(Discard(s, index, member), k, other)
  {
    if index == other && index in s.sets { assert k in s.sets[index] - {member}; }
  }

  lemma DeleteDropsOne(s: Store, key: Key, now: real, pending: set<Key>)
    requires Consistent(s, now, pending) && key.EntryKey?
    ensures Consistent(Delete(s, key), now, pending - {key})
    ensures Live(Delete(s, key), now) == Live(s, now) - {key}
  {
    var r := Delete(s, key);
    DeleteWellFormed(s, key, now);
    DeleteLive(s, key, now);
    forall k | IsLive(r, k, now) && k !in pending
      ensures Indexed(r, k)
    {
      DeleteKeepsIndexed(s, key, k);
    }
  }

  lemma DeleteUserIndex(s: Store, user: string, now: real)
    requires Consistent(s, now, {})
    requires forall k :: IsLive(s, k, now) ==> k.owner != user
    ensures Consistent(Delete(s, UserKey(user)), now, {})
    ensures SameLive(s, Delete(s, UserKey(user)), now)
  {
    var key := UserKey(user);
    DeleteWellFormed(s, key, now);
    DeleteLive(s, key, now);
    forall k | IsLive(s, k, now)
      ensures Indexed(Delete(s, key), k)
    {
      DeleteKeepsIndexed(s, key, k);
    }
  }

  // ---- Storing an entry -------------------------------------------------------------------

  function Put(s: Store, k: Key, e: Entry, deadline: real): Store {
    s.(values := s.values[k := e], expires := s.expires[k := deadline])
  }

  lemma PutWellFormed(s: Store, e: Entry, now: real)
    requires WellFormed(s, now)
    ensures WellFormed(Put(s, KeyOf(e), e, now + TTL), now)
  {
  }

  lemma PutLive(s: Store, k: Key, e: Entry, deadline: real, now: real)
    requires k.EntryKey? && now < deadline
    ensures Live(Put(s, k, e, deadline), now) == Live(s, now)[k := Timed(e, deadline)]
    ensures forall m :: m != k ==> (IsLive(Put(s, k, e, deadline), m, now) <==> IsLive(s, m, now))
  {
    var r := Put(s, k, e, deadline);
    assert IsLive(r, k, now);
    assert forall m :: m != k ==> (IsLive(r, m, now) <==> IsLive(s, m, now));
  }

  lemma PutKeeps(s: Store, e: Entry, deadline: real, now: real)
    requires Consistent(s, now, {}) && deadline == now + TTL
    ensures var k, r := KeyOf(e), Put(s, KeyOf(e), e, deadline);
            Consistent(r, now, {k}) && Live(r, now) == Live(s, now)[k := Timed(e, deadline)]
  {
    var k, r := KeyOf(e), Put(s, KeyOf(e), e, deadline);
    PutWellFormed(s, e, now);
    PutLive(s, k, e, deadline, now);
    forall m | IsLive(r, m, now) && m != k
      ensures Indexed(r, m)
    {
      assert IsLive(s, m, now) && Indexed(s, m);
    }
  }

  lemma PutEntry(s: Store, e: Entry, t1: real, t2: real)
    requires Consistent(s, t1, {}) && t1 <= t2
    ensures var k, r := KeyOf(e), Expire(SetValue(s, KeyOf(e), e, t1), KeyOf(e), TTL, t2);
            && Consistent(r, t2, {k}) && k in r.values && k in r.expires && r.expires[k] == t2 + TTL
            && Live(r, t2) == Surviving(Live(s, t1), t2)[k := Timed(e, t2 + TTL)]
  {
    var k := KeyOf(e);
    var p := Purge(s, k, t1);
    PurgeKeepsLive(s, k, t1, {});
    SameLiveTable(s, p, t1);
    TimePasses(p, t1, t2, {});
    PutKeeps(p, e, t2 + TTL, t2);
    assert Expire(SetValue(s, k, e, t1), k, TTL, t2) == Put(p, k, e, t2 + TTL);
  }

  function Enter(s: Store, k: Key, index: Key, deadline: real): Store {
    s.(sets := s.sets[index := Members(s, index) + {k}], expires := s.expires[index := deadline])
  }

  lemma EnterWellFormed(s: Store, k: Key, index: Key, now: real)
    requires WellFormed(s, now)
    requires k.EntryKey? && (index == ScopeKey(k.scope) || index == UserKey(k.owner))
    ensures WellFormed(Enter(s, k, index, now + TTL), now)
  {
  }

  lemma EnterKeeps(s: Store, k: Key, index: Key, now: real)
    requires Consistent(s, now, {k})
    requires k.EntryKey? && (index == ScopeKey(k.scope) || index == UserKey(k.owner))
    requires k in s.expires
    ensures var r := Enter(s, k, index, now + TTL);
            && Consistent(r, now, {k}) && SameLive(s, r, now) && IndexedIn(r, k, index)
            && forall other :: other != index && IndexedIn(s, k, other) ==> IndexedIn(r, k, other)
  {
    var r := Enter(s, k, index, now + TTL);
    EnterWellFormed(s, k, index, now);
    forall m | IsLive(s, m, now) && m != k
      ensures Indexed(r, m)
    {
      EnterIndexed(s, k, index, now, m, ScopeKey(m.scope));
      EnterIndexed(s, k, index, now, m, UserKey(m.owner));
    }
  }

  lemma EnterIndexed(s: Store, k: Key, index: Key, now: real, m: Key, other: Key)
    requires ExpiriesBounded(s, now) && m.EntryKey? && !index.EntryKey? && !other.EntryKey?
    requires IndexedIn(s, m, other)
    ensures IndexedIn(Enter(s, k, index, now + TTL), m, other)
  {
  }

  lemma IndexEntry(s: Store, k: Key, index: Key, t1: real, t2: real)
    requires Consistent(s, t1, {k}) && t1 <= t2
    requires k.EntryKey? && (index == ScopeKey(k.scope) || index == UserKey(k.owner))
    requires k in s.values && k in s.expires
    ensures var r := Expire(AddMember(s, index, k, t1), index, TTL, t2);
            && Consistent(r, t2, {k}) && IndexedIn(r, k, index)
            && Live(r, t2) == Surviving(Live(s, t1), t2)
            && k in r.values && k in r.expires
            && forall other :: other != index && IndexedIn(s, k, other) ==> IndexedIn(r, k, other)
  {
    var p := Purge(s, index, t1);
    assert forall other :: other != index && IndexedIn(s, k, other) ==> IndexedIn(p, k, other);
    PurgeKeepsLive(s, index, t1, {k});
    SameLiveTable(s, p, t1);
    TimePasses(p, t1, t2, {k});
    EnterKeeps(p, k, index, t2);
    SameLiveTable(p, Enter(p, k, index, t2 + TTL), t2);
    assert Expire(AddMember(s, index, k, t1), index, TTL, t2) == Enter(p, k, index, t2 + TTL);
  }

  // ---- Removing an entry ------------------------------------------------------------------

  /** An entry that is about to be deleted is taken out of an index. */
  lemma Unlink(s: Store, index: Key, k: Key, start: real, t: real)
    requires Consistent(s, start, {k}) && start <= t && k.EntryKey? && !index.EntryKey?
    ensures var r := RemoveMember(s, index, k, t);
            && Consistent(r, t, {k})
            && Live(r, t) == Surviving(Live(s, start), t)
            && (k in r.values <==> k in s.values)
  {
    TimePasses(s, start, t, {k});
    RemoveMemberKeepsLive(s, index, k, t, {k});
    SameLiveTable(s, RemoveMember(s, index, k, t), t);
  }

  lemma DeleteUnlinked(s: Store, k: Key, now: real)
    requires Consistent(s, now, {k}) && k.EntryKey?
    ensures Consistent(Delete(s, k), now, {})
    ensures Live(Delete(s, k), now) == Live(s, now) - {k}
    ensures Has(s, k) <==> k in s.values
  {
    DeleteDropsOne(s, k, now, {k});
  }

  /** Letting time pass step by step is letting it pass at once. */
  lemma TimePassesTogether(t: Table, k: Key, v: Timed, t1: real, t2: real, t3: real, t4: real, t5: real, t6: real)
    requires t1 <= t2 <= t3 <= t4 <= t5 <= t6
    ensures Surviving(Surviving(Surviving(Surviving(Surviving(Surviving(t, t1), t2)[k := v], t3), t4), t5), t6)
         == Surviving(t[k := v], t6)
  {
  }

  /** The entry and its expiry, written at `t1` and `t2`. */
  function WriteEntry(s: Store, e: Entry, t1: real, t2: real): Store {
    Expire(SetValue(s, KeyOf(e), e, t1), KeyOf(e), TTL, t2)
  }

  function WriteIndex(s: Store, k: Key, index: Key, t1: real, t2: real): Store {
    Expire(AddMember(s, index, k, t1), index, TTL, t2)
  }

  /** The six store calls of one `store`, at six readings of the clock. */
  function WriteAll(s: Store, e: Entry, t1: real, t2: real, t3: real, t4: real, t5: real, t6: real): Store {
    var s2 := WriteEntry(s, e, t1, t2);
    var s4 := WriteIndex(s2, KeyOf(e), ScopeKey(e.scope), t3, t4);
    WriteIndex(s4, KeyOf(e), UserKey(e.owner), t5, t6)
  }

  lemma WriteAllStores(s: Store, e: Entry, start: real, t1: real, t2: real, t3: real, t4: real, t5: real, t6: real)
    requires Consistent(s, start, {}) && start <= t1 <= t2 <= t3 <= t4 <= t5 <= t6
    ensures Consistent(WriteAll(s, e, t1, t2, t3, t4, t5, t6), t6, {})
    ensures Live(WriteAll(s, e, t1, t2, t3, t4, t5, t6), t6)
         == Surviving(Live(s, start)[KeyOf(e) := Timed(e, t2 + TTL)], t6)
  {
    var k := KeyOf(e);
    TimePasses(s, start, t1, {});
    PutEntry(s, e, t1, t2);
    var s2 := WriteEntry(s, e, t1, t2);
    TimePasses(s2, t2, t3, {k});
    IndexEntry(s2, k, ScopeKey(e.scope), t3, t4);
    var s4 := WriteIndex(s2, k, ScopeKey(e.scope), t3, t4);
    TimePasses(s4, t4, t5, {k});
    IndexEntry(s4, k, UserKey(e.owner), t5, t6);
    var s6 := WriteIndex(s4, k, UserKey(e.owner), t5, t6);
    assert Indexed(s6, k);
    TimePassesTogether(Live(s, start), k, Timed(e, t2 + TTL), t1, t2, t3, t4, t5, t6);
  }

  // ---- The table's own operations -----------------------------------------------------------

  datatype Operation =
    | StoreEntry(entry: Entry)
    | Find(scope: string, intent: string)
    | InvalidateUser(user: string)
    | InvalidateQuery(scope: string, intent: string)
    | Wait

  function OfOwner(t: Table, user: string): Table {
    map k | k in t && k.EntryKey? && k.owner == user :: t[k]
  }

  function OfQuery(t: Table, scope: string, intent: string): Table {
    map k | k in t && k.EntryKey? && k.scope == scope && k.intent == intent :: t[k]
  }

  function Without(t: Table, part: Table): Table { t - part.Keys }

  /** One operation on the flat table, which runs from time `before` to time `after`. */
  ghost predicate Step(op: Operation, t: Table, before: real, t': Table, after: real) {
    && before <= after
    && match op
       case StoreEntry(e) =>
         exists deadline | before + TTL <= deadline <= after + TTL ::
           t' == Surviving(t[KeyOf(e) := Timed(e, deadline)], after)
       case Find(_, _) => t' == Surviving(t, after)
       case InvalidateUser(user) => t' == Surviving(Without(t, OfOwner(t, user)), after)
       case InvalidateQuery(scope, intent) => t' == Surviving(Without(t, OfQuery(t, scope, intent)), after)
       case Wait => t' == Surviving(t, after)
  }
}

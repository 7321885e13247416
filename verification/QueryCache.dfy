/** The query result cache: every method refines one operation on the flat table of live entries. */
module QueryCache {
  import opened Wrappers
  import opened RedisStore
  import opened CacheModel

  const SIMILARITY_THRESHOLD := 0.85

  datatype Hit = Hit(entry: Entry, similarity: real, key: Key)

  ghost function Total(counts: map<string, nat>): nat
  {
    if counts == map[] then 0
    else
      var reason :| reason in counts;
      counts[reason] + Total(counts - {reason})
  }

  lemma TotalOfNone()
    ensures Total(map[]) == 0
  {
  }

  lemma {:induction false} TotalWithout(counts: map<string, nat>, reason: string)
    requires reason in counts
    ensures Total(counts) == counts[reason] + Total(counts - {reason})
    decreases counts
  {
    var first :| first in counts && Total(counts) == counts[first] + Total(counts - {first});
    if first != reason {
      TotalWithout(counts - {first}, reason);
      TotalWithout(counts - {reason}, first);
      assert counts - {first} - {reason} == counts - {reason} - {first};
    }
  }

  /** Adding to one count adds to the sum. */
  lemma TotalAfterAdding(counts: map<string, nat>, reason: string, n: nat)
    ensures var before := if reason in counts then counts[reason] else 0;
            Total(counts[reason := before + n]) == Total(counts) + n
  {
    var before := if reason in counts then counts[reason] else 0;
    var after := counts[reason := before + n];
    TotalWithout(after, reason);
    if reason in counts {
      TotalWithout(counts, reason);
      assert after - {reason} == counts - {reason};
    } else {
      assert after - {reason} == counts;
    }
  }

  /** What a lookup may answer once it has looked at everything outside `todo`. The table may lose
      entries to time while the lookup runs: an answer was live when the lookup started, and beats
      every entry that is still live. */
  ghost predicate BestMatch(
      similarity: (string, string) -> real, scope: string, intent: string, before: Table, now: Table,
      todo: set<Key>, answer: Option<Hit>)
  {
    && (answer.Some? ==> IsMatch(similarity, scope, intent, before, answer.value))
    && forall k :: k in now && k.EntryKey? && k.scope == scope && k !in todo ==>
         var s := similarity(intent, now[k].entry.intent);
         if answer.None? then s < SIMILARITY_THRESHOLD else s <= answer.value.similarity
  }

  ghost predicate IsMatch(
      similarity: (string, string) -> real, scope: string, intent: string, before: Table, hit: Hit)
  {
    && hit.key in before && hit.key.EntryKey? && hit.key.scope == scope
    && before[hit.key].entry == hit.entry
    && hit.similarity == similarity(intent, hit.entry.intent) >= SIMILARITY_THRESHOLD
  }

  /** Time only takes entries away, so an answer stays an answer. */
  lemma BestMatchLater(
      similarity: (string, string) -> real, scope: string, intent: string, before: Table, now: Table,
      later: Table, todo: set<Key>, answer: Option<Hit>)
    requires BestMatch(similarity, scope, intent, before, now, todo, answer)
    requires forall k :: k in later ==> k in now && later[k] == now[k]
    ensures BestMatch(similarity, scope, intent, before, later, todo, answer)
  {
  }

  /** A member without a live entry need not be looked at. */
  lemma BestMatchGone(
      similarity: (string, string) -> real, scope: string, intent: string, before: Table, now: Table,
      later: Table, todo: set<Key>, answer: Option<Hit>, key: Key)
    requires BestMatch(similarity, scope, intent, before, now, todo, answer) && key !in now
    requires forall k :: k in later ==> k in now && later[k] == now[k]
    ensures BestMatch(similarity, scope, intent, before, later, todo - {key}, answer)
  {
  }

  /** Looking at one more live entry of the scope. */
  lemma BestMatchWith(
      similarity: (string, string) -> real, scope: string, intent: string, before: Table, now: Table,
      todo: set<Key>, best: Option<Hit>, key: Key, answer: Option<Hit>)
    requires BestMatch(similarity, scope, intent, before, now, todo, best)
    requires key in now && key.EntryKey? && key.scope == scope && key in before && before[key] == now[key]
    requires var sim := similarity(intent, now[key].entry.intent);
             answer == if sim >= SIMILARITY_THRESHOLD && (best.None? || sim > best.value.similarity)
                       then Some(Hit(now[key].entry, sim, key)) else best
    ensures BestMatch(similarity, scope, intent, before, now, todo - {key}, answer)
  {
  }

  lemma SurvivingLater(t: Table, t1: Table, t2: Table, later: real)
    requires t2 == Surviving(t1, later) && exists now :: now <= later && t1 == Surviving(t, now)
    ensures t2 == Surviving(t, later)
    ensures forall k :: k in t2 ==> k in t1 && t2[k] == t1[k]
  {
  }

  lemma WithoutMissing(t: Table, key: Key)
    requires key !in t
    ensures t - {key} == t
  {
  }

  lemma DeleteNothing(s: Store, key: Key, now: real)
    requires Consistent(s, now, {}) && key.EntryKey? && key !in s.values
    ensures Consistent(Delete(s, key), now, {}) && Live(Delete(s, key), now) == Live(s, now)
  {
    DeleteUnlinked(s, key, now);
    WithoutMissing(Live(s, now), key);
  }

  /** What a reader finds: nothing of the scope below 0.85 is an answer, and no live entry of the scope is better. */
  ghost predicate IsBest(
      similarity: (string, string) -> real, scope: string, intent: string, before: Table, now: Table,
      answer: Option<Hit>)
  {
    && (answer.Some? ==>
          var e := answer.value.entry;
          && e.scope == scope && answer.value.similarity == similarity(intent, e.intent) >= 0.85
          && (exists k :: k in before && before[k].entry == e))
    && forall k :: k in now && now[k].entry.scope == scope ==>
         var s := similarity(intent, now[k].entry.intent);
         if answer.None? then s < 0.85 else s <= answer.value.similarity
  }

  lemma BestMatchIsBest(
      similarity: (string, string) -> real, scope: string, intent: string, before: Table, now: Table,
      answer: Option<Hit>)
    requires Keyed(before) && Keyed(now) && BestMatch(similarity, scope, intent, before, now, {}, answer)
    ensures IsBest(similarity, scope, intent, before, now, answer)
  {
    if answer.Some? { assert answer.value.key in before; }
  }

  /** The entries of the user are gone, and all others are left to time. */
  ghost predicate OnlyUserGone(before: Table, now: Table, clock: real, user: string) {
    && (forall k :: k in now ==> k in before && now[k] == before[k] && now[k].entry.owner != user)
    && (forall k :: k in before && before[k].entry.owner != user && clock < before[k].deadline ==> k in now)
  }

  /** The entries of the scope with this intent are gone, and all others are left to time. */
  ghost predicate OnlyQueryGone(before: Table, now: Table, clock: real, scope: string, intent: string) {
    && (forall k :: k in now ==>
          k in before && now[k] == before[k] && (now[k].entry.scope != scope || now[k].entry.intent != intent))
    && (forall k :: k in before && (before[k].entry.scope != scope || before[k].entry.intent != intent) ==>
          (clock < before[k].deadline ==> k in now))
  }

  lemma UserGone(before: Table, now: Table, clock: real, user: string)
    requires Keyed(before) && now == Surviving(Without(before, OfOwner(before, user)), clock)
    ensures OnlyUserGone(before, now, clock, user)
  {
  }

  lemma QueryGone(before: Table, now: Table, clock: real, scope: string, intent: string)
    requires Keyed(before) && now == Surviving(Without(before, OfQuery(before, scope, intent)), clock)
    ensures OnlyQueryGone(before, now, clock, scope, intent)
  {
  }

  /** The table after a store that began at `start`: the entry lasts for five minutes, all others are left to time. */
  ghost predicate OnlyStored(before: Table, now: Table, start: real, clock: real, entry: Entry) {
    var key := EntryKey(entry.scope, entry.owner, entry.intent);
    && (forall k :: k != key ==> (k in now <==> k in before && clock < before[k].deadline))
    && (forall k :: k != key && k in now ==> now[k] == before[k])
    && (clock < start + 300.0 ==> key in now)
    && (key in now ==> now[key].entry == entry && start + 300.0 <= now[key].deadline <= clock + 300.0)
  }

  lemma StepOnlyStores(before: Table, now: Table, start: real, clock: real, entry: Entry)
    requires Step(StoreEntry(entry), before, start, now, clock)
    ensures OnlyStored(before, now, start, clock, entry)
  {
    var deadline :| start + TTL <= deadline <= clock + TTL
      && now == Surviving(before[KeyOf(entry) := Timed(entry, deadline)], clock);
  }

  /** `n` more are counted under this reason, and every other reason keeps its count. */
  ghost predicate Filed(before: map<string, nat>, after: map<string, nat>, reason: string, n: nat) {
    && reason in after && after[reason] == (if reason in before then before[reason] else 0) + n
    && forall other :: other != reason ==>
         && (other in after <==> other in before)
         && (other in before ==> after[other] == before[other])
  }

  class QueryResultCache {
    const redis: InMemoryRedis
    const similarity: (string, string) -> real
    var hits: nat
    var misses: nat
    var forceRefreshes: nat
    var invalidationsTotal: nat
    var invalidationsByReason: map<string, nat>

    ghost function Table(): Table
      reads redis, redis.clock
    {
      Live(redis.State(), redis.clock.now)
    }

    ghost predicate Sound()
      reads redis, redis.clock
    {
      Consistent(redis.State(), redis.clock.now, {})
    }

    ghost predicate Valid()
      reads this, redis, redis.clock
    {
      Sound() && invalidationsTotal == Total(invalidationsByReason)
    }

    constructor (redis: InMemoryRedis, similarity: (string, string) -> real)
      requires redis.State() == Store(map[], map[], map[])
      ensures Valid() && Table() == map[]
      ensures hits == misses == forceRefreshes == invalidationsTotal == 0 && invalidationsByReason == map[]
      ensures this.redis == redis && this.similarity == similarity
    {
      this.redis := redis;
      this.similarity := similarity;
      hits, misses, forceRefreshes, invalidationsTotal := 0, 0, 0, 0;
      invalidationsByReason := map[];
      new;
      TotalOfNone();
    }

    method StoreResult(entry: Entry) returns (key: Key)
      requires Valid()
      modifies redis, redis.clock
      ensures Valid() && key == KeyOf(entry)
      ensures Step(StoreEntry(entry), old(Table()), old(redis.clock.now), Table(), redis.clock.now)
      ensures OnlyStored(old(Table()), Table(), old(redis.clock.now), redis.clock.now, entry)
    {
      ghost var s, start := redis.State(), redis.clock.now;
      key := KeyOf(entry);
      var scopeIndex, userIndex := ScopeKey(entry.scope), UserKey(entry.owner);
      ghost var t1 := redis.Set(key, entry);
      var _, t2 := redis.ExpireKey(key, TTL);
      ghost var t3 := redis.SAdd(scopeIndex, key);
      var _, t4 := redis.ExpireKey(scopeIndex, TTL);
      ghost var t5 := redis.SAdd(userIndex, key);
      var _, t6 := redis.ExpireKey(userIndex, TTL);
      WriteAllStores(s, entry, start, t1, t2, t3, t4, t5, t6);
      assert redis.State() == WriteAll(s, entry, t1, t2, t3, t4, t5, t6);
      StepOnlyStores(Live(s, start), Table(), start, redis.clock.now, entry);
    }

    /** `_load_entry`: an entry is read exactly when it is live at the time of reading. */
    method LoadEntry(key: Key) returns (entry: Option<Entry>)
      requires Sound()
      modifies redis, redis.clock
      ensures Sound() && old(redis.clock.now) <= redis.clock.now
      ensures Table() == Surviving(old(Table()), redis.clock.now)
      ensures entry == if key in Table() then Some(Table()[key].entry) else None
      ensures entry.Some? <==> key in redis.State().values
    {
      ghost var s, start := redis.State(), redis.clock.now;
      ghost var t: real;
      entry, t := redis.Get(key);
      TimePasses(s, start, t, {});
      PurgeKeepsLive(s, key, t, {});
      SameLiveTable(s, redis.State(), t);
    }

    method ReadIndex(index: Key) returns (members: set<Key>)
      requires Sound()
      modifies redis, redis.clock
      ensures Sound() && old(redis.clock.now) <= redis.clock.now
      ensures Table() == Surviving(old(Table()), redis.clock.now)
      ensures index.ScopeKey? ==>
                && (forall k :: k in members ==> k.EntryKey? && k.scope == index.scope)
                && forall k :: k in Table() && k.EntryKey? && k.scope == index.scope ==> k in members
      ensures index.UserKey? ==>
                && (forall k :: k in members ==> k.EntryKey? && k.owner == index.user)
                && forall k :: k in Table() && k.EntryKey? && k.owner == index.user ==> k in members
    {
      ghost var s, start := redis.State(), redis.clock.now;
      ghost var t: real;
      members, t := redis.SMembers(index);
      TimePasses(s, start, t, {});
      PurgeKeepsLive(s, index, t, {});
      SameLiveTable(s, redis.State(), t);
      assert forall k :: k in Table() ==> Indexed(redis.State(), k);
    }

    /** Takes a key that is no longer live out of an index. */
    method ForgetMember(index: Key, member: Key)
      requires Sound() && !index.EntryKey? && member !in Table()
      modifies redis, redis.clock
      ensures Sound() && old(redis.clock.now) <= redis.clock.now
      ensures Table() == Surviving(old(Table()), redis.clock.now)
    {
      ghost var s, start := redis.State(), redis.clock.now;
      ghost var t := redis.SRem(index, member);
      TimePasses(s, start, t, {});
      assert !IsLive(s, member, t);
      RemoveMemberKeepsLive(s, index, member, t, {});
      SameLiveTable(s, redis.State(), t);
    }

    /** One turn of the loop of `find_best_match`. */
    method Consider(scope: string, intent: string, key: Key, best: Option<Hit>,
                    ghost before: Table, ghost todo: set<Key>)
      returns (answer: Option<Hit>)
      requires Sound() && key.EntryKey? && key.scope == scope
      requires BestMatch(similarity, scope, intent, before, Table(), todo, best)
      requires key in Table() ==> key in before && before[key] == Table()[key]
      modifies redis, redis.clock
      ensures Sound() && old(redis.clock.now) <= redis.clock.now
      ensures Table() == Surviving(old(Table()), redis.clock.now)
      ensures BestMatch(similarity, scope, intent, before, Table(), todo - {key}, answer)
    {
      ghost var t0 := Table();
      var entry := LoadEntry(key);
      ghost var t1 := Table();
      BestMatchLater(similarity, scope, intent, before, t0, t1, todo, best);
      answer := best;
      if entry.None? {
        ForgetMember(ScopeKey(scope), key);
        SurvivingLater(t0, t1, Table(), redis.clock.now);
        BestMatchGone(similarity, scope, intent, before, t1, Table(), todo, best, key);
      } else {
        var sim := similarity(intent, entry.value.intent);
        if sim >= SIMILARITY_THRESHOLD && (best.None? || sim > best.value.similarity) {
          answer := Some(Hit(entry.value, sim, key));
        }
        BestMatchWith(similarity, scope, intent, before, Table(), todo, best, key, answer);
      }
    }

    method FindBestMatch(scope: string, intent: string) returns (answer: Option<Hit>)
      requires Valid()
      modifies redis, redis.clock, this`hits, this`misses
      ensures Valid()
      ensures Step(Find(scope, intent), old(Table()), old(redis.clock.now), Table(), redis.clock.now)
      ensures BestMatch(similarity, scope, intent, old(Table()), Table(), {}, answer)
      ensures IsBest(similarity, scope, intent, old(Table()), Table(), answer)
      ensures hits == old(hits) + (if answer.Some? then 1 else 0)
      ensures misses == old(misses) + (if answer.Some? then 0 else 1)
    {
      ghost var before, start := Table(), redis.clock.now;
      LiveKeyed(redis.State(), start);
      answer := None;
      var todo := ReadIndex(ScopeKey(scope));
      while todo != {}
        invariant Sound() && start <= redis.clock.now
        invariant Table() == Surviving(before, redis.clock.now)
        invariant forall k :: k in todo ==> k.EntryKey? && k.scope == scope
        invariant BestMatch(similarity, scope, intent, before, Table(), todo, answer)
        invariant hits == old(hits) && misses == old(misses)
        decreases todo
      {
        var key :| key in todo;
        ghost var now := redis.clock.now;
        answer := Consider(scope, intent, key, answer, before, todo);
        SurvivingTwice(before, now, redis.clock.now);
        todo := todo - {key};
      }
      LiveKeyed(redis.State(), redis.clock.now);
      BestMatchIsBest(similarity, scope, intent, before, Table(), answer);
      if answer.None? { misses := misses + 1; } else { hits := hits + 1; }
    }

    /** Takes a key out of an index and deletes it. */
    method UnlinkOne(index: Key, key: Key) returns (deleted: nat)
      requires Sound() && key.EntryKey? && !index.EntryKey?
      modifies redis, redis.clock
      ensures Sound() && old(redis.clock.now) <= redis.clock.now
      ensures Table() == Surviving(old(Table()), redis.clock.now) - {key}
      ensures deleted == if key in old(redis.State()).values then 1 else 0
    {
      ghost var s, start := redis.State(), redis.clock.now;
      ghost var t := redis.SRem(index, key);
      Unlink(s, index, key, start, t);
      DeleteUnlinked(redis.State(), key, t);
      deleted := redis.DeleteKey(key);
    }

    method UnlinkBoth(first: Key, second: Key, key: Key) returns (deleted: nat)
      requires Sound() && key.EntryKey? && !first.EntryKey? && !second.EntryKey?
      modifies redis, redis.clock
      ensures Sound() && old(redis.clock.now) <= redis.clock.now
      ensures Table() == Surviving(old(Table()), redis.clock.now) - {key}
      ensures deleted == if key in old(redis.State()).values then 1 else 0
    {
      ghost var s, start := redis.State(), redis.clock.now;
      ghost var t1 := redis.SRem(first, key);
      Unlink(s, first, key, start, t1);
      ghost var s1 := redis.State();
      ghost var t2 := redis.SRem(second, key);
      Unlink(s1, second, key, t1, t2);
      SurvivingTwice(Live(s, start), t1, t2);
      DeleteUnlinked(redis.State(), key, t2);
      deleted := redis.DeleteKey(key);
    }

    /** Deleting a key that is not there. */
    method DeleteAbsent(key: Key) returns (deleted: nat)
      requires Sound() && key.EntryKey? && key !in redis.State().values
      modifies redis
      ensures Sound() && Table() == old(Table()) && deleted == 0
    {
      DeleteNothing(redis.State(), key, redis.clock.now);
      deleted := redis.DeleteKey(key);
    }

    /** One turn of the loop of `invalidate_user_entries`. */
    method RemoveOwned(key: Key) returns (deleted: nat)
      requires Sound() && key.EntryKey?
      modifies redis, redis.clock
      ensures Sound() && old(redis.clock.now) <= redis.clock.now
      ensures Table() == Surviving(old(Table()), redis.clock.now) - {key}
      ensures deleted <= 1
      ensures deleted == 1 ==> key in old(Table())
      ensures deleted == 0 ==> key !in Surviving(old(Table()), redis.clock.now)
    {
      ghost var t0 := Table();
      var entry := LoadEntry(key);
      ghost var now := redis.clock.now;
      if entry.Some? {
        deleted := UnlinkOne(ScopeKey(entry.value.scope), key);
        SurvivingTwice(t0, now, redis.clock.now);
      } else {
        WithoutMissing(Table(), key);
        deleted := DeleteAbsent(key);
      }
    }

    /** The index of a user without live entries is deleted. */
    method DropUserIndex(user: string)
      requires Sound()
      requires forall k :: k in Table() && k.EntryKey? ==> k.owner != user
      modifies redis
      ensures Sound() && Table() == old(Table())
    {
      ghost var s, now := redis.State(), redis.clock.now;
      assert forall k :: IsLive(s, k, now) ==> k in Table();
      DeleteUserIndex(s, user, now);
      SameLiveTable(s, Delete(s, UserKey(user)), now);
      var _ := redis.DeleteKey(UserKey(user));
    }

    method RecordInvalidation(reason: string, count: nat)
      requires Valid()
      modifies this`invalidationsTotal, this`invalidationsByReason
      ensures Valid()
      ensures invalidationsTotal == old(invalidationsTotal) + count
      ensures invalidationsByReason
           == old(invalidationsByReason)[reason := (if reason in old(invalidationsByReason)
                                                    then old(invalidationsByReason)[reason] else 0) + count]
      ensures Filed(old(invalidationsByReason), invalidationsByReason, reason, count)
    {
      TotalAfterAdding(invalidationsByReason, reason, count);
      var before := if reason in invalidationsByReason then invalidationsByReason[reason] else 0;
      invalidationsByReason := invalidationsByReason[reason := before + count];
      invalidationsTotal := invalidationsTotal + count;
    }

    /** Removes every entry of one user. The count lies between the entries that stay live all along
        and those that were live at the start; with a clock that stands still both are equal. */
    method InvalidateUserEntries(user: string, reason: string) returns (deleted: nat)
      requires Valid()
      modifies redis, redis.clock, this`invalidationsTotal, this`invalidationsByReason
      ensures Valid()
      ensures Step(InvalidateUser(user), old(Table()), old(redis.clock.now), Table(), redis.clock.now)
      ensures |Surviving(OfOwner(old(Table()), user), redis.clock.now)| <= deleted
      ensures deleted <= |OfOwner(old(Table()), user)|
      ensures OnlyUserGone(old(Table()), Table(), redis.clock.now, user)
      ensures invalidationsTotal == old(invalidationsTotal) + deleted
      ensures Filed(old(invalidationsByReason), invalidationsByReason, reason, deleted)
    {
      deleted := RemoveUser(user);
      RecordInvalidation(reason, deleted);
    }

    /** The loop and the deletion of the index behind it. */
    method RemoveUser(user: string) returns (deleted: nat)
      requires Sound()
      modifies redis, redis.clock
      ensures Sound()
      ensures Step(InvalidateUser(user), old(Table()), old(redis.clock.now), Table(), redis.clock.now)
      ensures |Surviving(OfOwner(old(Table()), user), redis.clock.now)| <= deleted
      ensures deleted <= |OfOwner(old(Table()), user)|
      ensures OnlyUserGone(old(Table()), Table(), redis.clock.now, user)
    {
      ghost var before := Table();
      LiveKeyed(redis.State(), redis.clock.now);
      deleted := RemoveAllOwned(user);
      UserGone(before, Table(), redis.clock.now, user);
      DropUserIndex(user);
    }

    /** The loop of `invalidate_user_entries`. */
    method RemoveAllOwned(user: string) returns (deleted: nat)
      requires Sound()
      modifies redis, redis.clock
      ensures Sound() && old(redis.clock.now) <= redis.clock.now
      ensures Table() == Surviving(Without(old(Table()), OfOwner(old(Table()), user)), redis.clock.now)
      ensures |Surviving(OfOwner(old(Table()), user), redis.clock.now)| <= deleted
      ensures deleted <= |OfOwner(old(Table()), user)|
    {
      ghost var before, start := Table(), redis.clock.now;
      var todo := ReadIndex(UserKey(user));
      ghost var seen: set<Key>, gone: set<Key> := {}, {};
      assert before - seen == before;
      deleted := 0;
      while todo != {}
        invariant Sound() && start <= redis.clock.now
        invariant Table() == Surviving(before - seen, redis.clock.now)
        invariant todo !! seen
        invariant forall k :: k in todo + seen ==> k.EntryKey? && k.owner == user
        invariant forall k :: k in Surviving(before - seen, redis.clock.now) && k.EntryKey? && k.owner == user ==>
          k in todo
        invariant Removed(before, seen, gone, redis.clock.now) && |gone| == deleted
        decreases todo
      {
        var key :| key in todo;
        ghost var now := redis.clock.now;
        var n := RemoveOwned(key);
        RemovedNext(before, seen, gone, key, n, now, redis.clock.now);
        todo := todo - {key};
        if n == 1 { gone := gone + {key}; }
        seen := seen + {key};
        deleted := deleted + n;
      }
      RemovedCount(before, seen, gone, OfOwner(before, user), redis.clock.now);
    }

    /** One turn of the loop of `invalidate_query`. */
    method RemoveIfMatching(scope: string, intent: string, key: Key) returns (deleted: nat)
      requires Sound() && key.EntryKey? && key.scope == scope
      modifies redis, redis.clock
      ensures Sound() && old(redis.clock.now) <= redis.clock.now
      ensures key.intent == intent ==> Table() == Surviving(old(Table()), redis.clock.now) - {key}
      ensures key.intent != intent ==> Table() == Surviving(old(Table()), redis.clock.now) && deleted == 0
      ensures deleted <= 1
      ensures deleted == 1 ==> key in old(Table())
      ensures deleted == 0 && key.intent == intent ==> key !in Surviving(old(Table()), redis.clock.now)
    {
      ghost var t0 := Table();
      var entry := LoadEntry(key);
      ghost var now := redis.clock.now;
      deleted := 0;
      if entry.None? {
        ForgetMember(ScopeKey(scope), key);
        SurvivingTwice(t0, now, redis.clock.now);
        WithoutMissing(Table(), key);
      } else if entry.value.intent == intent {
        deleted := UnlinkBoth(ScopeKey(scope), UserKey(entry.value.owner), key);
        SurvivingTwice(t0, now, redis.clock.now);
      }
    }

    /** Removes every entry of one scope and intent, and counts as `InvalidateUserEntries` does. */
    method InvalidateQueryEntries(scope: string, intent: string, reason: string) returns (deleted: nat)
      requires Valid()
      modifies redis, redis.clock, this`invalidationsTotal, this`invalidationsByReason
      ensures Valid()
      ensures Step(InvalidateQuery(scope, intent), old(Table()), old(redis.clock.now), Table(), redis.clock.now)
      ensures |Surviving(OfQuery(old(Table()), scope, intent), redis.clock.now)| <= deleted
      ensures deleted <= |OfQuery(old(Table()), scope, intent)|
      ensures OnlyQueryGone(old(Table()), Table(), redis.clock.now, scope, intent)
      ensures invalidationsTotal == old(invalidationsTotal) + deleted
      ensures Filed(old(invalidationsByReason), invalidationsByReason, reason, deleted)
    {
      deleted := RemoveQuery(scope, intent);
      RecordInvalidation(reason, deleted);
    }

    method RemoveQuery(scope: string, intent: string) returns (deleted: nat)
      requires Sound()
      modifies redis, redis.clock
      ensures Sound()
      ensures Step(InvalidateQuery(scope, intent), old(Table()), old(redis.clock.now), Table(), redis.clock.now)
      ensures |Surviving(OfQuery(old(Table()), scope, intent), redis.clock.now)| <= deleted
      ensures deleted <= |OfQuery(old(Table()), scope, intent)|
      ensures OnlyQueryGone(old(Table()), Table(), redis.clock.now, scope, intent)
    {
      ghost var before := Table();
      LiveKeyed(redis.State(), redis.clock.now);
      deleted := RemoveAllMatching(scope, intent);
      QueryGone(before, Table(), redis.clock.now, scope, intent);
    }

    /** The loop of `invalidate_query`. */
    method RemoveAllMatching(scope: string, intent: string) returns (deleted: nat)
      requires Sound()
      modifies redis, redis.clock
      ensures Sound() && old(redis.clock.now) <= redis.clock.now
      ensures Table()
           == Surviving(Without(old(Table()), OfQuery(old(Table()), scope, intent)), redis.clock.now)
      ensures |Surviving(OfQuery(old(Table()), scope, intent), redis.clock.now)| <= deleted
      ensures deleted <= |OfQuery(old(Table()), scope, intent)|
    {
      ghost var before, start := Table(), redis.clock.now;
      var todo := ReadIndex(ScopeKey(scope));
      ghost var seen: set<Key>, gone: set<Key> := {}, {};
      assert before - seen == before;
      deleted := 0;
      while todo != {}
        invariant Sound() && start <= redis.clock.now
        invariant Table() == Surviving(before - seen, redis.clock.now)
        invariant todo !! seen
        invariant forall k :: k in todo ==> k.EntryKey? && k.scope == scope
        invariant forall k :: k in seen ==> k.EntryKey? && k.scope == scope && k.intent == intent
        invariant forall k | k in Surviving(before - seen, redis.clock.now) ::
          k.EntryKey? && k.scope == scope && k.intent == intent ==> k in todo
        invariant Removed(before, seen, gone, redis.clock.now) && |gone| == deleted
        decreases todo
      {
        var key :| key in todo;
        ghost var now := redis.clock.now;
        var n := RemoveIfMatching(scope, intent, key);
        if key.intent == intent {
          RemovedNext(before, seen, gone, key, n, now, redis.clock.now);
          if n == 1 { gone := gone + {key}; }
          seen := seen + {key};
        } else {
          RemovedLater(before, seen, gone, now, redis.clock.now);
        }
        todo := todo - {key};
        deleted := deleted + n;
      }
      RemovedCount(before, seen, gone, OfQuery(before, scope, intent), redis.clock.now);
    }
  }

  /** Of the keys already seen, those counted were in the table, and all that would still be live are
      counted. */
  ghost predicate Removed(before: Table, seen: set<Key>, gone: set<Key>, now: real) {
    && gone <= seen && gone <= before.Keys
    && forall k :: k in seen && k in before && now < before[k].deadline ==> k in gone
  }

  lemma RemovedNext(before: Table, seen: set<Key>, gone: set<Key>, key: Key, n: nat, a: real, b: real)
    requires Removed(before, seen, gone, a) && a <= b && key !in seen && n <= 1
    requires n == 1 ==> key in Surviving(before - seen, a)
    requires n == 0 ==> key !in Surviving(Surviving(before - seen, a), b)
    ensures Removed(before, seen + {key}, if n == 1 then gone + {key} else gone, b)
    ensures |if n == 1 then gone + {key} else gone| == |gone| + n
    ensures Surviving(Surviving(before - seen, a), b) - {key} == Surviving(before - (seen + {key}), b)
    ensures forall k :: k in Surviving(before - (seen + {key}), b) ==> k in Surviving(before - seen, a) && k != key
  {
  }

  lemma SubsetSize<T>(a: set<T>, b: set<T>)
    requires a <= b
    ensures |a| <= |b|
  {
    assert a + (b - a) == b;
  }

  lemma RemovedLater(before: Table, seen: set<Key>, gone: set<Key>, a: real, b: real)
    requires Removed(before, seen, gone, a) && a <= b
    ensures Removed(before, seen, gone, b)
    ensures Surviving(Surviving(before - seen, a), b) == Surviving(before - seen, b)
    ensures forall k :: k in Surviving(before - seen, b) ==> k in Surviving(before - seen, a)
  {
  }

  lemma RemovedCount(before: Table, seen: set<Key>, gone: set<Key>, part: Table, now: real)
    requires Removed(before, seen, gone, now)
    requires forall k :: k in part ==> k in before && part[k] == before[k]
    requires forall k :: k in seen && k in before ==> k in part
    requires forall k :: k in Surviving(before - seen, now) ==> k !in part
    ensures Surviving(before - seen, now) == Surviving(Without(before, part), now)
    ensures |Surviving(part, now)| <= |gone| <= |part|
  {
    assert forall k :: k in part && k !in seen && now < before[k].deadline ==> k in Surviving(before - seen, now);
    SubsetSize(Surviving(part, now).Keys, gone);
    SubsetSize(gone, part.Keys);
  }
}

/** The in-memory store with expiry times that stands in for Redis, as a specification on values. */
module RedisStore {
  import opened Wrappers

  /** What a cached result carries that the cache itself looks at; `body` is everything else. */
  datatype Entry = Entry(owner: string, intent: string, scope: string, body: string)

  /** Store keys. The digests in the key texts are taken to be collision free, so a key is the data
      it is made from: the scope fingerprint, the owner and the normalised intent. */
  datatype Key =
    | EntryKey(scope: string, owner: string, intent: string)
    | ScopeKey(scope: string)
    | UserKey(user: string)

  datatype Store = Store(
    values: map<Key, Entry>,
    sets: map<Key, set<Key>>,
    expires: map<Key, real>)

  predicate Has(s: Store, key: Key) { key in s.values || key in s.sets }

  function Delete(s: Store, key: Key): Store {
    Store(s.values - {key}, s.sets - {key}, s.expires - {key})
  }

  /** Lazy expiry: a key is dropped when it is touched at or after its expiry time. */
  function Purge(s: Store, key: Key, now: real): Store {
    if key in s.expires && s.expires[key] <= now then Delete(s, key) else s
  }

  function SetValue(s: Store, key: Key, value: Entry, now: real): Store {
    var p := Purge(s, key, now);
    p.(values := p.values[key := value])
  }

  function Members(s: Store, key: Key): set<Key> {
    if key in s.sets then s.sets[key] else {}
  }

  function AddMember(s: Store, key: Key, member: Key, now: real): Store {
    var p := Purge(s, key, now);
    p.(sets := p.sets[key := Members(p, key) + {member}])
  }

  /** `srem` on a key that is not expired; an emptied set disappears with its expiry. */
  function Discard(s: Store, key: Key, member: Key): Store {
    if key !in s.sets then s
    else if s.sets[key] - {member} == {} then Store(s.values, s.sets - {key}, s.expires - {key})
    else s.(sets := s.sets[key := s.sets[key] - {member}])
  }

  function RemoveMember(s: Store, key: Key, member: Key, now: real): Store {
    Discard(Purge(s, key, now), key, member)
  }

  function Expire(s: Store, key: Key, ttl: real, now: real): Store {
    if Has(s, key) then s.(expires := s.expires[key := now + ttl]) else s
  }

  /** A wall clock: it may advance by any amount between two readings, and never runs backwards. */
  class Clock {
    var now: real

    constructor ()
      ensures now == 0.0
    {
      now := 0.0;
    }

    method Read() returns (t: real)
      modifies this
      ensures old(now) <= now == t
    {
      var step: real :| step >= 0.0;
      now := now + step;
      t := now;
    }
  }

  /** Every method reads the clock itself, as the calls of `time.time()` do. */
  class InMemoryRedis {
    const clock: Clock
    var values: map<Key, Entry>
    var sets: map<Key, set<Key>>
    var expires: map<Key, real>

    ghost function State(): Store
      reads this
    {
      Store(values, sets, expires)
    }

    constructor (clock: Clock)
      ensures this.clock == clock
      ensures State() == Store(map[], map[], map[])
    {
      this.clock := clock;
      values, sets, expires := map[], map[], map[];
    }

    method PurgeIfExpired(key: Key) returns (ghost t: real)
      modifies this, clock
      ensures old(clock.now) <= t == clock.now
      ensures State() == Purge(old(State()), key, t)
    {
      var now := clock.Read();
      t := now;
      if key !in expires || expires[key] > now { return; }
      var n := DeleteKey(key);
    }

    method DeleteKey(key: Key) returns (deleted: nat)
      modifies this
      ensures State() == Delete(old(State()), key)
      ensures deleted == if Has(old(State()), key) then 1 else 0
    {
      deleted := if key in values || key in sets then 1 else 0;
      values := values - {key};
      sets := sets - {key};
      expires := expires - {key};
    }

    method Set(key: Key, value: Entry) returns (ghost t: real)
      modifies this, clock
      ensures old(clock.now) <= t == clock.now
      ensures State() == SetValue(old(State()), key, value, t)
    {
      t := PurgeIfExpired(key);
      values := values[key := value];
    }

    method Get(key: Key) returns (value: Option<Entry>, ghost t: real)
      modifies this, clock
      ensures old(clock.now) <= t == clock.now
      ensures State() == Purge(old(State()), key, t)
      ensures value == if key in State().values then Some(State().values[key]) else None
    {
      t := PurgeIfExpired(key);
      value := if key in values then Some(values[key]) else None;
    }

    method SAdd(key: Key, member: Key) returns (ghost t: real)
      modifies this, clock
      ensures old(clock.now) <= t == clock.now
      ensures State() == AddMember(old(State()), key, member, t)
    {
      t := PurgeIfExpired(key);
      sets := sets[key := (if key in sets then sets[key] else {}) + {member}];
    }

    method SMembers(key: Key) returns (members: set<Key>, ghost t: real)
      modifies this, clock
      ensures old(clock.now) <= t == clock.now
      ensures State() == Purge(old(State()), key, t)
      ensures members == Members(State(), key)
    {
      t := PurgeIfExpired(key);
      members := if key in sets then sets[key] else {};
    }

    method SRem(key: Key, member: Key) returns (ghost t: real)
      modifies this, clock
      ensures old(clock.now) <= t == clock.now
      ensures State() == RemoveMember(old(State()), key, member, t)
    {
      t := PurgeIfExpired(key);
      if key !in sets { return; }
      ghost var purged := sets;
      sets := sets[key := sets[key] - {member}];
      if sets[key] == {} {
        sets := sets - {key};
        expires := expires - {key};
        assert sets == purged - {key};
      }
    }

    method ExpireKey(key: Key, ttl: real) returns (done: bool, ghost t: real)
      modifies this, clock
      ensures old(clock.now) <= t == clock.now
      ensures State() == Expire(old(State()), key, ttl, t)
      ensures done == Has(old(State()), key)
    {
      t := clock.now;
      if key !in values && key !in sets { return false, t; }
      var now := clock.Read();
      t := now;
      expires := expires[key := now + ttl];
      done := true;
    }
  }
}

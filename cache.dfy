/** The in-memory cache with a time to live (`CacheSimples`): a dictionary from key to an
    entry holding the value, its creation time and its expiry time. The wall clock is an
    explicit `now` argument (seconds, as `time.time()` returns them). */
module TtlCache {
  import opened Base

  /** `ttl_padrao`: one hour. */
  const DefaultTtl := 3600

  datatype Entry<V> = Entry(value: V, createdAt: real, expiresAt: real)

  /** An entry is expired strictly after its expiry time; at the expiry time it is still live. */
  predicate Expired<V>(e: Entry<V>, now: real) {
    now > e.expiresAt
  }

  /** The keys whose entries have expired at `now`. */
  function ExpiredKeys<V>(m: map<string, Entry<V>>, now: real): set<string> {
    set k | k in m && Expired(m[k], now)
  }

  /** The keys whose entries are still live at `now`. */
  function LiveKeys<V>(m: map<string, Entry<V>>, now: real): set<string> {
    set k | k in m && !Expired(m[k], now)
  }

  /** What `get` answers. */
  function Lookup<V>(m: map<string, Entry<V>>, key: string, now: real): (r: Option<V>)
    ensures r.Some? <==> key in LiveKeys(m, now)
  {
    if key !in m then None
    else if Expired(m[key], now) then None
    else Some(m[key].value)
  }

  /** The dictionary after `get`: an expired entry for the key is deleted, nothing else changes. */
  function AfterLookup<V>(m: map<string, Entry<V>>, key: string, now: real): map<string, Entry<V>> {
    if key in m && Expired(m[key], now) then m - {key} else m
  }

  /** The entry `set` stores. */
  function NewEntry<V>(value: V, ttl: int, now: real): Entry<V> {
    Entry(value, now, now + ttl as real)
  }

  datatype Statistics = Statistics(total: nat, valid: nat, expired: nat)

  class Cache<V> {
    var entries: map<string, Entry<V>>
    const defaultTtl: int

    constructor (defaultTtl: int)
      ensures entries == map[] && this.defaultTtl == defaultTtl
    {
      entries := map[];
      this.defaultTtl := defaultTtl;
    }

    /** `get`: the stored value when the key is present and not expired; an expired entry
        is deleted on the way. */
    method Get(key: string, now: real) returns (r: Option<V>)
      modifies this
      ensures r == Lookup(old(entries), key, now)
      ensures entries == AfterLookup(old(entries), key, now)
    {
      if key !in entries {
        return None;
      }
      var item := entries[key];
      if now > item.expiresAt {
        entries := entries - {key};
        return None;
      }
      return Some(item.value);
    }

    /** `set`: stores the value under the key, expiring `ttl` seconds from now (the default
        time to live when `ttl` is None), replacing any earlier entry. */
    method Set(key: string, value: V, ttl: Option<int>, now: real)
      modifies this
      ensures entries == old(entries)[key := NewEntry(value, ttl.GetOr(defaultTtl), now)]
    {
      var t := if ttl.None? then defaultTtl else ttl.value;
      entries := entries[key := Entry(value, now, now + t as real)];
    }

    /** `clear`. */
    method Clear()
      modifies this
      ensures entries == map[]
    {
      entries := map[];
    }

    /** `limpar_expirados`: collects the expired keys, deletes them, and returns how many
        there were. */
    method PurgeExpired(now: real) returns (removed: nat)
      modifies this
      ensures entries == old(entries) - ExpiredKeys(old(entries), now)
      ensures removed == |ExpiredKeys(old(entries), now)|
    {
      var expired: set<string> := {};
      var pending := entries.Keys;
      while pending != {}
        invariant pending <= entries.Keys
        invariant expired == set k | k in entries && k !in pending && Expired(entries[k], now)
        decreases pending
      {
        var k :| k in pending;
        if now > entries[k].expiresAt {
          expired := expired + {k};
        }
        pending := pending - {k};
      }
      assert expired == ExpiredKeys(entries, now);
      removed := |expired|;
      var doomed := expired;
      while doomed != {}
        invariant doomed <= expired
        invariant entries == old(entries) - (expired - doomed)
        decreases doomed
      {
        var k :| k in doomed;
        entries := entries - {k};
        doomed := doomed - {k};
      }
    }

    /** `estatisticas` (the counts): every entry is counted either as valid or as expired, and
        the expired count is what `limpar_expirados` would remove at the same time. */
    method Stats(now: real) returns (s: Statistics)
      ensures s.total == |entries|
      ensures s.valid == |LiveKeys(entries, now)|
      ensures s.expired == |ExpiredKeys(entries, now)|
      ensures s.valid + s.expired == s.total
    {
      var valid: nat := 0;
      ghost var counted: set<string> := {};
      var pending := entries.Keys;
      while pending != {}
        invariant pending <= entries.Keys
        invariant counted == set k | k in entries && k !in pending && !Expired(entries[k], now)
        invariant valid == |counted|
        decreases pending
      {
        var k :| k in pending;
        if now <= entries[k].expiresAt {
          counted := counted + {k};
          valid := valid + 1;
        }
        pending := pending - {k};
      }
      assert counted == LiveKeys(entries, now);
      KeysPartition(entries, now);
      s := Statistics(|entries|, valid, |entries| - valid);
    }
  }

  // ---------------------------------------------------------------------------
  // Properties

  /** Live and expired keys split the dictionary: their counts add up to its size. */
  lemma KeysPartition<V>(m: map<string, Entry<V>>, now: real)
    ensures LiveKeys(m, now) + ExpiredKeys(m, now) == m.Keys
    ensures |LiveKeys(m, now)| + |ExpiredKeys(m, now)| == |m|
  {
    var live, dead := LiveKeys(m, now), ExpiredKeys(m, now);
    assert live * dead == {};
    assert live + dead == m.Keys;
  }

  /** A value just stored is returned by every `get` up to and including its expiry time. */
  lemma SetThenGet<V>(m: map<string, Entry<V>>, key: string, value: V, ttl: int, now: real, later: real)
    requires later <= now + ttl as real
    ensures Lookup(m[key := NewEntry(value, ttl, now)], key, later) == Some(value)
    ensures AfterLookup(m[key := NewEntry(value, ttl, now)], key, later) == m[key := NewEntry(value, ttl, now)]
  {
  }

  /** After the expiry time, the stored value is gone, and `get` deletes its entry. */
  lemma SetThenGetLate<V>(m: map<string, Entry<V>>, key: string, value: V, ttl: int, now: real, later: real)
    requires later > now + ttl as real
    ensures Lookup(m[key := NewEntry(value, ttl, now)], key, later) == None
    ensures AfterLookup(m[key := NewEntry(value, ttl, now)], key, later) == m - {key}
  {
  }

  /** Storing under one key leaves what every other key answers unchanged. */
  lemma SetLeavesOthers<V>(m: map<string, Entry<V>>, key: string, other: string, value: V, ttl: int, now: real, t: real)
    requires other != key
    ensures Lookup(m[key := NewEntry(value, ttl, now)], other, t) == Lookup(m, other, t)
  {
  }

  /** Once a key answers None it keeps answering None at every later time: expiry is never
      undone by the passing of time, and the deleting `get` does not bring it back. */
  lemma ExpiryIsFinal<V>(m: map<string, Entry<V>>, key: string, now: real, later: real)
    requires Lookup(m, key, now) == None && now <= later
    ensures Lookup(m, key, later) == None
    ensures Lookup(AfterLookup(m, key, now), key, later) == None
  {
  }

  /** `get` changes no answer: the deletion it performs only removes what already reads as
      absent, at that time and every later one. */
  lemma GetIsTransparent<V>(m: map<string, Entry<V>>, key: string, k: string, now: real, later: real)
    requires now <= later
    ensures Lookup(AfterLookup(m, key, now), k, later) == Lookup(m, k, later)
  {
  }

  /** Purging changes no answer either, and leaves only live entries, each untouched. */
  lemma PurgeIsTransparent<V>(m: map<string, Entry<V>>, k: string, now: real, later: real)
    requires now <= later
    ensures Lookup(m - ExpiredKeys(m, now), k, later) == Lookup(m, k, later)
    ensures (m - ExpiredKeys(m, now)).Keys == LiveKeys(m, now)
    ensures forall j :: j in m - ExpiredKeys(m, now) ==> (m - ExpiredKeys(m, now))[j] == m[j]
  {
  }

  /** Right after a purge, nothing is expired and every entry counts as valid. */
  lemma PurgeLeavesNoneExpired<V>(m: map<string, Entry<V>>, now: real)
    ensures ExpiredKeys(m - ExpiredKeys(m, now), now) == {}
    ensures |LiveKeys(m - ExpiredKeys(m, now), now)| == |m| - |ExpiredKeys(m, now)|
  {
    var p := m - ExpiredKeys(m, now);
    assert LiveKeys(p, now) == LiveKeys(m, now);
    KeysPartition(m, now);
  }
}

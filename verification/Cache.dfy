/** The in-memory cache: a store with expiry times and an index from colon-ended prefixes to keys. */
module Cache {
  import opened Text
  import opened Lists

  const SECOND: int := 1_000_000_000

  datatype Entry<V> = Entry(value: V, expiresAt: Option<int>)

  predicate Expired<V>(e: Entry<V>, now: int) { e.expiresAt.Some? && now > e.expiresAt.value }

  /** What a plain map would hold at a time: the values not expired then. */
  function Live<V>(store: map<string, Entry<V>>, now: int): map<string, V> {
    map k | k in store && !Expired(store[k], now) :: store[k].value
  }

  function Find<V>(m: map<string, V>, key: string): Option<V> { if key in m then Some(m[key]) else None }

  predicate IsColonPrefix(p: string, key: string) { p != "" && p <= key && p[|p| - 1] == ':' }

  predicate EndsInColon(p: string) { p != "" && p[|p| - 1] == ':' }

  function KeysUnder<V>(store: map<string, Entry<V>>, prefix: string): set<string> { set k | k in store && HasPrefix(k, prefix) }

  /** The prefixes of a key that end in a colon, shortest first. */
  method CachePrefixes(key: string) returns (prefixes: seq<string>)
    ensures forall p :: p in prefixes <==> IsColonPrefix(p, key)
  {
    prefixes := [];
    for i := 0 to |key|
      invariant forall p :: p in prefixes <==> IsColonPrefix(p, key[..i])
    {
      forall p ensures IsColonPrefix(p, key[..i + 1]) <==> IsColonPrefix(p, key[..i]) || (key[i] == ':' && p == key[..i + 1]) {
        if |p| == i + 1 && p <= key[..i + 1] { assert p == key[..i + 1]; }
      }
      if key[i] == ':' { prefixes := prefixes + [key[..i + 1]]; }
    }
    assert key[..|key|] == key;
  }

  /** The index groups exactly these keys by their colon-ended prefixes, and holds no empty group. */
  ghost predicate Indexes(index: map<string, set<string>>, keys: set<string>) {
    && (forall p :: p in index ==> index[p] != {})
    && (forall p, k :: p in index && k in index[p] ==> k in keys && IsColonPrefix(p, k))
    && (forall p, k :: k in keys && IsColonPrefix(p, k) ==> p in index && k in index[p])
  }

  function GroupOf(index: map<string, set<string>>, prefix: string): set<string> { if prefix in index then index[prefix] else {} }

  /** In a correct index, the group of a colon-ended prefix is what a scan of the keys would find. */
  lemma GroupIsScan(index: map<string, set<string>>, keys: set<string>, prefix: string)
    requires Indexes(index, keys) && EndsInColon(prefix)
    ensures GroupOf(index, prefix) == set k | k in keys && HasPrefix(k, prefix)
  {
    var group, scan := GroupOf(index, prefix), set k | k in keys && HasPrefix(k, prefix);
    forall k ensures k in group <==> k in scan {
      assert IsColonPrefix(prefix, k) <==> HasPrefix(k, prefix);
    }
    assert group == scan;
  }

  lemma AddIndexes(index: map<string, set<string>>, keys: set<string>, key: string, index': map<string, set<string>>)
    requires Indexes(index, keys)
    requires forall p :: p in index' <==> p in index || IsColonPrefix(p, key)
    requires forall p :: p in index' ==> index'[p] == GroupOf(index, p) + (if IsColonPrefix(p, key) then {key} else {})
    ensures Indexes(index', keys + {key})
  {
    forall p, k | p in index' && k in index'[p] ensures k in keys + {key} && IsColonPrefix(p, k) {
      assert k in GroupOf(index, p) || (k == key && IsColonPrefix(p, key));
    }
    forall p, k | k in keys + {key} && IsColonPrefix(p, k) ensures p in index' && k in index'[p] {
      assert k in keys ==> k in GroupOf(index, p);
    }
  }

  lemma RemoveIndexes(index: map<string, set<string>>, keys: set<string>, key: string, index': map<string, set<string>>)
    requires Indexes(index, keys)
    requires forall p :: p in index' <==> p in index && (IsColonPrefix(p, key) ==> index[p] != {key})
    requires forall p :: p in index' ==> index'[p] == index[p] - (if IsColonPrefix(p, key) then {key} else {})
    ensures Indexes(index', keys - {key})
  {
  }

  /** The two stores agree on every live value from a moment on. */
  ghost predicate SameFrom<V>(a: map<string, Entry<V>>, b: map<string, Entry<V>>, from: int) {
    forall t :: t >= from ==> Live(a, t) == Live(b, t)
  }

  lemma SameFromAfterSet<V>(a: map<string, Entry<V>>, b: map<string, Entry<V>>, c: map<string, Entry<V>>, key: string, start: int, end: int)
    requires SameFrom(b, a, start) && start <= end
    requires c.Keys == b.Keys + {key} && forall k :: k in c && k != key ==> c[k] == b[k]
    ensures SameFrom(c - {key}, a - {key}, end)
  {
    forall t | t >= end ensures Live(c - {key}, t) == Live(a - {key}, t) {
      DropsLive(a, {key});
      DropsLive(b, {key});
      assert c - {key} == b - {key};
      assert Live(b, t) == Live(a, t);
    }
  }

  lemma DropsLive<V>(store: map<string, Entry<V>>, keys: set<string>)
    ensures forall t :: Live(store - keys, t) == Live(store, t) - keys
  {
  }

  class InMemoryCache<V> {
    var store: map<string, Entry<V>>
    var prefixIndex: map<string, set<string>>
    var clock: int

    ghost predicate Valid()
      reads this
    {
      Indexes(prefixIndex, store.Keys)
    }

    constructor (start: int)
      ensures Valid() && store == map[] && clock == start
    {
      store, prefixIndex, clock := map[], map[], start;
    }

    /** The wall clock: it may move between two readings, never back. */
    method Now() returns (t: int)
      modifies this`clock
      ensures t == clock >= old(clock)
    {
      var passed: int := *;
      if passed > 0 { clock := clock + passed; }
      t := clock;
    }

    method AddToPrefixIndex(key: string)
      modifies this`prefixIndex
      ensures forall p :: p in prefixIndex <==> p in old(prefixIndex) || IsColonPrefix(p, key)
      ensures forall p :: p in prefixIndex ==>
        prefixIndex[p] == GroupOf(old(prefixIndex), p) + (if IsColonPrefix(p, key) then {key} else {})
    {
      var prefixes := CachePrefixes(key);
      for i := 0 to |prefixes|
        invariant forall p :: p in prefixIndex <==> p in old(prefixIndex) || p in prefixes[..i]
        invariant forall p :: p in prefixIndex ==>
          prefixIndex[p] == GroupOf(old(prefixIndex), p) + (if p in prefixes[..i] then {key} else {})
      {
        var prefix := prefixes[i];
        assert prefixes[..i + 1] == prefixes[..i] + [prefix];
        var keys := GroupOf(prefixIndex, prefix);
        prefixIndex := prefixIndex[prefix := keys + {key}];
      }
      assert prefixes[..|prefixes|] == prefixes;
    }

    method RemoveFromPrefixIndex(key: string)
      requires forall p :: p in prefixIndex ==> prefixIndex[p] != {}
      modifies this`prefixIndex
      ensures forall p :: p in prefixIndex <==> p in old(prefixIndex) && (IsColonPrefix(p, key) ==> old(prefixIndex)[p] != {key})
      ensures forall p :: p in prefixIndex ==> prefixIndex[p] == old(prefixIndex)[p] - (if IsColonPrefix(p, key) then {key} else {})
    {
      var prefixes := CachePrefixes(key);
      for i := 0 to |prefixes|
        invariant forall p :: p in prefixIndex <==> p in old(prefixIndex) && (p in prefixes[..i] ==> old(prefixIndex)[p] != {key})
        invariant forall p :: p in prefixIndex ==> prefixIndex[p] == old(prefixIndex)[p] - (if p in prefixes[..i] then {key} else {})
      {
        var prefix := prefixes[i];
        assert prefixes[..i + 1] == prefixes[..i] + [prefix];
        if prefix in prefixIndex {
          var keys := prefixIndex[prefix] - {key};
          prefixIndex := if keys == {} then prefixIndex - {prefix} else prefixIndex[prefix := keys];
        }
      }
      assert prefixes[..|prefixes|] == prefixes;
    }

    method SetLocked(key: string, entry: Entry<V>)
      requires Valid()
      modifies this`store, this`prefixIndex
      ensures Valid() && store == old(store)[key := entry]
    {
      if key !in store {
        AddToPrefixIndex(key);
        AddIndexes(old(prefixIndex), old(store).Keys, key, prefixIndex);
      }
      store := store[key := entry];
      assert store.Keys == old(store).Keys + {key};
    }

    method DeleteLocked(key: string)
      requires Valid()
      modifies this`store, this`prefixIndex
      ensures Valid() && store == old(store) - {key}
    {
      if key !in store { return; }
      store := store - {key};
      RemoveFromPrefixIndex(key);
      RemoveIndexes(old(prefixIndex), old(store).Keys, key, prefixIndex);
      assert store.Keys == old(store).Keys - {key};
    }

    /** Reads a key.  `at` is the moment the answer is true of; an entry found expired is evicted on the way. */
    method Get(key: string) returns (r: Option<V>, ghost at: int)
      requires Valid()
      modifies this
      ensures Valid() && old(clock) <= at <= clock
      ensures r == Find(Live(old(store), at), key)
      ensures store == old(store) || (store == old(store) - {key} && r == None)
      ensures SameFrom(store, old(store), clock)
    {
      at := clock;
      if key !in store { return None, at; }
      var entry := store[key];
      if entry.expiresAt.Some? {
        var t := Now();
        at := t;
        if t > entry.expiresAt.value {
          if key in store && store[key].expiresAt.Some? {
            var again := Now();
            if again > store[key].expiresAt.value { DeleteLocked(key); }
          }
          return None, at;
        }
      }
      return Some(entry.value), at;
    }

    method Set(key: string, value: V)
      requires Valid()
      modifies this`store, this`prefixIndex
      ensures Valid() && store == old(store)[key := Entry(value, None)]
      ensures forall t :: Live(store, t) == Live(old(store), t)[key := value]
    {
      SetLocked(key, Entry(value, None));
    }

    /** A lifetime of zero or less means no expiry. */
    method SetWithTTL(key: string, value: V, ttlSeconds: int)
      requires Valid()
      modifies this
      ensures Valid() && clock >= old(clock)
      ensures store.Keys == old(store).Keys + {key} && forall k :: k in store && k != key ==> store[k] == old(store)[k]
      ensures store[key].value == value
      ensures store[key].expiresAt == if ttlSeconds <= 0 then None else Some(clock + ttlSeconds * 1_000_000_000)
      ensures forall t :: (if Expired(store[key], t) then Live(store, t) == Live(old(store), t) - {key} else Live(store, t) == Live(old(store), t)[key := value])
    {
      if ttlSeconds <= 0 {
        Set(key, value);
        return;
      }
      var now := Now();
      SetLocked(key, Entry(value, Some(now + ttlSeconds * SECOND)));
    }

    method Delete(key: string)
      requires Valid()
      modifies this`store, this`prefixIndex
      ensures Valid() && store == old(store) - {key}
      ensures forall t :: Live(store, t) == Live(old(store), t) - {key}
    {
      DeleteLocked(key);
    }

    method DeleteAll(keys: seq<string>)
      requires Valid()
      modifies this`store, this`prefixIndex
      ensures Valid() && store == old(store) - (set k | k in keys)
    {
      for i := 0 to |keys|
        invariant Valid() && store == old(store) - (set k | k in keys[..i])
      {
        assert keys[..i + 1] == keys[..i] + [keys[i]];
        DeleteLocked(keys[i]);
      }
      assert keys[..|keys|] == keys;
    }

    method KeysForIndexedPrefix(prefix: string) returns (keys: seq<string>)
      requires Valid() && EndsInColon(prefix)
      ensures NoDuplicates(keys) && forall k :: k in keys <==> k in KeysUnder(store, prefix)
    {
      GroupIsScan(prefixIndex, store.Keys, prefix);
      keys := ListOf(GroupOf(prefixIndex, prefix));
    }

    method DeleteByIndex(prefix: string) returns (deleted: nat)
      requires Valid() && EndsInColon(prefix)
      modifies this`store, this`prefixIndex
      ensures Valid() && store == old(store) - KeysUnder(old(store), prefix)
      ensures deleted == |KeysUnder(old(store), prefix)|
    {
      var keys := KeysForIndexedPrefix(prefix);
      SizeOfList(keys, KeysUnder(store, prefix));
      assert (set k | k in keys) == KeysUnder(store, prefix);
      DeleteAll(keys);
      return |keys|;
    }

    method DeleteByScan(prefix: string) returns (deleted: nat)
      requires Valid()
      modifies this`store, this`prefixIndex
      ensures Valid() && store == old(store) - KeysUnder(old(store), prefix)
      ensures deleted == |KeysUnder(old(store), prefix)|
    {
      deleted := 0;
      var keys := ListOf(store.Keys);
      ghost var gone: set<string> := {};
      for i := 0 to |keys|
        invariant Valid() && store == old(store) - gone && deleted == |gone|
        invariant forall k :: k in gone <==> k in keys[..i] && HasPrefix(k, prefix)
      {
        assert keys[..i + 1] == keys[..i] + [keys[i]];
        assert keys[i] !in keys[..i];
        if HasPrefix(keys[i], prefix) {
          DeleteLocked(keys[i]);
          gone := gone + {keys[i]};
          deleted := deleted + 1;
        }
      }
      assert keys[..|keys|] == keys;
      assert gone == KeysUnder(old(store), prefix);
    }

    /** Removes every key under a prefix and counts them.  Colon-ended prefixes go by the index, others by a scan. */
    method DeleteByPrefix(prefix: string) returns (deleted: nat)
      requires Valid()
      modifies this`store, this`prefixIndex
      ensures Valid() && store == old(store) - KeysUnder(old(store), prefix)
      ensures deleted == |KeysUnder(old(store), prefix)|
      ensures forall t :: Live(store, t) == Live(old(store), t) - KeysUnder(old(store), prefix)
    {
      if EndsInColon(prefix) {
        deleted := DeleteByIndex(prefix);
      } else {
        deleted := DeleteByScan(prefix);
      }
      DropsLive(old(store), KeysUnder(old(store), prefix));
    }

    /** Looks for a live key among some keys, evicting those found expired before it. */
    method AnyLive(keys: seq<string>) returns (found: bool)
      requires Valid()
      modifies this
      ensures Valid() && clock >= old(clock)
      ensures found ==> exists k :: k in keys && k in Live(old(store), clock)
      ensures !found ==> forall k :: k in keys ==> k !in Live(old(store), clock)
      ensures SameFrom(store, old(store), clock)
    {
      for i := 0 to |keys|
        invariant Valid() && clock >= old(clock)
        invariant forall k :: k in store ==> k in old(store) && store[k] == old(store)[k]
        invariant forall k :: k in old(store) && k !in store ==> Expired(old(store)[k], clock)
        invariant forall k :: k in keys[..i] ==> k !in Live(old(store), clock)
      {
        assert keys[..i + 1] == keys[..i] + [keys[i]];
        if keys[i] in store {
          var entry := store[keys[i]];
          if entry.expiresAt.Some? {
            var now := Now();
            if now > entry.expiresAt.value {
              DeleteLocked(keys[i]);
              continue;
            }
          }
          assert keys[i] in keys && keys[i] in Live(old(store), clock);
          return true;
        }
      }
      assert keys[..|keys|] == keys;
      return false;
    }

    method ExistsByPrefix(prefix: string) returns (found: bool)
      requires Valid()
      modifies this
      ensures Valid() && clock >= old(clock)
      ensures found <==> exists k :: k in Live(old(store), clock) && HasPrefix(k, prefix)
      ensures SameFrom(store, old(store), clock)
    {
      var keys;
      if EndsInColon(prefix) {
        keys := KeysForIndexedPrefix(prefix);
      } else {
        keys := ListOf(KeysUnder(store, prefix));
      }
      found := AnyLive(keys);
    }

    /** One caller at a time: a live value is returned as it is, otherwise the loader's value is stored and returned. */
    method GetOrSetWithTTL(key: string, ttlSeconds: int, loaded: Result<V>) returns (r: Result<V>, ghost at: int)
      requires Valid()
      modifies this
      ensures Valid() && old(clock) <= at <= clock
      ensures key in Live(old(store), at) ==> r == Ok(Live(old(store), at)[key]) && store == old(store)
      ensures key !in Live(old(store), at) ==> r == loaded
      ensures key !in Live(old(store), at) && loaded.Err? ==> SameFrom(store, old(store), clock)
      ensures key !in Live(old(store), at) && loaded.Ok? ==>
        && key in store && store[key].value == loaded.value
        && store[key].expiresAt == (if ttlSeconds <= 0 then None else Some(clock + ttlSeconds * 1_000_000_000))
        && SameFrom(store - {key}, old(store) - {key}, clock)
    {
      var cached;
      cached, at := Get(key);
      if cached.Some? { return Ok(cached.value), at; }
      cached, at := Get(key);
      if cached.Some? { return Ok(cached.value), at; }
      if loaded.Ok? {
        ghost var before, start := store, clock;
        SetWithTTL(key, loaded.value, ttlSeconds);
        SameFromAfterSet(old(store), before, store, key, start, clock);
      }
      return loaded, at;
    }
  }
}

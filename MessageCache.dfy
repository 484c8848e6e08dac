/**
 * MessageCacheAdapter: the cache-aside adapter in front of the inbox query. Results are stored in
 * Redis as JSON under the keys of module CacheKeys. A value that is missing, empty or undecodable
 * is a miss; on a miss getOrFetch asks the data supplier and stores a non-null answer for ten
 * minutes before returning it.
 *
 * The asynchronous Uni pipeline is modelled as sequential calls: a Uni that fails is a Failure, a
 * Uni that completes with null is Success(None).
 */
module MessageCache {
  import opened Wrappers
  import opened JavaInts
  import opened Errors
  import opened Pagination
  import opened CacheKeys
  import opened Redis

  /** DEFAULT_TTL, ten minutes, in the whole seconds that SETEX receives. */
  const DEFAULT_TTL_SECONDS: int := 600

  /**
   * The Jackson ObjectMapper as a pair of functions: write fails with None (JsonProcessingException),
   * read fails with None on text it cannot decode.
   */
  datatype JsonCodec<!T> = JsonCodec(write: PagedResult<T> -> Option<string>, read: string -> Option<PagedResult<T>>)

  /**
   * What the adapter relies on from Jackson: written text is not empty, and reading it back yields
   * a result with the same four creator properties (totalPages is whatever the mapper restores).
   */
  ghost predicate RoundTrips<T(!new)>(codec: JsonCodec<T>)
  {
    forall r: PagedResult<T> {:trigger codec.write(r)} :: codec.write(r).Some? ==>
      var json := codec.write(r).value;
      && json != []
      && codec.read(json).Some?
      && SameContent(codec.read(json).value, r)
  }

  /** The same data, totalElements, page and size. */
  ghost predicate SameContent<T>(a: PagedResult<T>, b: PagedResult<T>)
  {
    a.data == b.data && a.totalElements == b.totalElements && a.page == b.page && a.size == b.size
  }

  // ---------------------------------------------------------------------------------------------
  // deserialize / serialize and the GET lookup
  // ---------------------------------------------------------------------------------------------

  /** deserialize: null or empty text, and text that does not decode, are all a miss (None). */
  function Deserialize<T>(codec: JsonCodec<T>, json: Option<string>): (r: Option<PagedResult<T>>)
    ensures json.None? || json.value == [] ==> r.None?
    ensures json.Some? && json.value != [] ==> r == codec.read(json.value)
  {
    if json.None? || json.value == [] then None else codec.read(json.value)
  }

  /** serialize: a write failure becomes the RuntimeException "Error de serialización JSON". */
  function Serialize<T>(codec: JsonCodec<T>, result: PagedResult<T>): (r: Result<string, Error>)
    ensures r.Failure? <==> codec.write(result).None?
    ensures r.Failure? ==> r.error == SerializationError
    ensures r.Success? ==> r.value == codec.write(result).value
  {
    match codec.write(result)
    case None => Failure(SerializationError)
    case Some(json) => Success(json)
  }

  /** What a successful GET of the key yields after deserialization. */
  function Lookup<T>(codec: JsonCodec<T>, entries: map<string, Entry>, key: string): Option<PagedResult<T>>
  {
    Deserialize(codec, GetValue(entries, key))
  }

  /** A lookup hits only when the key is stored with non-empty text that decodes. */
  lemma LookupHitIff<T>(codec: JsonCodec<T>, entries: map<string, Entry>, key: string)
    ensures Lookup(codec, entries, key).Some? <==>
      key in entries && entries[key].value != [] && codec.read(entries[key].value).Some?
    ensures Lookup(codec, entries, key).Some? ==> Lookup(codec, entries, key) == codec.read(entries[key].value)
  {
  }

  // ---------------------------------------------------------------------------------------------
  // getOrFetch, as a function of the store state and the supplier's answer
  // ---------------------------------------------------------------------------------------------

  /** The outcome of getOrFetch: its result, the new store contents, the commands it issued, and whether it called the supplier. */
  datatype FetchOutcome<T> = FetchOutcome(
    result: Result<Option<PagedResult<T>>, Error>,
    entries: map<string, Entry>,
    commands: seq<Command>,
    supplierCalled: bool)

  /**
   * getOrFetch from a store holding `entries` whose next command is number `logLen` of its log,
   * when the supplier would answer `answer`.
   */
  function GetOrFetchSpec<T>(md: DigestProvider, codec: JsonCodec<T>, entries: map<string, Entry>, logLen: nat,
                             failing: set<nat>, failureMessage: string, userId: Int32, p: Pageable,
                             answer: Result<Option<PagedResult<T>>, Error>): FetchOutcome<T>
  {
    var key := CacheKey(md, userId, p);
    var get := Command.Get(key);
    var cached := Lookup(codec, entries, key);
    if logLen in failing then FetchOutcome(Failure(StoreError(failureMessage)), entries, [get], false)
    else if cached.Some? then FetchOutcome(Success(cached), entries, [get], false)
    else if answer.Failure? || answer.value.None? then FetchOutcome(answer, entries, [get], true)
    else
      var fetched := answer.value.value;
      var json := Serialize(codec, fetched);
      if json.Failure? then FetchOutcome(Failure(json.error), entries, [get], true)
      else
        var setex := Command.SetEx(key, DEFAULT_TTL_SECONDS, json.value);
        if logLen + 1 in failing then FetchOutcome(Failure(StoreError(failureMessage)), entries, [get, setex], true)
        else FetchOutcome(answer, entries[key := Entry(json.value, DEFAULT_TTL_SECONDS)], [get, setex], true)
  }

  /** On a hit the cached value is returned, the supplier is not called and nothing is written. */
  lemma HitSkipsSupplier<T>(md: DigestProvider, codec: JsonCodec<T>, entries: map<string, Entry>, logLen: nat,
                            failing: set<nat>, msg: string, userId: Int32, p: Pageable,
                            answer: Result<Option<PagedResult<T>>, Error>)
    requires logLen !in failing
    requires Lookup(codec, entries, CacheKey(md, userId, p)).Some?
    ensures var o := GetOrFetchSpec(md, codec, entries, logLen, failing, msg, userId, p, answer);
      && o.result == Success(Lookup(codec, entries, CacheKey(md, userId, p)))
      && !o.supplierCalled && o.entries == entries && o.commands == [Command.Get(CacheKey(md, userId, p))]
  {
  }

  /**
   * On a miss the supplier is called once; a non-null answer is written under the same key with a
   * ten-minute TTL and returned, and no other key changes.
   */
  lemma MissStoresAnswer<T>(md: DigestProvider, codec: JsonCodec<T>, entries: map<string, Entry>, logLen: nat,
                            failing: set<nat>, msg: string, userId: Int32, p: Pageable, fetched: PagedResult<T>)
    requires logLen !in failing && logLen + 1 !in failing
    requires Lookup(codec, entries, CacheKey(md, userId, p)).None?
    requires codec.write(fetched).Some?
    ensures var key := CacheKey(md, userId, p);
      var o := GetOrFetchSpec(md, codec, entries, logLen, failing, msg, userId, p, Success(Some(fetched)));
      && o.result == Success(Some(fetched)) && o.supplierCalled
      && key in o.entries && o.entries[key] == Entry(codec.write(fetched).value, 600)
      && (forall k :: k != key ==> (k in o.entries <==> k in entries) && (k in entries ==> o.entries[k] == entries[k]))
  {
  }

  /**
   * A store never changes except by a successful write of the supplier's non-null answer, and
   * the supplier is called exactly on a miss.
   */
  lemma StoreChangesOnlyByPopulate<T>(md: DigestProvider, codec: JsonCodec<T>, entries: map<string, Entry>, logLen: nat,
                                      failing: set<nat>, msg: string, userId: Int32, p: Pageable,
                                      answer: Result<Option<PagedResult<T>>, Error>)
    ensures var key := CacheKey(md, userId, p);
      var o := GetOrFetchSpec(md, codec, entries, logLen, failing, msg, userId, p, answer);
      && (o.supplierCalled <==> logLen !in failing && Lookup(codec, entries, key).None?)
      && (o.entries != entries ==>
            o.supplierCalled && answer.Success? && answer.value.Some? && o.result == answer
            && codec.write(answer.value.value).Some?
            && o.entries == entries[key := Entry(codec.write(answer.value.value).value, DEFAULT_TTL_SECONDS)])
  {
  }

  /** A null answer is returned as null and not stored; a failed supplier fails the call and writes nothing. */
  lemma NullOrFailedAnswerNotStored<T>(md: DigestProvider, codec: JsonCodec<T>, entries: map<string, Entry>, logLen: nat,
                                       failing: set<nat>, msg: string, userId: Int32, p: Pageable,
                                       answer: Result<Option<PagedResult<T>>, Error>)
    requires logLen !in failing
    requires Lookup(codec, entries, CacheKey(md, userId, p)).None?
    requires answer.Failure? || answer.value.None?
    ensures var o := GetOrFetchSpec(md, codec, entries, logLen, failing, msg, userId, p, answer);
      o.result == answer && o.entries == entries && o.supplierCalled && |o.commands| == 1
  {
  }

  /**
   * A failed cache write fails the whole call even though the supplier's data was fetched: the
   * SETEX failure propagates through `call`.
   */
  lemma FailedWriteFailsCall<T>(md: DigestProvider, codec: JsonCodec<T>, entries: map<string, Entry>, logLen: nat,
                                failing: set<nat>, msg: string, userId: Int32, p: Pageable, fetched: PagedResult<T>)
    requires logLen !in failing && logLen + 1 in failing
    requires Lookup(codec, entries, CacheKey(md, userId, p)).None?
    requires codec.write(fetched).Some?
    ensures var o := GetOrFetchSpec(md, codec, entries, logLen, failing, msg, userId, p, Success(Some(fetched)));
      o.result == Failure(StoreError(msg)) && o.entries == entries && o.supplierCalled
  {
  }

  /** A serialization failure fails the call before anything is sent to Redis. */
  lemma SerializationFailureWritesNothing<T>(md: DigestProvider, codec: JsonCodec<T>, entries: map<string, Entry>, logLen: nat,
                                             failing: set<nat>, msg: string, userId: Int32, p: Pageable, fetched: PagedResult<T>)
    requires logLen !in failing
    requires Lookup(codec, entries, CacheKey(md, userId, p)).None?
    requires codec.write(fetched).None?
    ensures var o := GetOrFetchSpec(md, codec, entries, logLen, failing, msg, userId, p, Success(Some(fetched)));
      o.result == Failure(SerializationError) && o.entries == entries && o.commands == [Command.Get(CacheKey(md, userId, p))]
  {
  }

  /**
   * Once a miss has stored an answer, the next getOrFetch for the same user and pageable is a hit:
   * it returns the stored result (with the same content) without calling its supplier.
   */
  lemma SecondCallHits<T(!new)>(md: DigestProvider, codec: JsonCodec<T>, entries: map<string, Entry>, logLen: nat,
                          failing: set<nat>, msg: string, userId: Int32, p: Pageable, fetched: PagedResult<T>,
                          answer2: Result<Option<PagedResult<T>>, Error>)
    requires RoundTrips(codec)
    requires logLen !in failing && logLen + 1 !in failing && logLen + 2 !in failing
    requires Lookup(codec, entries, CacheKey(md, userId, p)).None?
    requires codec.write(fetched).Some?
    ensures var o1 := GetOrFetchSpec(md, codec, entries, logLen, failing, msg, userId, p, Success(Some(fetched)));
      var o2 := GetOrFetchSpec(md, codec, o1.entries, logLen + 2, failing, msg, userId, p, answer2);
      && o2.result.Success? && o2.result.value.Some? && SameContent(o2.result.value.value, fetched)
      && !o2.supplierCalled && o2.entries == o1.entries
  {
    var json := codec.write(fetched).value;
    assert codec.write(fetched).Some?;
    assert json != [] && codec.read(json).Some? && SameContent(codec.read(json).value, fetched);
  }

  // ---------------------------------------------------------------------------------------------
  // Invalidation, as functions of the store contents
  // ---------------------------------------------------------------------------------------------

  /** After invalidateUserCache(u), every lookup of u misses. */
  lemma InvalidatedUserMisses<T>(md: DigestProvider, codec: JsonCodec<T>, entries: map<string, Entry>, u: Int32, p: Pageable)
    ensures Lookup(codec, entries - KeysWithPrefix(entries, UserKeyPrefix(u)), CacheKey(md, u, p)).None?
  {
    var key := CacheKey(md, u, p);
    assert StartsWith(key, UserKeyPrefix(u));
  }

  /** invalidateUserCache(u) leaves every other user's cached results in place. */
  lemma InvalidationKeepsOtherUsers<T>(md: DigestProvider, codec: JsonCodec<T>, entries: map<string, Entry>,
                                       u: Int32, v: Int32, p: Pageable)
    requires u != v
    ensures Lookup(codec, entries - KeysWithPrefix(entries, UserKeyPrefix(u)), CacheKey(md, v, p))
         == Lookup(codec, entries, CacheKey(md, v, p))
  {
    UserPrefixMatchesOnlyOwnKeys(md, u, v, p);
    assert !StartsWith(CacheKey(md, v, p), UserKeyPrefix(u));
  }

  // ---------------------------------------------------------------------------------------------
  // The adapter and the supplier as objects
  // ---------------------------------------------------------------------------------------------

  /** The data supplier of a getOrFetch call; it counts how often it is invoked. */
  class Supplier<T> {
    const answer: Result<Option<PagedResult<T>>, Error>
    var calls: nat

    constructor(answer: Result<Option<PagedResult<T>>, Error>)
      ensures this.answer == answer && calls == 0
    {
      this.answer := answer;
      calls := 0;
    }

    method Get() returns (r: Result<Option<PagedResult<T>>, Error>)
      modifies this
      ensures r == answer && calls == old(calls) + 1
    {
      r := answer;
      calls := calls + 1;
    }
  }

  class MessageCacheAdapter<T> {
    const store: RedisStore
    const codec: JsonCodec<T>
    const md: DigestProvider

    constructor(store: RedisStore, codec: JsonCodec<T>, md: DigestProvider)
      ensures this.store == store && this.codec == codec && this.md == md
    {
      this.store := store;
      this.codec := codec;
      this.md := md;
    }

    /** get: GET the key and deserialize; a failed GET fails, anything undecodable is a miss. */
    method Get(userId: Int32, p: Pageable) returns (r: Result<Option<PagedResult<T>>, Error>)
      modifies store
      ensures store.entries == old(store.entries)
      ensures store.log == old(store.log) + [Command.Get(CacheKey(md, userId, p))]
      ensures r == if old(store.NextFails()) then Failure(StoreError(store.failureMessage))
                   else Success(Lookup(codec, store.entries, CacheKey(md, userId, p)))
    {
      var cacheKey := GenerateCacheKey(md, userId, p);
      var reply := store.Get(cacheKey);
      match reply
      case Failure(e) => r := Failure(e);
      case Success(json) => r := Success(Deserialize(codec, json));
    }

    /** set: serialize first (a failure throws before Redis is touched), then SETEX with the TTL in seconds. */
    method Set(userId: Int32, p: Pageable, data: PagedResult<T>, ttlSeconds: Int64) returns (r: Result<(), Error>)
      modifies store
      ensures codec.write(data).None? ==>
        r == Failure(SerializationError) && store.entries == old(store.entries) && store.log == old(store.log)
      ensures codec.write(data).Some? ==>
        var key, json := CacheKey(md, userId, p), codec.write(data).value;
        && store.log == old(store.log) + [Command.SetEx(key, ttlSeconds, json)]
        && (old(store.NextFails()) ==> r == Failure(StoreError(store.failureMessage)) && store.entries == old(store.entries))
        && (!old(store.NextFails()) && ttlSeconds <= 0 ==> r == Failure(StoreError(INVALID_EXPIRE)) && store.entries == old(store.entries))
        && (!old(store.NextFails()) && ttlSeconds > 0 ==> r == Success(()) && store.entries == old(store.entries)[key := Entry(json, ttlSeconds)])
    {
      var cacheKey := GenerateCacheKey(md, userId, p);
      var jsonData := Serialize(codec, data);
      if jsonData.Failure? {
        return Failure(jsonData.error);
      }
      r := store.SetEx(cacheKey, ttlSeconds, jsonData.value);
    }

    /**
     * invalidateUserCache: KEYS "msg-svc-{u}-list-*", then DEL of the keys found (no DEL when there
     * are none); the result is the number of keys deleted.
     */
    method InvalidateUserCache(userId: Int32) returns (r: Result<nat, Error>)
      modifies store
      ensures var doomed := KeysWithPrefix(old(store.entries), UserKeyPrefix(userId));
        && (r.Success? ==> r.value == |doomed| && store.entries == old(store.entries) - doomed)
        && (r.Failure? ==> r.error == StoreError(store.failureMessage) && store.entries == old(store.entries))
        && (old(store.NextFails()) ==> r.Failure? && store.log == old(store.log) + [Keys(UserKeyPrefix(userId) + "*")])
        && (!old(store.NextFails()) && doomed == {} ==> r == Success(0) && store.log == old(store.log) + [Keys(UserKeyPrefix(userId) + "*")])
        && (!old(store.NextFails()) && doomed != {} ==>
              store.log == old(store.log) + [Keys(UserKeyPrefix(userId) + "*"), Del(doomed)]
              && (r.Failure? <==> |old(store.log)| + 1 in store.failing))
    {
      var found := store.KeysMatching(UserKeyPrefix(userId));
      if found.Failure? {
        return Failure(found.error);
      }
      var keys := found.value;
      if keys == {} {
        return Success(0);
      }
      assert keys * old(store.entries).Keys == keys;
      var deleted := store.Delete(keys);
      match deleted
      case Failure(e) => r := Failure(e);
      case Success(n) => r := Success(n);
    }

    /** invalidate: DEL of the one derived key; true exactly when that key was stored. */
    method Invalidate(userId: Int32, p: Pageable) returns (r: Result<bool, Error>)
      modifies store
      ensures var key := CacheKey(md, userId, p);
        && store.log == old(store.log) + [Del({key})]
        && (old(store.NextFails()) ==> r == Failure(StoreError(store.failureMessage)) && store.entries == old(store.entries))
        && (!old(store.NextFails()) ==> r == Success(key in old(store.entries)) && store.entries == old(store.entries) - {key})
    {
      var cacheKey := GenerateCacheKey(md, userId, p);
      var deleted := store.Delete({cacheKey});
      match deleted
      case Failure(e) => r := Failure(e);
      case Success(n) =>
        assert n > 0 <==> cacheKey in old(store.entries) by {
          if cacheKey in old(store.entries) {
            assert {cacheKey} * old(store.entries).Keys == {cacheKey};
          } else {
            assert {cacheKey} * old(store.entries).Keys == {};
          }
        }
        r := Success(n > 0);
    }

    /** getOrFetch: GET; on a hit return it; on a miss ask the supplier and SETEX a non-null answer for DEFAULT_TTL. */
    method GetOrFetch(userId: Int32, p: Pageable, supplier: Supplier<T>) returns (r: Result<Option<PagedResult<T>>, Error>)
      modifies store, supplier
      ensures var o := GetOrFetchSpec(md, codec, old(store.entries), |old(store.log)|, store.failing, store.failureMessage,
                                      userId, p, supplier.answer);
        && r == o.result && store.entries == o.entries && store.log == old(store.log) + o.commands
        && supplier.calls == old(supplier.calls) + (if o.supplierCalled then 1 else 0)
    {
      var cached := Get(userId, p);
      if cached.Failure? || cached.value.Some? {
        return cached;
      }
      var answer := supplier.Get();
      if answer.Failure? || answer.value.None? {
        return answer;
      }
      var stored := Set(userId, p, answer.value.value, DEFAULT_TTL_SECONDS);
      if stored.Failure? {
        return Failure(stored.error);
      }
      r := answer;
    }
  }
}

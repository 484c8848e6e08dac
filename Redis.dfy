/**
 * The part of a Redis server the cache adapter talks to: a key-to-string store with a time to live
 * per key, driven by GET, SETEX, KEYS and DEL. Every command issued is appended to a log; the
 * connection may fail on chosen commands (by their position in the log), and a failed command
 * changes nothing. Expiry itself is not modelled: the TTL is stored with the value.
 */
module Redis {
  import opened Wrappers
  import opened Errors

  datatype Entry = Entry(value: string, ttlSeconds: int)

  datatype Command =
    | Get(key: string)
    | SetEx(key: string, seconds: int, value: string)
    | Keys(pattern: string)
    | Del(keys: set<string>)

  predicate StartsWith(s: string, prefix: string)
  {
    |prefix| <= |s| && s[..|prefix|] == prefix
  }

  /** The keys KEYS "prefix*" reports, for a prefix without glob metacharacters. */
  function KeysWithPrefix(entries: map<string, Entry>, prefix: string): (ks: set<string>)
    ensures forall k :: k in ks <==> k in entries && StartsWith(k, prefix)
  {
    set k | k in entries && StartsWith(k, prefix)
  }

  /** The value GET returns: None for a missing key. */
  function GetValue(entries: map<string, Entry>, key: string): (v: Option<string>)
    ensures v.Some? <==> key in entries
    ensures v.Some? ==> v.value == entries[key].value
  {
    if key in entries then Some(entries[key].value) else None
  }

  /** The reply of SETEX to a non-positive expire time. */
  const INVALID_EXPIRE: string := "ERR invalid expire time in 'setex' command"

  class RedisStore {
    var entries: map<string, Entry>
    var log: seq<Command>
    /** Positions in the log at which the connection fails. */
    const failing: set<nat>
    const failureMessage: string

    constructor(entries0: map<string, Entry>, failing: set<nat>, failureMessage: string)
      ensures entries == entries0 && log == []
      ensures this.failing == failing && this.failureMessage == failureMessage
    {
      entries := entries0;
      log := [];
      this.failing := failing;
      this.failureMessage := failureMessage;
    }

    /** Whether the next command fails on the connection. */
    predicate NextFails()
      reads this
    {
      |log| in failing
    }

    method Get(key: string) returns (r: Result<Option<string>, Error>)
      modifies this
      ensures log == old(log) + [Command.Get(key)] && entries == old(entries)
      ensures r == if old(NextFails()) then Failure(StoreError(failureMessage)) else Success(GetValue(entries, key))
    {
      r := if NextFails() then Failure(StoreError(failureMessage)) else Success(GetValue(entries, key));
      log := log + [Command.Get(key)];
    }

    /** SETEX key seconds value: stores the value with its TTL; a non-positive TTL is an error reply. */
    method SetEx(key: string, seconds: int, value: string) returns (r: Result<(), Error>)
      modifies this
      ensures log == old(log) + [Command.SetEx(key, seconds, value)]
      ensures old(NextFails()) ==> r == Failure(StoreError(failureMessage)) && entries == old(entries)
      ensures !old(NextFails()) && seconds <= 0 ==> r == Failure(StoreError(INVALID_EXPIRE)) && entries == old(entries)
      ensures !old(NextFails()) && seconds > 0 ==> r == Success(()) && entries == old(entries)[key := Entry(value, seconds)]
    {
      if NextFails() {
        r := Failure(StoreError(failureMessage));
      } else if seconds <= 0 {
        r := Failure(StoreError(INVALID_EXPIRE));
      } else {
        entries := entries[key := Entry(value, seconds)];
        r := Success(());
      }
      log := log + [Command.SetEx(key, seconds, value)];
    }

    /** KEYS prefix*: every stored key that starts with the prefix. */
    method KeysMatching(prefix: string) returns (r: Result<set<string>, Error>)
      modifies this
      ensures log == old(log) + [Keys(prefix + "*")] && entries == old(entries)
      ensures r == if old(NextFails()) then Failure(StoreError(failureMessage)) else Success(KeysWithPrefix(entries, prefix))
    {
      r := if NextFails() then Failure(StoreError(failureMessage)) else Success(KeysWithPrefix(entries, prefix));
      log := log + [Keys(prefix + "*")];
    }

    /** DEL k1 .. kn (at least one key): removes the keys and replies how many of them existed. */
    method Delete(keys: set<string>) returns (r: Result<nat, Error>)
      requires keys != {}
      modifies this
      ensures log == old(log) + [Del(keys)]
      ensures old(NextFails()) ==> r == Failure(StoreError(failureMessage)) && entries == old(entries)
      ensures !old(NextFails()) ==> r == Success(|keys * old(entries).Keys|) && entries == old(entries) - keys
    {
      if NextFails() {
        r := Failure(StoreError(failureMessage));
      } else {
        r := Success(|keys * entries.Keys|);
        entries := entries - keys;
      }
      log := log + [Del(keys)];
    }
  }
}

/** The etcd key-value store as the handlers see it from one request: a map from keys to
    values, the named write lock, and the calls made on it. Every call may fail as a remote
    call does; the caller says whether it fails with `fail`. The model assumes that a failed
    call changes nothing, although etcd can apply a request whose call reports an error. */
module Store {
  import opened Wrappers
  import opened Strings

  /** A remote call a handler makes; a request's `faults` name the calls that fail. */
  datatype Call = OpenSession | AcquireLock | Read | Commit | ReleaseLock | Write | Remove

  /** One entry of the store's call log. */
  datatype Op =
    | NewSession
    | Lock
    | Get(key: string)
    | GetPrefix(prefix: string)
    | PutIfAbsent(key: string)
    | Put(key: string)
    | DeletePrefix(prefix: string)
    | Unlock
    | CloseSession

  /** The keys a prefix Get or a prefix Delete selects. */
  function KeysWithPrefix(data: map<string, string>, p: string): (keys: set<string>)
    ensures forall k :: k in keys <==> k in data && HasPrefix(k, p)
  {
    set k | k in data && HasPrefix(k, p)
  }

  /** The store after a prefix Delete. */
  function WithoutPrefix(data: map<string, string>, p: string): (rest: map<string, string>)
    ensures rest.Keys == data.Keys - KeysWithPrefix(data, p)
    ensures forall k :: k in rest ==> rest[k] == data[k]
  {
    map k | k in data && !HasPrefix(k, p) :: data[k]
  }

  /** A transaction `If(CreateRevision(key) = 0).Then(Put(key, value))`: the key is written
      only when it has never been created, that is, when it is absent. */
  function CreateIfAbsent(data: map<string, string>, key: string, value: string): map<string, string>
  {
    if key in data then data else data[key := value]
  }

  /** A guarded create never changes nor removes a binding that exists, and it binds `key` to
      `value` exactly when `key` was absent. */
  lemma CreateIfAbsentNeverOverwrites(data: map<string, string>, key: string, value: string)
    ensures var after := CreateIfAbsent(data, key, value);
      && (forall k :: k in data ==> k in after && after[k] == data[k])
      && after.Keys == data.Keys + {key}
      && (key !in data ==> after[key] == value)
  {
  }

  /** After a prefix Delete no key with the prefix is left. */
  lemma WithoutPrefixClears(data: map<string, string>, p: string)
    ensures KeysWithPrefix(WithoutPrefix(data, p), p) == {}
  {
  }

  /** `keys` lists the set `s`, each member once. */
  ghost predicate Lists(keys: seq<string>, s: set<string>)
  {
    && (forall i, j :: 0 <= i < j < |keys| ==> keys[i] != keys[j])
    && (forall k :: k in keys <==> k in s)
  }

  /** A listing has as many entries as the set has members. */
  lemma {:induction false} ListsSize(keys: seq<string>, s: set<string>)
    requires Lists(keys, s)
    ensures |keys| == |s|
    decreases |keys|
  {
    if keys != [] {
      var k := keys[|keys| - 1];
      var front := keys[..|keys| - 1];
      assert k !in front;
      assert Lists(front, s - {k}) by {
        forall x ensures x in front <==> x in s - {k} {
          if x in keys && x != k {
            var i :| 0 <= i < |keys| && keys[i] == x;
            assert i < |keys| - 1;
            assert front[i] == x;
          }
        }
      }
      ListsSize(front, s - {k});
    }
  }

  class Etcd {
    var data: map<string, string>
    var lockHeld: bool
    ghost var log: seq<Op>

    constructor ()
      ensures data == map[] && !lockHeld && log == []
    {
      data := map[];
      lockHeld := false;
      log := [];
    }

    /** concurrency.NewSession: opens the session that owns the lock (a lease). */
    method NewSession(fail: bool) returns (err: bool)
      modifies this`log
      ensures err == fail && log == old(log) + [Op.NewSession]
    {
      err := fail;
      log := log + [Op.NewSession];
    }

    /** Mutex.Lock on the single write lock. One request runs at a time, so the lock is free
        when it is asked for. */
    method Lock(fail: bool) returns (err: bool)
      requires !lockHeld
      modifies this`lockHeld, this`log
      ensures err == fail && lockHeld == !fail && log == old(log) + [Op.Lock]
    {
      err := fail;
      lockHeld := !fail;
      log := log + [Op.Lock];
    }

    /** Mutex.Unlock. */
    method Unlock(fail: bool) returns (err: bool)
      modifies this`lockHeld, this`log
      ensures err == fail && lockHeld == (old(lockHeld) && fail) && log == old(log) + [Op.Unlock]
    {
      err := fail;
      lockHeld := lockHeld && fail;
      log := log + [Op.Unlock];
    }

    /** Session.Close: revoking the session's lease releases any lock it holds. */
    method CloseSession()
      modifies this`lockHeld, this`log
      ensures !lockHeld && log == old(log) + [Op.CloseSession]
    {
      lockHeld := false;
      log := log + [Op.CloseSession];
    }

    /** A point Get: the stored value, if any. */
    method Get(key: string, fail: bool) returns (err: bool, value: Option<string>)
      modifies this`log
      ensures err == fail && log == old(log) + [Op.Get(key)]
      ensures !err ==> (value.Some? <==> key in data) && (key in data ==> value == Some(data[key]))
    {
      err := fail;
      value := if key in data then Some(data[key]) else None;
      log := log + [Op.Get(key)];
    }

    /** A Get WithPrefix: every key that begins with `p`, each once. */
    method GetPrefix(p: string, fail: bool) returns (err: bool, keys: seq<string>)
      modifies this`log
      ensures err == fail && log == old(log) + [Op.GetPrefix(p)]
      ensures !err ==> Lists(keys, KeysWithPrefix(data, p))
    {
      err := fail;
      keys := [];
      var rest := KeysWithPrefix(data, p);
      while rest != {}
        invariant rest <= KeysWithPrefix(data, p)
        invariant forall i, j :: 0 <= i < j < |keys| ==> keys[i] != keys[j]
        invariant forall k :: k in keys <==> k in KeysWithPrefix(data, p) - rest
        decreases rest
      {
        var k :| k in rest;
        assert k !in keys;
        keys := keys + [k];
        rest := rest - {k};
      }
      log := log + [Op.GetPrefix(p)];
    }

    /** A create-if-absent transaction; `succeeded` says whether its guard held. */
    method PutIfAbsent(key: string, value: string, fail: bool) returns (err: bool, succeeded: bool)
      modifies this`data, this`log
      ensures err == fail && log == old(log) + [Op.PutIfAbsent(key)]
      ensures data == if err then old(data) else CreateIfAbsent(old(data), key, value)
      ensures !err ==> succeeded == (key !in old(data))
    {
      err := fail;
      succeeded := key !in data;
      if !err {
        data := CreateIfAbsent(data, key, value);
      }
      log := log + [Op.PutIfAbsent(key)];
    }

    /** An unconditional Put. */
    method Put(key: string, value: string, fail: bool) returns (err: bool)
      modifies this`data, this`log
      ensures err == fail && log == old(log) + [Op.Put(key)]
      ensures data == if err then old(data) else old(data)[key := value]
    {
      err := fail;
      if !err {
        data := data[key := value];
      }
      log := log + [Op.Put(key)];
    }

    /** A Delete WithPrefix; `deleted` is how many keys it removed. */
    method DeletePrefix(p: string, fail: bool) returns (err: bool, deleted: nat)
      modifies this`data, this`log
      ensures err == fail && log == old(log) + [Op.DeletePrefix(p)]
      ensures data == if err then old(data) else WithoutPrefix(old(data), p)
      ensures !err ==> deleted == |KeysWithPrefix(old(data), p)|
    {
      err := fail;
      deleted := 0;
      if !err {
        deleted := |KeysWithPrefix(data, p)|;
        data := WithoutPrefix(data, p);
      }
      log := log + [Op.DeletePrefix(p)];
    }
  }
}

/** The crypts ledger: one disk-encryption key per (machine serial, disk path), kept in etcd at
    `path.Join(prefix, "crypts", serial, path)`, which is `<prefix>/crypts/<serial>/<path>` only
    when the names are clean: path.Join resolves ".." names of the disk path (see KeySpace).
    The handlers are GET, POST (create once, under the write lock) and DELETE, which is meant
    to remove every record of a serial but, as written, scans "/crypts/" + serial: that prefix
    ignores the configured prefix and has no closing "/" (see HandleCryptsDeleteScoped).

    Each handler is a method on EtcdClient that performs the store calls in the source's order;
    its contract ties the reply, the new store and the calls made to the functions GetReply,
    PostReply/PostStore/PostCalls and DeleteReply/DeleteStore/DeleteCalls, about which the
    lemmas below state what the ledger promises. */
module Crypts {
  import opened Wrappers
  import opened Strings
  import opened Paths
  import opened Store
  import opened Http

  /** The request and response body of GET and POST. */
  datatype CryptEntity = CryptEntity(path: string, key: string)

  /** One entry of the DELETE response. */
  datatype DeleteResponseEntity = DeleteResponseEntity(path: string)

  datatype Body =
    | ErrorBody(err: ErrorText)                      // respError
    | BareText(err: ErrorText)                       // w.Write with no status set
    | EntityBody(entity: CryptEntity)
    | DeletedBody(entities: seq<DeleteResponseEntity>)

  datatype Reply = Reply(status: int, body: Body)

  const EmptyPathError := "`diskPath` should not be empty"
  const EmptyKeyError := "`key` should not be empty"
  const DeleteNotFoundError := "target not found"
  const DeleteFailedError := "failed to delete"

  function NotFoundError(target: string): string { "target " + target + " not found" }
  function ExistsError(target: string): string { "target " + target + " exists" }

  /** govalidator.IsNull: the empty string. */
  predicate IsNull(s: string) { |s| == 0 }

  /** The key of one record, as GET and POST build it: path.Join(prefix, "crypts", serial, path).
      It is never empty, and it is rooted exactly when the prefix is: with the empty prefix
      the key is relative. */
  function CryptKey(prefix: string, serial: string, diskPath: string): (key: string)
    ensures key != ""
    ensures key[0] == '/' <==> prefix != "" && prefix[0] == '/'
  {
    var elems := [prefix, "crypts", serial, diskPath];
    assert elems[1] == "crypts" && elems[1][0] == 'c';
    Join(elems)
  }

  /** The prefix DELETE scans and deletes, as written: "/crypts/" followed by the serial and
      nothing else, so neither the configured prefix nor a closing "/". */
  function DeleteScanPrefix(serial: string): (p: string)
    ensures HasPrefix(p, "/crypts/") && p[|"/crypts/"|..] == serial
  {
    "/crypts/" + serial
  }

  /** The prefix that holds exactly one serial's records under the configured prefix:
      path.Join(prefix, "crypts", serial) + "/". */
  function SerialKeyPrefix(prefix: string, serial: string): string
  {
    Join([prefix, "crypts", serial]) + "/"
  }

  /** makeDeleteResponse, as a specification: one entry per key, in the order given. */
  function DeleteResponseOf(keys: seq<string>): (entities: seq<DeleteResponseEntity>)
    ensures |entities| == |keys|
    ensures forall i :: 0 <= i < |keys| ==> entities[i].path == keys[i]
  {
    if keys == [] then [] else [DeleteResponseEntity(keys[0])] + DeleteResponseOf(keys[1..])
  }

  /** makeDeleteResponse: appends one entity per scanned key. */
  method MakeDeleteResponse(keys: seq<string>) returns (entities: seq<DeleteResponseEntity>)
    ensures entities == DeleteResponseOf(keys)
  {
    entities := [];
    var i := 0;
    while i < |keys|
      invariant 0 <= i <= |keys|
      invariant |entities| == i
      invariant forall j :: 0 <= j < i ==> entities[j].path == keys[j]
    {
      entities := entities + [DeleteResponseEntity(keys[i])];
      i := i + 1;
    }
  }

  // ---------------------------------------------------------------- GET

  /** handleCryptsGet's reply. */
  function GetReply(data: map<string, string>, prefix: string, serial: string, diskPath: string,
                    faults: set<Call>): Reply
  {
    var target := CryptKey(prefix, serial, diskPath);
    if Read in faults then Reply(StatusInternalServerError, ErrorBody(Reported))
    else if target !in data then Reply(StatusNotFound, ErrorBody(Says(NotFoundError(target))))
    else Reply(StatusOK, EntityBody(CryptEntity(diskPath, data[target])))
  }

  // ---------------------------------------------------------------- POST

  /** A decoded body that passes validation: both fields non-empty. */
  predicate Acceptable(body: Option<CryptEntity>)
  {
    body.Some? && !IsNull(body.value.path) && !IsNull(body.value.key)
  }

  /** The reply of the part of handleCryptsPost that runs once a session is asked for. */
  function SessionReply(data: map<string, string>, target: string, e: CryptEntity,
                        faults: set<Call>): Reply
  {
    if OpenSession in faults || AcquireLock in faults then Reply(StatusInternalServerError, ErrorBody(Reported))
    else if Read in faults then Reply(StatusOK, BareText(Reported))
    else if target in data then Reply(StatusBadRequest, ErrorBody(Says(ExistsError(target))))
    else if Commit in faults || ReleaseLock in faults then Reply(StatusInternalServerError, ErrorBody(Reported))
    else Reply(StatusCreated, EntityBody(e))
  }

  /** Whether the create-if-absent transaction is committed. */
  predicate SessionCommits(data: map<string, string>, target: string, faults: set<Call>)
  {
    OpenSession !in faults && AcquireLock !in faults && Read !in faults && target !in data
    && Commit !in faults
  }

  function SessionStore(data: map<string, string>, target: string, e: CryptEntity,
                        faults: set<Call>): map<string, string>
  {
    if SessionCommits(data, target, faults) then CreateIfAbsent(data, target, e.key) else data
  }

  /** The store calls between opening the session and its deferred Close. */
  function SessionCalls(data: map<string, string>, target: string, faults: set<Call>): seq<Op>
  {
    if OpenSession in faults then []
    else if AcquireLock in faults then [Op.Lock]
    else if Read in faults || target in data then [Op.Lock, Op.Get(target)]
    else if Commit in faults then [Op.Lock, Op.Get(target), Op.PutIfAbsent(target)]
    else [Op.Lock, Op.Get(target), Op.PutIfAbsent(target), Op.Unlock]
  }

  /** Whether the lock is still held when the session's body returns, so that only the
      deferred Close releases it. */
  predicate SessionLeavesLock(data: map<string, string>, target: string, faults: set<Call>)
  {
    OpenSession !in faults && AcquireLock !in faults
    && !(SessionCommits(data, target, faults) && ReleaseLock !in faults)
  }

  /** handleCryptsPost's reply. */
  function PostReply(data: map<string, string>, prefix: string, serial: string,
                     body: Option<CryptEntity>, faults: set<Call>): Reply
  {
    if body.None? then Reply(StatusInternalServerError, ErrorBody(Reported))
    else if IsNull(body.value.path) then Reply(StatusBadRequest, ErrorBody(Says(EmptyPathError)))
    else if IsNull(body.value.key) then Reply(StatusBadRequest, ErrorBody(Says(EmptyKeyError)))
    else SessionReply(data, CryptKey(prefix, serial, body.value.path), body.value, faults)
  }

  /** The store after handleCryptsPost. */
  function PostStore(data: map<string, string>, prefix: string, serial: string,
                     body: Option<CryptEntity>, faults: set<Call>): map<string, string>
  {
    if Acceptable(body) then SessionStore(data, CryptKey(prefix, serial, body.value.path), body.value, faults)
    else data
  }

  /** The store calls handleCryptsPost makes, in order. */
  function PostCalls(data: map<string, string>, prefix: string, serial: string,
                     body: Option<CryptEntity>, faults: set<Call>): seq<Op>
  {
    if Acceptable(body) then
      [Op.NewSession] + SessionCalls(data, CryptKey(prefix, serial, body.value.path), faults) + [Op.CloseSession]
    else []
  }

  /** The corrected POST: a disk path that is not one plain name (it holds a slash, or is "."
      or "..") is refused with 400, so path.Join cannot carry the record out of its serial's
      directory; any other request is handled as before. */
  predicate EscapingPath(body: Option<CryptEntity>)
  {
    Acceptable(body) && !Plain(body.value.path)
  }

  const PathNotNameError := "`diskPath` should be a single name"

  function GuardedPostReply(data: map<string, string>, prefix: string, serial: string,
                            body: Option<CryptEntity>, faults: set<Call>): Reply
  {
    if EscapingPath(body) then Reply(StatusBadRequest, ErrorBody(Says(PathNotNameError)))
    else PostReply(data, prefix, serial, body, faults)
  }

  function GuardedPostStore(data: map<string, string>, prefix: string, serial: string,
                            body: Option<CryptEntity>, faults: set<Call>): map<string, string>
  {
    if EscapingPath(body) then data else PostStore(data, prefix, serial, body, faults)
  }

  function GuardedPostCalls(data: map<string, string>, prefix: string, serial: string,
                            body: Option<CryptEntity>, faults: set<Call>): seq<Op>
  {
    if EscapingPath(body) then [] else PostCalls(data, prefix, serial, body, faults)
  }

  // ---------------------------------------------------------------- DELETE

  /** The reply of a DELETE that scans and deletes prefix `p`; `listed` is the scan's result. */
  function DeleteReply(data: map<string, string>, p: string, faults: set<Call>, listed: seq<string>): Reply
    requires Read !in faults ==> Lists(listed, KeysWithPrefix(data, p))
  {
    if Read in faults then Reply(StatusInternalServerError, ErrorBody(Reported))
    else if |listed| == 0 then Reply(StatusNotFound, ErrorBody(Says(DeleteNotFoundError)))
    else if Remove in faults then Reply(StatusInternalServerError, ErrorBody(Reported))
    else if |KeysWithPrefix(data, p)| <= 0 then Reply(StatusInternalServerError, ErrorBody(Says(DeleteFailedError)))
    else Reply(StatusOK, DeletedBody(DeleteResponseOf(listed)))
  }

  /** Whether the prefix Delete is issued and succeeds. */
  predicate DeleteRemoves(data: map<string, string>, p: string, faults: set<Call>)
  {
    Read !in faults && KeysWithPrefix(data, p) != {} && Remove !in faults
  }

  function DeleteStore(data: map<string, string>, p: string, faults: set<Call>): map<string, string>
  {
    if DeleteRemoves(data, p, faults) then WithoutPrefix(data, p) else data
  }

  function DeleteCalls(data: map<string, string>, p: string, faults: set<Call>): seq<Op>
  {
    if Read in faults || KeysWithPrefix(data, p) == {} then [Op.GetPrefix(p)]
    else [Op.GetPrefix(p), Op.DeletePrefix(p)]
  }

  // ---------------------------------------------------------------- handlers

  /** The crypts handlers' receiver: the etcd client and the configured key prefix. */
  class EtcdClient {
    const client: Etcd
    const prefix: string

    constructor (client: Etcd, prefix: string)
      ensures this.client == client && this.prefix == prefix
    {
      this.client := client;
      this.prefix := prefix;
    }

    /** GET /crypts/{serial}/{path}. */
    method HandleCryptsGet(serial: string, diskPath: string, faults: set<Call>) returns (reply: Reply)
      modifies client`log
      ensures reply == GetReply(client.data, prefix, serial, diskPath, faults)
      ensures client.log == old(client.log) + [Op.Get(CryptKey(prefix, serial, diskPath))]
    {
      var target := CryptKey(prefix, serial, diskPath);
      var err, value := client.Get(target, Read in faults);
      if err {
        return Reply(StatusInternalServerError, ErrorBody(Reported));
      }
      if value.None? {
        return Reply(StatusNotFound, ErrorBody(Says(NotFoundError(target))));
      }
      reply := Reply(StatusOK, EntityBody(CryptEntity(diskPath, value.value)));
    }

    /** POST /crypts/{serial}; `body` is the decoded request body, None when it does not
        decode. The lock is free when a request starts and free again when it returns. */
    method HandleCryptsPost(serial: string, body: Option<CryptEntity>, faults: set<Call>) returns (reply: Reply)
      requires !client.lockHeld
      modifies client
      ensures reply == PostReply(old(client.data), prefix, serial, body, faults)
      ensures client.data == PostStore(old(client.data), prefix, serial, body, faults)
      ensures client.log == old(client.log) + PostCalls(old(client.data), prefix, serial, body, faults)
      ensures !client.lockHeld
    {
      if body.None? {
        return Reply(StatusInternalServerError, ErrorBody(Reported));
      }
      var e := body.value;
      if IsNull(e.path) {
        return Reply(StatusBadRequest, ErrorBody(Says(EmptyPathError)));
      }
      if IsNull(e.key) {
        return Reply(StatusBadRequest, ErrorBody(Says(EmptyKeyError)));
      }
      var sessionErr := client.NewSession(OpenSession in faults);
      reply := PostInSession(serial, e, faults, sessionErr);
      client.CloseSession();  // the deferred s.Close()
    }

    /** POST /crypts/{serial} with the disk path checked to be one plain name before the
        session is opened. */
    method HandleCryptsPostGuarded(serial: string, body: Option<CryptEntity>, faults: set<Call>)
      returns (reply: Reply)
      requires !client.lockHeld
      modifies client
      ensures reply == GuardedPostReply(old(client.data), prefix, serial, body, faults)
      ensures client.data == GuardedPostStore(old(client.data), prefix, serial, body, faults)
      ensures client.log == old(client.log) + GuardedPostCalls(old(client.data), prefix, serial, body, faults)
      ensures !client.lockHeld
    {
      if body.Some? && !IsNull(body.value.path) && !IsNull(body.value.key) && !Plain(body.value.path) {
        return Reply(StatusBadRequest, ErrorBody(Says(PathNotNameError)));
      }
      reply := HandleCryptsPost(serial, body, faults);
    }

    /** The body of handleCryptsPost from the session's creation to its deferred Close. */
    method PostInSession(serial: string, e: CryptEntity, faults: set<Call>, sessionErr: bool)
      returns (reply: Reply)
      requires !client.lockHeld && sessionErr == (OpenSession in faults)
      modifies client
      ensures var target := CryptKey(prefix, serial, e.path);
        && reply == SessionReply(old(client.data), target, e, faults)
        && client.data == SessionStore(old(client.data), target, e, faults)
        && client.log == old(client.log) + SessionCalls(old(client.data), target, faults)
        && client.lockHeld == SessionLeavesLock(old(client.data), target, faults)
    {
      if sessionErr {
        return Reply(StatusInternalServerError, ErrorBody(Reported));
      }
      var err := client.Lock(AcquireLock in faults);
      if err {
        return Reply(StatusInternalServerError, ErrorBody(Reported));
      }

      // Prohibit overwriting
      var target := CryptKey(prefix, serial, e.path);
      var prev;
      err, prev := client.Get(target, Read in faults);
      if err {
        return Reply(StatusOK, BareText(Reported));
      }
      if prev.Some? {
        return Reply(StatusBadRequest, ErrorBody(Says(ExistsError(target))));
      }

      var succeeded;
      err, succeeded := client.PutIfAbsent(target, e.key, Commit in faults);
      if err {
        return Reply(StatusInternalServerError, ErrorBody(Reported));
      }

      err := client.Unlock(ReleaseLock in faults);
      if err {
        return Reply(StatusInternalServerError, ErrorBody(Reported));
      }
      reply := Reply(StatusCreated, EntityBody(e));
    }

    /** DELETE /crypts/{serial}, as written: scans and deletes DeleteScanPrefix(serial).
        `listed` is what the scan returned, in its order. */
    method HandleCryptsDelete(serial: string, faults: set<Call>) returns (reply: Reply, ghost listed: seq<string>)
      modifies client`data, client`log
      ensures var p := DeleteScanPrefix(serial);
        && (Read !in faults ==> Lists(listed, KeysWithPrefix(old(client.data), p)))
        && reply == DeleteReply(old(client.data), p, faults, listed)
        && client.data == DeleteStore(old(client.data), p, faults)
        && client.log == old(client.log) + DeleteCalls(old(client.data), p, faults)
    {
      reply, listed := DeleteUnder(DeleteScanPrefix(serial), faults);
    }

    /** DELETE /crypts/{serial} scoped to the serial's own records, SerialKeyPrefix. */
    method HandleCryptsDeleteScoped(serial: string, faults: set<Call>) returns (reply: Reply, ghost listed: seq<string>)
      modifies client`data, client`log
      ensures var p := SerialKeyPrefix(prefix, serial);
        && (Read !in faults ==> Lists(listed, KeysWithPrefix(old(client.data), p)))
        && reply == DeleteReply(old(client.data), p, faults, listed)
        && client.data == DeleteStore(old(client.data), p, faults)
        && client.log == old(client.log) + DeleteCalls(old(client.data), p, faults)
    {
      reply, listed := DeleteUnder(SerialKeyPrefix(prefix, serial), faults);
    }

    /** handleCryptsDelete's steps for the scanned and deleted prefix `p`. */
    method DeleteUnder(p: string, faults: set<Call>) returns (reply: Reply, ghost listed: seq<string>)
      modifies client`data, client`log
      ensures Read !in faults ==> Lists(listed, KeysWithPrefix(old(client.data), p))
      ensures reply == DeleteReply(old(client.data), p, faults, listed)
      ensures client.data == DeleteStore(old(client.data), p, faults)
      ensures client.log == old(client.log) + DeleteCalls(old(client.data), p, faults)
    {
      var err, keys := client.GetPrefix(p, Read in faults);
      listed := keys;
      if err {
        return Reply(StatusInternalServerError, ErrorBody(Reported)), listed;
      }
      ListsSize(keys, KeysWithPrefix(client.data, p));
      if |keys| == 0 {
        return Reply(StatusNotFound, ErrorBody(Says(DeleteNotFoundError))), listed;
      }

      var deleted;
      err, deleted := client.DeletePrefix(p, Remove in faults);
      if err {
        return Reply(StatusInternalServerError, ErrorBody(Reported)), listed;
      }
      if deleted <= 0 {
        return Reply(StatusInternalServerError, ErrorBody(Says(DeleteFailedError))), listed;
      }

      var entities := MakeDeleteResponse(keys);
      reply := Reply(StatusOK, DeletedBody(entities));
    }
  }
}

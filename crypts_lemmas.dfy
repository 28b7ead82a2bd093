/** What the crypts handlers promise, stated over the functions their methods are proved
    against: create-once, no overwrite, the lock discipline, delete-all, and the two ways the
    DELETE prefix as written differs from the keys POST creates. */
module CryptsLemmas {
  import opened Wrappers
  import opened Strings
  import opened Paths
  import opened Store
  import opened Http
  import opened Crypts

  // ---------------------------------------------------------------- keys

  /** With a rooted prefix of plain names, a record's key is <prefix>/crypts/<serial>/<path>. */
  lemma CryptKeyUnderRoot(ps: seq<string>, serial: string, diskPath: string)
    requires AllPlain(ps) && Plain(serial) && Plain(diskPath)
    ensures CryptKey(Rooted(ps), serial, diskPath) == Rooted(ps + ["crypts", serial, diskPath])
  {
    JoinUnderRoot(ps, ["crypts", serial, diskPath]);
    assert [Rooted(ps)] + ["crypts", serial, diskPath] == [Rooted(ps), "crypts", serial, diskPath];
  }

  /** With the empty prefix, path.Join drops it and the key is relative: crypts/<serial>/<path>. */
  lemma CryptKeyWithoutPrefix(serial: string, diskPath: string)
    requires Plain(serial) && Plain(diskPath)
    ensures CryptKey("", serial, diskPath) == "crypts/" + serial + "/" + diskPath
  {
    JoinRelative(["crypts", serial, diskPath]);
    assert [""] + ["crypts", serial, diskPath] == ["", "crypts", serial, diskPath];
    JoinSlashThree("crypts", serial, diskPath);
  }

  /** A rooted path of two or more names begins with its first name. */
  lemma RootedFirstName(xs: seq<string>)
    requires |xs| >= 2
    ensures Rooted(xs) == "/" + (xs[0] + "/" + JoinSlash(xs[1..]))
  {
    assert xs == [xs[0]] + xs[1..];
    JoinSlashCat([xs[0]], xs[1..]);
  }

  /** Rooted paths of plain names are equal exactly when their names are. */
  lemma RootedInjective(xs: seq<string>, ys: seq<string>)
    requires AllPlain(xs) && AllPlain(ys)
    ensures Rooted(xs) == Rooted(ys) <==> xs == ys
  {
    NamesOfRooted(xs);
    NamesOfRooted(ys);
  }

  /** <prefix>/crypts/<serial> followed by more names splits at the serial. */
  lemma RootedSplitsAtCrypts(ps: seq<string>, rest: seq<string>)
    requires rest != []
    ensures Rooted(ps + ["crypts"] + rest) == Rooted(ps + ["crypts"]) + "/" + JoinSlash(rest)
  {
    JoinSlashCat(ps + ["crypts"], rest);
  }

  /** Under a rooted prefix, a record key is <prefix>/crypts followed by /<serial>/<path>. */
  lemma RecordKeyShape(ps: seq<string>, serial: string, diskPath: string)
    requires AllPlain(ps) && Plain(serial) && Plain(diskPath)
    ensures CryptKey(Rooted(ps), serial, diskPath) == Rooted(ps + ["crypts"]) + "/" + (serial + "/" + diskPath)
  {
    CryptKeyUnderRoot(ps, serial, diskPath);
    assert ps + ["crypts", serial, diskPath] == ps + ["crypts"] + [serial, diskPath];
    RootedSplitsAtCrypts(ps, [serial, diskPath]);
    assert JoinSlash([serial, diskPath]) == serial + "/" + diskPath;
  }

  /** Under a rooted prefix, the corrected scan prefix is <prefix>/crypts followed by /<serial>/. */
  lemma SerialKeyPrefixShape(ps: seq<string>, serial: string)
    requires AllPlain(ps) && Plain(serial)
    ensures SerialKeyPrefix(Rooted(ps), serial) == Rooted(ps + ["crypts"]) + "/" + (serial + "/")
  {
    JoinUnderRoot(ps, ["crypts", serial]);
    assert [Rooted(ps)] + ["crypts", serial] == [Rooted(ps), "crypts", serial];
    assert ps + ["crypts", serial] == ps + ["crypts"] + [serial];
    RootedSplitsAtCrypts(ps, [serial]);
  }

  /** The corrected scan prefix selects the records of one serial and no other: a record key
      of serial s2 begins with SerialKeyPrefix(prefix, s) exactly when s2 == s. */
  lemma ScopedPrefixSelectsSerial(ps: seq<string>, s: string, s2: string, d2: string)
    requires AllPlain(ps) && Plain(s) && Plain(s2) && Plain(d2)
    ensures HasPrefix(CryptKey(Rooted(ps), s2, d2), SerialKeyPrefix(Rooted(ps), s)) <==> s2 == s
  {
    var head := Rooted(ps + ["crypts"]) + "/";
    RecordKeyShape(ps, s2, d2);
    SerialKeyPrefixShape(ps, s);
    CommonHead(head, s2 + "/" + d2, s + "/");
    SeparatedNames(s, s2, d2);
  }

  // ---------------------------------------------------------------- GET and POST

  /** Without a read failure, GET answers 404 "target ... not found" exactly when the record is
      absent, and otherwise 200 with the requested path and the stored key. */
  lemma GetAnswers(data: map<string, string>, prefix: string, serial: string, diskPath: string)
    ensures var target := CryptKey(prefix, serial, diskPath);
      && (GetReply(data, prefix, serial, diskPath, {}).status == StatusNotFound <==> target !in data)
      && (target !in data ==> GetReply(data, prefix, serial, diskPath, {}).body
                              == ErrorBody(Says(NotFoundError(target))))
      && (target in data ==> GetReply(data, prefix, serial, diskPath, {})
                             == Reply(StatusOK, EntityBody(CryptEntity(diskPath, data[target]))))
  {
  }

  /** GET after a successful POST answers 200 with the posted path and key. */
  lemma GetAfterPost(data: map<string, string>, prefix: string, serial: string, e: CryptEntity,
                     faults: set<Call>)
    requires PostReply(data, prefix, serial, Some(e), faults).status == StatusCreated
    ensures GetReply(PostStore(data, prefix, serial, Some(e), faults), prefix, serial, e.path, {})
         == Reply(StatusOK, EntityBody(e))
  {
  }

  /** An undecodable body or an empty path or key is refused before the store or the lock is
      touched: the reply does not depend on the store, and nothing is called or written. */
  lemma PostValidatesFirst(data: map<string, string>, other: map<string, string>, prefix: string,
                           serial: string, body: Option<CryptEntity>, faults: set<Call>)
    requires !Acceptable(body)
    ensures PostReply(data, prefix, serial, body, faults) == PostReply(other, prefix, serial, body, {})
    ensures PostReply(data, prefix, serial, body, faults).status
         == if body.None? then StatusInternalServerError else StatusBadRequest
    ensures PostStore(data, prefix, serial, body, faults) == data
    ensures PostCalls(data, prefix, serial, body, faults) == []
  {
  }

  /** POST on a record that exists answers 400 "target ... exists" and writes nothing. */
  lemma PostExistingRefused(data: map<string, string>, prefix: string, serial: string,
                            e: CryptEntity, faults: set<Call>)
    requires Acceptable(Some(e)) && CryptKey(prefix, serial, e.path) in data
    requires OpenSession !in faults && AcquireLock !in faults && Read !in faults
    ensures PostReply(data, prefix, serial, Some(e), faults)
         == Reply(StatusBadRequest, ErrorBody(Says(ExistsError(CryptKey(prefix, serial, e.path)))))
    ensures PostStore(data, prefix, serial, Some(e), faults) == data
  {
  }

  /** Whatever the request and whatever fails, POST never changes nor removes a binding, and
      the only key it can add is the record's own. */
  lemma PostNeverOverwrites(data: map<string, string>, prefix: string, serial: string,
                            body: Option<CryptEntity>, faults: set<Call>)
    requires body.Some?
    ensures var after := PostStore(data, prefix, serial, body, faults);
      && (forall k :: k in data ==> k in after && after[k] == data[k])
      && after.Keys <= data.Keys + {CryptKey(prefix, serial, body.value.path)}
  {
    if Acceptable(body) {
      CreateIfAbsentNeverOverwrites(data, CryptKey(prefix, serial, body.value.path), body.value.key);
    }
  }

  /** A 201 means the record was absent and exactly that binding was added; the reply echoes
      the request. */
  lemma PostCreatedExactly(data: map<string, string>, prefix: string, serial: string,
                           body: Option<CryptEntity>, faults: set<Call>)
    requires PostReply(data, prefix, serial, body, faults).status == StatusCreated
    ensures Acceptable(body)
    ensures var target := CryptKey(prefix, serial, body.value.path);
      && target !in data
      && PostStore(data, prefix, serial, body, faults) == data[target := body.value.key]
      && PostReply(data, prefix, serial, body, faults).body == EntityBody(body.value)
  {
  }

  /** A failed Unlock after the commit answers 500 although the record was written. */
  lemma PostUnlockFailureAfterWrite(data: map<string, string>, prefix: string, serial: string,
                                    e: CryptEntity, faults: set<Call>)
    requires Acceptable(Some(e)) && SessionCommits(data, CryptKey(prefix, serial, e.path), faults)
    requires ReleaseLock in faults
    ensures PostReply(data, prefix, serial, Some(e), faults).status == StatusInternalServerError
    ensures PostStore(data, prefix, serial, Some(e), faults)
         == data[CryptKey(prefix, serial, e.path) := e.key]
  {
  }

  /** The lock discipline: the session is opened first and closed last; every read and write of
      the record comes after the lock is taken; Unlock is issued only once the record has been
      written; on every other path that took the lock, only the deferred Close releases it. */
  lemma PostLockDiscipline(data: map<string, string>, prefix: string, serial: string,
                           body: Option<CryptEntity>, faults: set<Call>)
    ensures var calls := PostCalls(data, prefix, serial, body, faults);
      && (calls != [] ==> calls[0] == Op.NewSession && calls[|calls| - 1] == Op.CloseSession)
      && (forall j :: 0 <= j < |calls| && (calls[j].Get? || calls[j].PutIfAbsent?) ==> Op.Lock in calls[..j])
      && (Op.Unlock in calls <==> PostStore(data, prefix, serial, body, faults) != data)
    ensures Acceptable(body) && OpenSession !in faults && AcquireLock !in faults
         && PostReply(data, prefix, serial, body, faults).status != StatusCreated
         ==> SessionLeavesLock(data, CryptKey(prefix, serial, body.value.path), faults)
  {
    var calls := PostCalls(data, prefix, serial, body, faults);
    if Acceptable(body) {
      var target := CryptKey(prefix, serial, body.value.path);
      var inner := SessionCalls(data, target, faults);
      assert calls == [Op.NewSession] + inner + [Op.CloseSession];
      forall j | 0 <= j < |calls| && (calls[j].Get? || calls[j].PutIfAbsent?)
        ensures Op.Lock in calls[..j]
      {
        assert j >= 2 && calls[1] == Op.Lock;
        assert calls[..j][1] == Op.Lock;
      }
      if SessionCommits(data, target, faults) {
        assert target !in data;
        assert PostStore(data, prefix, serial, body, faults)[target] == body.value.key;
      } else {
        assert Op.Unlock !in inner;
        assert Op.Unlock !in calls;
      }
    }
  }

  /** Creating the same record twice (the first request succeeding): the second request is
      refused with "exists" and the store keeps the first key as its single record. */
  lemma CreateOnce(data: map<string, string>, prefix: string, serial: string, e: CryptEntity,
                   e2: CryptEntity)
    requires Acceptable(Some(e)) && CryptKey(prefix, serial, e.path) !in data
    requires e2.path == e.path && e2.key != ""
    ensures var target := CryptKey(prefix, serial, e.path);
      var once := PostStore(data, prefix, serial, Some(e), {});
      && PostReply(data, prefix, serial, Some(e), {}).status == StatusCreated
      && PostReply(once, prefix, serial, Some(e2), {})
         == Reply(StatusBadRequest, ErrorBody(Says(ExistsError(target))))
      && PostStore(once, prefix, serial, Some(e2), {}) == once
      && once[target] == e.key
      && once.Keys == data.Keys + {target}
  {
  }

  // ---------------------------------------------------------------- DELETE

  /** A 200 DELETE removed every key with the prefix and nothing else, and its response lists
      those keys, each once, in the order of the scan. */
  lemma DeleteRemovesAll(data: map<string, string>, p: string, faults: set<Call>, listed: seq<string>)
    requires Lists(listed, KeysWithPrefix(data, p))
    requires DeleteReply(data, p, faults, listed).status == StatusOK
    ensures var after := DeleteStore(data, p, faults);
      && KeysWithPrefix(after, p) == {}
      && (forall k :: k in data && !HasPrefix(k, p) ==> k in after && after[k] == data[k])
      && after.Keys == data.Keys - KeysWithPrefix(data, p)
    ensures DeleteReply(data, p, faults, listed).body == DeletedBody(DeleteResponseOf(listed))
  {
    assert listed != [];
    WithoutPrefixClears(data, p);
  }

  /** All or nothing: a DELETE that does not answer 200 leaves the store as it was, and a
      404 means nothing had the prefix. */
  lemma DeleteAllOrNothing(data: map<string, string>, p: string, faults: set<Call>, listed: seq<string>)
    requires Read !in faults ==> Lists(listed, KeysWithPrefix(data, p))
    ensures DeleteReply(data, p, faults, listed).status != StatusOK ==> DeleteStore(data, p, faults) == data
    ensures DeleteReply(data, p, faults, listed).status == StatusNotFound ==> KeysWithPrefix(data, p) == {}
  {
    if Read !in faults && KeysWithPrefix(data, p) != {} {
      var k :| k in KeysWithPrefix(data, p);
      assert k in listed;
    }
  }

  /** Nothing to delete: when no key has the prefix, a DELETE whose scan succeeds answers 404
      "target not found" and leaves the store as it was. */
  lemma DeleteEmptyNotFound(data: map<string, string>, p: string, faults: set<Call>, listed: seq<string>)
    requires Read !in faults && Lists(listed, KeysWithPrefix(data, p)) && KeysWithPrefix(data, p) == {}
    ensures DeleteReply(data, p, faults, listed) == Reply(StatusNotFound, ErrorBody(Says(DeleteNotFoundError)))
    ensures DeleteStore(data, p, faults) == data
  {
    ListsSize(listed, {});
  }

  /** A second DELETE of the same prefix after a successful one answers 404. */
  lemma DeleteTwiceNotFound(data: map<string, string>, p: string, faults: set<Call>,
                            listed: seq<string>, listed2: seq<string>)
    requires Lists(listed, KeysWithPrefix(data, p))
    requires DeleteReply(data, p, faults, listed).status == StatusOK
    requires Lists(listed2, KeysWithPrefix(DeleteStore(data, p, faults), p))
    ensures DeleteReply(DeleteStore(data, p, faults), p, {}, listed2)
         == Reply(StatusNotFound, ErrorBody(Says(DeleteNotFoundError)))
  {
    DeleteRemovesAll(data, p, faults, listed);
    ListsSize(listed2, KeysWithPrefix(DeleteStore(data, p, faults), p));
  }

  // ---------------------------------------------------------------- DELETE as written

  /** As written, with the empty prefix POST's keys are relative ("crypts/...") and no DELETE
      scan ("/crypts/...") ever matches one. */
  lemma UnscopedDeleteMissesRelativeKeys(serial: string, diskPath: string, other: string)
    requires Plain(serial) && Plain(diskPath)
    ensures !HasPrefix(CryptKey("", serial, diskPath), DeleteScanPrefix(other))
  {
    CryptKeyWithoutPrefix(serial, diskPath);
    assert CryptKey("", serial, diskPath)[0] == 'c' && DeleteScanPrefix(other)[0] == '/';
  }

  /** As written, a record key under a prefix whose first name is not "crypts" (such as
      "/sabakan") never begins with the scan prefix "/crypts/..." of any serial. */
  lemma UnscopedScanMissesPrefixedKeys(ps: seq<string>, serial: string, diskPath: string, other: string)
    requires AllPlain(ps) && ps != [] && ps[0] != "crypts" && Plain(serial) && Plain(diskPath)
    ensures !HasPrefix(CryptKey(Rooted(ps), serial, diskPath), DeleteScanPrefix(other))
  {
    var xs := ps + ["crypts", serial, diskPath];
    CryptKeyUnderRoot(ps, serial, diskPath);
    RootedFirstName(xs);
    var rest := JoinSlash(xs[1..]);
    var key := CryptKey(Rooted(ps), serial, diskPath);
    assert xs[0] == ps[0];
    if HasPrefix(key, DeleteScanPrefix(other)) {
      PrefixOfPrefix(key, "/crypts/", other);
      assert "/crypts/" == "/" + "crypts/";
      CommonHead("/", ps[0] + "/" + rest, "crypts/");
      SeparatedNames("crypts", ps[0], rest);
    }
  }

  /** As written, DELETE scans "/crypts/<serial>" while POST creates
      "<prefix>/crypts/<serial>/<path>": under a prefix such as "/sabakan", a record just
      created is not found, the answer is 404, and the record stays. */
  lemma UnscopedDeleteMissesPostedRecord(data: map<string, string>, ps: seq<string>, serial: string,
                                         e: CryptEntity, listed: seq<string>)
    requires AllPlain(ps) && ps != [] && ps[0] != "crypts" && Plain(serial) && Plain(e.path)
    requires e.key != "" && CryptKey(Rooted(ps), serial, e.path) !in data
    requires KeysWithPrefix(data, DeleteScanPrefix(serial)) == {}
    ensures var posted := PostStore(data, Rooted(ps), serial, Some(e), {});
      && PostReply(data, Rooted(ps), serial, Some(e), {}).status == StatusCreated
      && KeysWithPrefix(posted, DeleteScanPrefix(serial)) == {}
      && (Lists(listed, KeysWithPrefix(posted, DeleteScanPrefix(serial))) ==>
            DeleteReply(posted, DeleteScanPrefix(serial), {}, listed)
            == Reply(StatusNotFound, ErrorBody(Says(DeleteNotFoundError))))
      && DeleteStore(posted, DeleteScanPrefix(serial), {}) == posted
      && posted[CryptKey(Rooted(ps), serial, e.path)] == e.key
  {
    var key := CryptKey(Rooted(ps), serial, e.path);
    UnscopedScanMissesPrefixedKeys(ps, serial, e.path, serial);
    var posted := PostStore(data, Rooted(ps), serial, Some(e), {});
    assert posted == data[key := e.key];
    assert KeysWithPrefix(posted, DeleteScanPrefix(serial)) == {};
    if Lists(listed, KeysWithPrefix(posted, DeleteScanPrefix(serial))) {
      ListsSize(listed, {});
    }
  }

  /** As written, the scan prefix has no closing "/": with the prefix "/", the scan for a
      serial such as "12" matches the record keys of every serial it begins, such as "123". */
  lemma UnscopedScanTakesLongerSerial(serial: string, longer: string, diskPath: string)
    requires Plain(serial) && Plain(longer) && Plain(diskPath) && HasPrefix(longer, serial)
    ensures HasPrefix(CryptKey(Rooted([]), longer, diskPath), DeleteScanPrefix(serial))
  {
    var tail := longer + "/" + diskPath;
    RecordKeyShape([], longer, diskPath);
    assert [] + ["crypts"] == ["crypts"];
    assert Rooted(["crypts"]) + "/" == "/crypts/";
    assert HasPrefix(tail, serial) by {
      assert tail[..|serial|] == longer[..|serial|];
    }
    CommonHead("/crypts/", tail, serial);
  }

  /** A DELETE whose prefix matches the only key of the store answers 200 naming that key
      and empties the store. */
  lemma DeleteOnlyKey(key: string, v: string, p: string)
    requires HasPrefix(key, p)
    ensures DeleteReply(map[key := v], p, {}, [key]) == Reply(StatusOK, DeletedBody([DeleteResponseEntity(key)]))
    ensures DeleteStore(map[key := v], p, {}) == map[]
  {
    assert KeysWithPrefix(map[key := v], p) == {key};
    assert Lists([key], {key});
    assert DeleteResponseOf([key]) == [DeleteResponseEntity(key)];
  }

  /** As written, with the prefix "/", deleting a serial such as "12" also deletes the records
      of every serial it begins, such as "123". */
  lemma UnscopedDeleteTakesLongerSerial(serial: string, longer: string, diskPath: string, v: string)
    requires Plain(serial) && Plain(longer) && Plain(diskPath) && HasPrefix(longer, serial)
    ensures var key := CryptKey(Rooted([]), longer, diskPath);
      var data := map[key := v];
      && HasPrefix(key, DeleteScanPrefix(serial))
      && DeleteReply(data, DeleteScanPrefix(serial), {}, [key])
         == Reply(StatusOK, DeletedBody([DeleteResponseEntity(key)]))
      && DeleteStore(data, DeleteScanPrefix(serial), {}) == map[]
  {
    UnscopedScanTakesLongerSerial(serial, longer, diskPath);
    DeleteOnlyKey(CryptKey(Rooted([]), longer, diskPath), v, DeleteScanPrefix(serial));
  }

  // ---------------------------------------------------------------- DELETE corrected

  /** Two records of one serial under different paths have different keys. */
  lemma RecordKeysDistinct(ps: seq<string>, serial: string, d1: string, d2: string)
    requires AllPlain(ps) && Plain(serial) && Plain(d1) && Plain(d2) && d1 != d2
    ensures CryptKey(Rooted(ps), serial, d1) != CryptKey(Rooted(ps), serial, d2)
  {
    RecordKeyShape(ps, serial, d1);
    RecordKeyShape(ps, serial, d2);
    DistinctTails(serial + "/", d1, d2);
    DistinctTails(Rooted(ps + ["crypts"]) + "/", serial + "/" + d1, serial + "/" + d2);
  }

  lemma DistinctTails(head: string, x: string, y: string)
    requires x != y
    ensures head + x != head + y
  {
    assert (head + x)[|head|..] == x && (head + y)[|head|..] == y;
  }

  /** Removing a prefix that held nothing before two keys with that prefix were added gives
      back the store as it was. */
  lemma RemoveAddedUnderPrefix(data: map<string, string>, p: string, k1: string, v1: string,
                               k2: string, v2: string)
    requires KeysWithPrefix(data, p) == {} && HasPrefix(k1, p) && HasPrefix(k2, p)
    ensures KeysWithPrefix(data[k1 := v1][k2 := v2], p) == {k1, k2}
    ensures WithoutPrefix(data[k1 := v1][k2 := v2], p) == data
  {
    var two := data[k1 := v1][k2 := v2];
    assert k1 !in KeysWithPrefix(data, p) && k2 !in KeysWithPrefix(data, p);
    assert k1 !in data && k2 !in data;
    assert WithoutPrefix(two, p).Keys == data.Keys;
  }

  /** Without faults, a POST of a non-empty path and key whose record is absent creates it
      and answers 201 echoing the body. */
  lemma PostFreshCreates(data: map<string, string>, prefix: string, serial: string, e: CryptEntity)
    requires e.path != "" && e.key != "" && CryptKey(prefix, serial, e.path) !in data
    ensures PostReply(data, prefix, serial, Some(e), {}) == Reply(StatusCreated, EntityBody(e))
    ensures PostStore(data, prefix, serial, Some(e), {}) == data[CryptKey(prefix, serial, e.path) := e.key]
  {
  }

  /** Two records of one serial under different paths, created one after the other into a
      store with nothing under that serial, are both created. */
  lemma CreateTwoUnderSerial(data: map<string, string>, ps: seq<string>, serial: string,
                             e1: CryptEntity, e2: CryptEntity)
    requires AllPlain(ps) && Plain(serial) && Plain(e1.path) && Plain(e2.path)
    requires e1.path != e2.path && e1.key != "" && e2.key != ""
    requires KeysWithPrefix(data, SerialKeyPrefix(Rooted(ps), serial)) == {}
    ensures var prefix := Rooted(ps);
      var k1 := CryptKey(prefix, serial, e1.path);
      var k2 := CryptKey(prefix, serial, e2.path);
      var one := PostStore(data, prefix, serial, Some(e1), {});
      && k1 != k2
      && HasPrefix(k1, SerialKeyPrefix(prefix, serial)) && HasPrefix(k2, SerialKeyPrefix(prefix, serial))
      && PostReply(data, prefix, serial, Some(e1), {}).status == StatusCreated
      && one == data[k1 := e1.key]
      && PostReply(one, prefix, serial, Some(e2), {}).status == StatusCreated
      && PostStore(one, prefix, serial, Some(e2), {}) == data[k1 := e1.key][k2 := e2.key]
  {
    var prefix := Rooted(ps);
    var p := SerialKeyPrefix(prefix, serial);
    var k1 := CryptKey(prefix, serial, e1.path);
    var k2 := CryptKey(prefix, serial, e2.path);
    ScopedPrefixSelectsSerial(ps, serial, serial, e1.path);
    ScopedPrefixSelectsSerial(ps, serial, serial, e2.path);
    RecordKeysDistinct(ps, serial, e1.path, e2.path);
    assert k1 !in KeysWithPrefix(data, p) && k2 !in KeysWithPrefix(data, p);
    PostFreshCreates(data, prefix, serial, e1);
    PostFreshCreates(data[k1 := e1.key], prefix, serial, e2);
  }

  /** Two records created for one serial, then a DELETE scoped to that serial: it answers
      200 listing both keys and no other, and the store is back to what it was. */
  lemma CreateTwoThenDeleteAll(data: map<string, string>, ps: seq<string>, serial: string,
                               e1: CryptEntity, e2: CryptEntity, listed: seq<string>)
    requires AllPlain(ps) && Plain(serial) && Plain(e1.path) && Plain(e2.path)
    requires e1.path != e2.path && e1.key != "" && e2.key != ""
    requires KeysWithPrefix(data, SerialKeyPrefix(Rooted(ps), serial)) == {}
    ensures var prefix := Rooted(ps);
      var p := SerialKeyPrefix(prefix, serial);
      var one := PostStore(data, prefix, serial, Some(e1), {});
      var two := PostStore(one, prefix, serial, Some(e2), {});
      && PostReply(data, prefix, serial, Some(e1), {}).status == StatusCreated
      && PostReply(one, prefix, serial, Some(e2), {}).status == StatusCreated
      && KeysWithPrefix(two, p) == {CryptKey(prefix, serial, e1.path), CryptKey(prefix, serial, e2.path)}
      && DeleteStore(two, p, {}) == data
      && (Lists(listed, KeysWithPrefix(two, p)) ==>
            && DeleteReply(two, p, {}, listed).status == StatusOK
            && |listed| == 2)
  {
    var prefix := Rooted(ps);
    var p := SerialKeyPrefix(prefix, serial);
    var k1 := CryptKey(prefix, serial, e1.path);
    var k2 := CryptKey(prefix, serial, e2.path);
    CreateTwoUnderSerial(data, ps, serial, e1, e2);
    var two := data[k1 := e1.key][k2 := e2.key];
    RemoveAddedUnderPrefix(data, p, k1, e1.key, k2, e2.key);
    if Lists(listed, KeysWithPrefix(two, p)) {
      ListsSize(listed, {k1, k2});
    }
  }
}

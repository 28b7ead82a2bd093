/** The crypts records and the configuration share one etcd key space under the configured
    prefix. POST /crypts takes the disk path from the request body and path.Join cleans it,
    so a path with ".." names climbs out of `<prefix>/crypts/<serial>` to any key under the
    prefix: the configuration record, or a key under `<prefix>/machines`, which freezes the
    configuration. The guarded POST, which accepts only a single plain name as disk path,
    keeps every record it creates inside its serial's directory. */
module KeySpace {
  import opened Wrappers
  import opened Strings
  import opened Paths
  import opened Store
  import opened Http
  import opened Crypts
  import opened CryptsLemmas
  import opened Configs
  import opened ConfigsLemmas

  // ---------------------------------------------------------------- as written

  /** The elements of the key of disk path "../../<xs>" joined with slashes: the prefix, then
      the names crypts, serial, "..", ".." and xs. */
  lemma TraversalJoined(r: string, serial: string, xs: seq<string>)
    requires xs != []
    ensures JoinSlash([r, "crypts", serial, "../../" + JoinSlash(xs)])
         == r + "/" + JoinSlash(["crypts", serial, "..", ".."] + xs)
  {
    var j := JoinSlash(xs);
    var d := "../../" + j;
    assert [r, "crypts", serial, d] == [r] + ["crypts", serial, d];
    JoinSlashFirst(r, ["crypts", serial, d]);
    JoinSlashThree("crypts", serial, d);
    assert ["crypts", serial, "..", ".."] + xs == ["crypts", serial] + (["..", ".."] + xs);
    JoinSlashCat(["crypts", serial], ["..", ".."] + xs);
    JoinSlashCat(["..", ".."], xs);
    JoinSlashTwo("crypts", serial);
    JoinSlashTwo("..", "..");
    assert d == (".." + "/" + "..") + "/" + j;
  }

  /** The names of that joined key. */
  lemma TraversalNames(ps: seq<string>, serial: string, xs: seq<string>)
    requires AllPlain(ps) && Plain(serial) && AllPlain(xs) && xs != []
    ensures Names(Rooted(ps) + "/" + JoinSlash(["crypts", serial, "..", ".."] + xs))
         == ps + (["crypts", serial, "..", ".."] + xs)
  {
    var t := ["crypts", serial, "..", ".."] + xs;
    assert forall i :: 4 <= i < |t| ==> t[i] == xs[i - 4];
    NamesCat(Rooted(ps), JoinSlash(t));
    NamesOfRooted(ps);
    NamesOfJoined(t);
  }

  /** Resolving those names: the two ".." names remove the serial and "crypts". */
  lemma TraversalResolves(ps: seq<string>, serial: string, xs: seq<string>)
    requires AllPlain(ps) && Plain(serial) && AllPlain(xs)
    ensures Resolve([], ps + (["crypts", serial, "..", ".."] + xs), true) == ps + xs
  {
    var front := ps + ["crypts", serial];
    assert AllPlain(["crypts", serial]);
    AllPlainCat(ps, ["crypts", serial]);
    assert ps + (["crypts", serial, "..", ".."] + xs) == front + ([".."] + ([".."] + xs));
    ResolvePlain([], front, [".."] + ([".."] + xs), true);
    assert [] + front == (ps + ["crypts"]) + [serial];
    ResolveUp(ps + ["crypts"], serial, [".."] + xs, true);
    ResolveUp(ps, "crypts", xs, true);
    ResolvePlain(ps, xs, [], true);
    assert xs + [] == xs;
  }

  /** As written, the disk path "../../<xs>" POSTed for any serial is stored at <prefix>/<xs>,
      outside the crypts directory. */
  lemma TraversalEscapesLedger(ps: seq<string>, serial: string, xs: seq<string>)
    requires AllPlain(ps) && Plain(serial) && AllPlain(xs) && xs != []
    ensures CryptKey(Rooted(ps), serial, "../../" + JoinSlash(xs)) == Rooted(ps + xs)
  {
    var r := Rooted(ps);
    var t := ["crypts", serial, "..", ".."] + xs;
    var p := r + "/" + JoinSlash(t);
    TraversalJoined(r, serial, xs);
    TraversalNames(ps, serial, xs);
    TraversalResolves(ps, serial, xs);
    assert p[0] == '/';
    assert Clean(p) == "/" + JoinSlash(ps + xs);
  }

  /** As written, the record of disk path "../../config" is the configuration record. */
  lemma TraversalReachesConfig(ps: seq<string>, serial: string)
    requires AllPlain(ps) && Plain(serial)
    ensures CryptKey(Rooted(ps), serial, "../../config") == ConfigKey(Rooted(ps))
  {
    assert "../../" + JoinSlash(["config"]) == "../../config";
    TraversalEscapesLedger(ps, serial, ["config"]);
    KeysUnderRoot(ps);
  }

  /** The key <prefix>/machines/<m> lies under the machines prefix. */
  lemma MachineKeyUnderMachines(ps: seq<string>, m: string)
    ensures HasPrefix(Rooted(ps + ["machines", m]), Rooted(ps + ["machines"]))
  {
    assert ps + ["machines", m] == (ps + ["machines"]) + [m];
    JoinSlashCat(ps + ["machines"], [m]);
  }

  /** As written, the record of disk path "../../machines/<m>" is a key under the machines
      prefix. */
  lemma TraversalReachesMachines(ps: seq<string>, serial: string, m: string)
    requires AllPlain(ps) && Plain(serial) && Plain(m)
    ensures HasPrefix(CryptKey(Rooted(ps), serial, "../../machines/" + m), MachinesKey(Rooted(ps)))
  {
    JoinSlashTwo("machines", m);
    assert "../../machines/" + m == "../../" + JoinSlash(["machines", m]);
    assert AllPlain(["machines", m]);
    TraversalEscapesLedger(ps, serial, ["machines", m]);
    MachineKeyUnderMachines(ps, m);
    KeysUnderRoot(ps);
  }

  /** As written, a crypts POST of disk path "../../machines/<m>" into a store with no
      machines answers 201 and creates a key under <prefix>/machines; from then on every
      POST /config is refused with 403. */
  lemma TraversalFreezesConfig(data: map<string, string>, ps: seq<string>, serial: string, m: string,
                               key: string, body: Option<Config>, parseCIDR: string -> bool,
                               marshal: Config -> Option<string>)
    requires AllPlain(ps) && Plain(serial) && Plain(m) && key != ""
    requires !MachinesExist(data, Rooted(ps))
    ensures var e := CryptEntity("../../machines/" + m, key);
      && PostReply(data, Rooted(ps), serial, Some(e), {}) == Crypts.Reply.Reply(StatusCreated, EntityBody(e))
      && MachinesExist(PostStore(data, Rooted(ps), serial, Some(e), {}), Rooted(ps))
      && PostConfigReply(PostStore(data, Rooted(ps), serial, Some(e), {}), Rooted(ps), body, parseCIDR, marshal, {})
         == Configs.Reply.Reply(StatusForbidden, Configs.Body.ErrorBody(Says(ErrorMachinesExist)))
  {
    var e := CryptEntity("../../machines/" + m, key);
    var target := CryptKey(Rooted(ps), serial, e.path);
    var machines := MachinesKey(Rooted(ps));
    TraversalReachesMachines(ps, serial, m);
    assert target !in KeysWithPrefix(data, machines);
    PostFreshCreates(data, Rooted(ps), serial, e);
    var after := PostStore(data, Rooted(ps), serial, Some(e), {});
    assert target in KeysWithPrefix(after, machines);
    ConfigFrozen(after, Rooted(ps), body, parseCIDR, marshal, {});
  }

  // ---------------------------------------------------------------- corrected

  /** <prefix>/crypts/<serial>/<path> and <prefix>/config have different names. */
  lemma RecordNamesAreNotConfig(ps: seq<string>, serial: string, d: string)
    requires AllPlain(ps) && Plain(serial) && Plain(d)
    ensures Rooted(ps + ["crypts", serial, d]) != Rooted(ps + ["config"])
  {
    var names := ps + ["crypts", serial, d];
    var config := ps + ["config"];
    assert AllPlain(["crypts", serial, d]) && AllPlain(["config"]);
    AllPlainCat(ps, ["crypts", serial, d]);
    AllPlainCat(ps, ["config"]);
    assert |names| != |config|;
    RootedInjective(names, config);
  }

  /** A record key of a plain disk path is not the configuration record. */
  lemma ContainedKeyIsNotConfig(ps: seq<string>, serial: string, d: string)
    requires AllPlain(ps) && Plain(serial) && Plain(d)
    ensures CryptKey(Rooted(ps), serial, d) != ConfigKey(Rooted(ps))
  {
    CryptKeyUnderRoot(ps, serial, d);
    KeysUnderRoot(ps);
    RecordNamesAreNotConfig(ps, serial, d);
  }

  /** A record key of a plain disk path does not lie under the machines prefix: after the
      configured prefix it continues with "crypts", not "machines". */
  lemma ContainedKeyIsNotMachine(ps: seq<string>, serial: string, d: string)
    requires AllPlain(ps) && Plain(serial) && Plain(d)
    ensures !HasPrefix(CryptKey(Rooted(ps), serial, d), MachinesKey(Rooted(ps)))
  {
    var head := if ps == [] then "/" else Rooted(ps) + "/";
    var tail := JoinSlash(["crypts", serial, d]);
    CryptKeyUnderRoot(ps, serial, d);
    KeysUnderRoot(ps);
    RootedCat(ps, ["crypts", serial, d]);
    RootedCat(ps, ["machines"]);
    JoinSlashThree("crypts", serial, d);
    assert tail[0] == 'c';
    assert JoinSlash(["machines"]) == "machines";
    CommonHead(head, tail, "machines");
  }

  /** The key of a plain disk path lies inside its serial's directory: it begins with the
      serial's prefix, it is not the configuration record, and it is not under the machines
      prefix. */
  lemma ContainedKeyStaysUnderSerial(ps: seq<string>, serial: string, d: string)
    requires AllPlain(ps) && Plain(serial) && Plain(d)
    ensures var k := CryptKey(Rooted(ps), serial, d);
      && HasPrefix(k, SerialKeyPrefix(Rooted(ps), serial))
      && k != ConfigKey(Rooted(ps))
      && !HasPrefix(k, MachinesKey(Rooted(ps)))
  {
    ScopedPrefixSelectsSerial(ps, serial, serial, d);
    ContainedKeyIsNotConfig(ps, serial, d);
    ContainedKeyIsNotMachine(ps, serial, d);
  }

  /** The guarded POST changes no existing binding, and a key it adds lies inside the
      serial's directory, so it neither writes the configuration record nor registers a
      machine: whether machines exist and whether a configuration is stored are unchanged. */
  lemma GuardedPostStaysInLedger(data: map<string, string>, ps: seq<string>, serial: string,
                                 body: Option<CryptEntity>, faults: set<Call>)
    requires AllPlain(ps) && Plain(serial)
    ensures var after := GuardedPostStore(data, Rooted(ps), serial, body, faults);
      && (forall k :: k in data ==> k in after && after[k] == data[k])
      && (forall k :: k in after && k !in data ==>
            && HasPrefix(k, SerialKeyPrefix(Rooted(ps), serial))
            && k != ConfigKey(Rooted(ps))
            && !HasPrefix(k, MachinesKey(Rooted(ps))))
      && (MachinesExist(after, Rooted(ps)) <==> MachinesExist(data, Rooted(ps)))
      && (ConfigKey(Rooted(ps)) in after <==> ConfigKey(Rooted(ps)) in data)
  {
    var after := GuardedPostStore(data, Rooted(ps), serial, body, faults);
    if !EscapingPath(body) && Acceptable(body) {
      PostNeverOverwrites(data, Rooted(ps), serial, body, faults);
      ContainedKeyStaysUnderSerial(ps, serial, body.value.path);
      assert KeysWithPrefix(after, MachinesKey(Rooted(ps))) == KeysWithPrefix(data, MachinesKey(Rooted(ps)));
    }
  }
}

/** What the config handlers promise, stated over the functions their methods are proved
    against: frozen once machines exist, nothing written for a bad body, only the config key
    written otherwise, GET reads back what POST stored, and posting again stays possible. */
module ConfigsLemmas {
  import opened Wrappers
  import opened Strings
  import opened Paths
  import opened Store
  import opened Http
  import opened Configs

  // ---------------------------------------------------------------- keys

  /** The length of a rooted path grows by exactly the last name and, after the root, a slash. */
  lemma RootedLength(ps: seq<string>, x: string)
    ensures |Rooted(ps + [x])| == |Rooted(ps)| + |x| + (if ps == [] then 0 else 1)
  {
    if ps == [] {
      assert ps + [x] == [x];
    } else {
      JoinSlashCat(ps, [x]);
    }
  }

  /** Under a rooted prefix of plain names, the config key is <prefix>/config and the machines
      prefix is <prefix>/machines. */
  lemma KeysUnderRoot(ps: seq<string>)
    requires AllPlain(ps)
    ensures ConfigKey(Rooted(ps)) == Rooted(ps + ["config"])
    ensures MachinesKey(Rooted(ps)) == Rooted(ps + ["machines"])
  {
    assert EtcdKeyConfig == "/" + "config";
    assert EtcdKeyMachines == "/" + "machines";
    JoinUnderRootAbsolute(ps, "config");
    JoinUnderRootAbsolute(ps, "machines");
  }

  /** The config key does not lie under the machines prefix: it is shorter. */
  lemma ConfigKeyOutsideMachines(ps: seq<string>)
    requires AllPlain(ps)
    ensures !HasPrefix(ConfigKey(Rooted(ps)), MachinesKey(Rooted(ps)))
  {
    KeysUnderRoot(ps);
    RootedLength(ps, "config");
    RootedLength(ps, "machines");
  }

  // ---------------------------------------------------------------- POST

  /** Once a key lies under the machines prefix, every POST is refused with 403 and writes
      nothing, whatever its body, even one that does not decode. */
  lemma ConfigFrozen(data: map<string, string>, prefix: string, body: Option<Config>,
                     parseCIDR: string -> bool, marshal: Config -> Option<string>, faults: set<Call>)
    requires Read !in faults && MachinesExist(data, prefix)
    ensures PostConfigReply(data, prefix, body, parseCIDR, marshal, faults)
            == Reply(StatusForbidden, ErrorBody(Says(ErrorMachinesExist)))
    ensures PostConfigStore(data, prefix, body, parseCIDR, marshal, faults) == data
    ensures PostConfigCalls(data, prefix, body, parseCIDR, marshal, faults) == [Op.GetPrefix(MachinesKey(prefix))]
  {
  }

  /** A body that does not decode or does not validate is refused with 400, naming the first
      failing field, and nothing is written. */
  lemma PostConfigRejectsBadBody(data: map<string, string>, prefix: string, body: Option<Config>,
                                 parseCIDR: string -> bool, marshal: Config -> Option<string>,
                                 faults: set<Call>)
    requires Read !in faults && !MachinesExist(data, prefix)
    requires body.None? || Validate(body.value, parseCIDR).Some?
    ensures PostConfigReply(data, prefix, body, parseCIDR, marshal, faults).status == StatusBadRequest
    ensures body.Some? ==> PostConfigReply(data, prefix, body, parseCIDR, marshal, faults).body
                           == ErrorBody(Says(Message(Validate(body.value, parseCIDR).value)))
    ensures PostConfigStore(data, prefix, body, parseCIDR, marshal, faults) == data
  {
  }

  /** POST writes the config key and nothing else; when it answers 200 it has written the
      encoded record there, over any earlier value; otherwise the store is unchanged. */
  lemma PostConfigChangesOnlyConfig(data: map<string, string>, prefix: string, body: Option<Config>,
                                    parseCIDR: string -> bool, marshal: Config -> Option<string>,
                                    faults: set<Call>)
    ensures var after := PostConfigStore(data, prefix, body, parseCIDR, marshal, faults);
      && (forall k :: k != ConfigKey(prefix) ==> (k in after <==> k in data))
      && (forall k :: k != ConfigKey(prefix) && k in data ==> after[k] == data[k])
      && (PostConfigReply(data, prefix, body, parseCIDR, marshal, faults).status == StatusOK ==>
            && body.Some? && Validate(body.value, parseCIDR).None? && marshal(body.value).Some?
            && ConfigKey(prefix) in after && after[ConfigKey(prefix)] == marshal(body.value).value
            && after.Keys == data.Keys + {ConfigKey(prefix)})
      && (PostConfigReply(data, prefix, body, parseCIDR, marshal, faults).status != StatusOK ==> after == data)
  {
  }

  /** A GET after a successful POST answers 200 with exactly the document POST stored. */
  lemma GetConfigAfterPost(data: map<string, string>, prefix: string, body: Option<Config>,
                           parseCIDR: string -> bool, marshal: Config -> Option<string>,
                           faults: set<Call>)
    requires PostConfigReply(data, prefix, body, parseCIDR, marshal, faults).status == StatusOK
    ensures body.Some? && marshal(body.value).Some?
    ensures GetConfigReply(PostConfigStore(data, prefix, body, parseCIDR, marshal, faults), prefix, {})
            == Reply(StatusOK, Document(marshal(body.value).value))
  {
  }

  /** GET answers 404 "value not found" exactly when no configuration is stored. */
  lemma GetConfigNotFound(data: map<string, string>, prefix: string)
    ensures GetConfigReply(data, prefix, {}).status == StatusNotFound <==> ConfigKey(prefix) !in data
    ensures ConfigKey(prefix) !in data ==>
            GetConfigReply(data, prefix, {}) == Reply(StatusNotFound, ErrorBody(Says(ErrorValueNotFound)))
  {
  }

  /** Posting the configuration does not register a machine: under a rooted prefix, a
      successful POST leaves the machines prefix empty, so a later POST is not refused
      with 403. */
  lemma PostConfigKeepsConfigOpen(data: map<string, string>, ps: seq<string>, body: Option<Config>,
                                  body2: Option<Config>, parseCIDR: string -> bool,
                                  marshal: Config -> Option<string>, faults: set<Call>, faults2: set<Call>)
    requires AllPlain(ps)
    requires PostConfigReply(data, Rooted(ps), body, parseCIDR, marshal, faults).status == StatusOK
    ensures var after := PostConfigStore(data, Rooted(ps), body, parseCIDR, marshal, faults);
      && !MachinesExist(after, Rooted(ps))
      && PostConfigReply(after, Rooted(ps), body2, parseCIDR, marshal, faults2).status != StatusForbidden
  {
    var prefix := Rooted(ps);
    var after := PostConfigStore(data, prefix, body, parseCIDR, marshal, faults);
    ConfigKeyOutsideMachines(ps);
    assert after == data[ConfigKey(prefix) := marshal(body.value).value];
    assert KeysWithPrefix(after, MachinesKey(prefix)) == KeysWithPrefix(data, MachinesKey(prefix));
  }
}

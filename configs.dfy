/** The sabakan configuration record: the IP layout of nodes and BMCs, kept as one JSON
    document at `<prefix>/config`. It is validated field by field, may be posted any number of
    times until a machine is registered, and is frozen from then on.

    net.ParseCIDR and JSON encoding are library code: a validation takes `parseCIDR`, which
    says whether a string parses as a CIDR, and a POST takes `marshal`, json.Marshal of a
    record (None when it fails), and the already decoded body (None when it does not decode). */
module Configs {
  import opened Wrappers
  import opened Strings
  import opened Paths
  import opened Store
  import opened Http

  /** Go's uint, 64 bits wide on the platforms sabakan runs on. */
  type Uint = x: int | 0 <= x < 0x1_0000_0000_0000_0000

  datatype Config = Config(
    nodeIPv4Offset: string,
    nodeRackShift: Uint,
    bmcIPv4Offset: string,
    bmcRackShift: Uint,
    nodeIPPerNode: Uint,
    bmcIPPerNode: Uint)

  const EtcdKeyConfig := "/config"
  const EtcdKeyMachines := "/machines"
  const EtcdKeyCrypts := "/crypts"

  const ErrorInvalidValue := "invalid value"
  const ErrorValueNotFound := "value not found"
  const ErrorMachinesExist := "machines already exist"
  const ErrorValueAlreadyExists := "value already exists"

  // ---------------------------------------------------------------- validation

  /** The fields of a Config, named by their JSON tags below. */
  datatype Field = NodeIPv4Offset | NodeRackShift | BMCIPv4Offset | BMCRackShift | NodeIPPerNode | BMCIPPerNode

  function FieldName(f: Field): string
  {
    match f
    case NodeIPv4Offset => "node-ipv4-offset"
    case NodeRackShift => "node-rack-shift"
    case BMCIPv4Offset => "bmc-ipv4-offset"
    case BMCRackShift => "bmc-rack-shift"
    case NodeIPPerNode => "node-ip-per-node"
    case BMCIPPerNode => "bmc-ip-per-node"
  }

  /** Where a field comes in the order validation checks them. */
  function Position(f: Field): nat
  {
    match f
    case NodeIPv4Offset => 0
    case NodeRackShift => 1
    case BMCIPv4Offset => 2
    case BMCRackShift => 3
    case NodeIPPerNode => 4
    case BMCIPPerNode => 5
  }

  /** The two fields that hold an address offset in CIDR notation. */
  predicate IsOffset(f: Field)
  {
    f == NodeIPv4Offset || f == BMCIPv4Offset
  }

  /** A field's own requirement: an offset must parse as a CIDR, every number must be set. */
  predicate FieldValid(c: Config, f: Field, parseCIDR: string -> bool)
  {
    match f
    case NodeIPv4Offset => parseCIDR(c.nodeIPv4Offset)
    case NodeRackShift => c.nodeRackShift != 0
    case BMCIPv4Offset => parseCIDR(c.bmcIPv4Offset)
    case BMCRackShift => c.bmcRackShift != 0
    case NodeIPPerNode => c.nodeIPPerNode != 0
    case BMCIPPerNode => c.bmcIPPerNode != 0
  }

  /** A validation failure: the field, and why it fails. */
  datatype ValidationError = ValidationError(field: Field, reason: string)

  /** The error's text: "<json tag>: <reason>". */
  function Message(err: ValidationError): string
  {
    FieldName(err.field) + ": " + err.reason
  }

  /** Config.validate: the first field, in Position order, that fails its requirement; an
      offset fails with "invalid value", a number with "value not found". */
  function Validate(c: Config, parseCIDR: string -> bool): (r: Option<ValidationError>)
    ensures r.None? <==> forall f :: FieldValid(c, f, parseCIDR)
    ensures r.Some? ==> !FieldValid(c, r.value.field, parseCIDR)
    ensures r.Some? ==> forall f :: Position(f) < Position(r.value.field) ==> FieldValid(c, f, parseCIDR)
    ensures r.Some? ==> r.value.reason == if IsOffset(r.value.field) then ErrorInvalidValue else ErrorValueNotFound
  {
    if !parseCIDR(c.nodeIPv4Offset) then
      assert !FieldValid(c, NodeIPv4Offset, parseCIDR);
      Some(ValidationError(NodeIPv4Offset, ErrorInvalidValue))
    else if c.nodeRackShift == 0 then
      assert !FieldValid(c, NodeRackShift, parseCIDR);
      Some(ValidationError(NodeRackShift, ErrorValueNotFound))
    else if !parseCIDR(c.bmcIPv4Offset) then
      assert !FieldValid(c, BMCIPv4Offset, parseCIDR);
      Some(ValidationError(BMCIPv4Offset, ErrorInvalidValue))
    else if c.bmcRackShift == 0 then
      assert !FieldValid(c, BMCRackShift, parseCIDR);
      Some(ValidationError(BMCRackShift, ErrorValueNotFound))
    else if c.nodeIPPerNode == 0 then
      assert !FieldValid(c, NodeIPPerNode, parseCIDR);
      Some(ValidationError(NodeIPPerNode, ErrorValueNotFound))
    else if c.bmcIPPerNode == 0 then
      assert !FieldValid(c, BMCIPPerNode, parseCIDR);
      Some(ValidationError(BMCIPPerNode, ErrorValueNotFound))
    else None
  }

  // ---------------------------------------------------------------- keys and replies

  /** path.Join(prefix, "/config"): rooted unless the prefix is a relative path. */
  function ConfigKey(prefix: string): (key: string)
    ensures key != ""
    ensures key[0] == '/' <==> prefix == "" || prefix[0] == '/'
  {
    var elems := [prefix, EtcdKeyConfig];
    assert elems[1] != "" && elems[1][0] == '/';
    Join(elems)
  }

  /** path.Join(prefix, "/machines"), scanned as a prefix: rooted unless the prefix is a
      relative path. */
  function MachinesKey(prefix: string): (key: string)
    ensures key != ""
    ensures key[0] == '/' <==> prefix == "" || prefix[0] == '/'
  {
    var elems := [prefix, EtcdKeyMachines];
    assert elems[1] != "" && elems[1][0] == '/';
    Join(elems)
  }

  datatype Body =
    | ErrorBody(err: ErrorText)     // renderError
    | Document(json: string)        // the stored JSON, written as it is
    | NoBody

  datatype Reply = Reply(status: int, body: Body)

  /** handleGetConfig's reply. */
  function GetConfigReply(data: map<string, string>, prefix: string, faults: set<Call>): Reply
  {
    if Read in faults then Reply(StatusInternalServerError, ErrorBody(Reported))
    else if ConfigKey(prefix) !in data then Reply(StatusNotFound, ErrorBody(Says(ErrorValueNotFound)))
    else Reply(StatusOK, Document(data[ConfigKey(prefix)]))
  }

  /** Whether machines are registered, which freezes the configuration. */
  predicate MachinesExist(data: map<string, string>, prefix: string)
  {
    KeysWithPrefix(data, MachinesKey(prefix)) != {}
  }

  /** handlePostConfig's reply. */
  function PostConfigReply(data: map<string, string>, prefix: string, body: Option<Config>,
                           parseCIDR: string -> bool, marshal: Config -> Option<string>,
                           faults: set<Call>): Reply
  {
    if Read in faults then Reply(StatusInternalServerError, ErrorBody(Reported))
    else if MachinesExist(data, prefix) then Reply(StatusForbidden, ErrorBody(Says(ErrorMachinesExist)))
    else if body.None? then Reply(StatusBadRequest, ErrorBody(Reported))
    else if Validate(body.value, parseCIDR).Some? then
      Reply(StatusBadRequest, ErrorBody(Says(Message(Validate(body.value, parseCIDR).value))))
    else if marshal(body.value).None? then Reply(StatusInternalServerError, ErrorBody(Reported))
    else if Write in faults then Reply(StatusInternalServerError, ErrorBody(Reported))
    else Reply(StatusOK, NoBody)
  }

  /** Whether handlePostConfig gets as far as the Put of the configuration. */
  predicate PostConfigPuts(data: map<string, string>, prefix: string, body: Option<Config>,
                           parseCIDR: string -> bool, marshal: Config -> Option<string>,
                           faults: set<Call>)
  {
    Read !in faults && !MachinesExist(data, prefix) && body.Some?
    && Validate(body.value, parseCIDR).None? && marshal(body.value).Some?
  }

  /** The store after handlePostConfig. */
  function PostConfigStore(data: map<string, string>, prefix: string, body: Option<Config>,
                           parseCIDR: string -> bool, marshal: Config -> Option<string>,
                           faults: set<Call>): map<string, string>
  {
    if PostConfigPuts(data, prefix, body, parseCIDR, marshal, faults) && Write !in faults then
      data[ConfigKey(prefix) := marshal(body.value).value]
    else data
  }

  /** The store calls handlePostConfig makes, in order. */
  function PostConfigCalls(data: map<string, string>, prefix: string, body: Option<Config>,
                           parseCIDR: string -> bool, marshal: Config -> Option<string>,
                           faults: set<Call>): seq<Op>
  {
    [Op.GetPrefix(MachinesKey(prefix))]
    + if PostConfigPuts(data, prefix, body, parseCIDR, marshal, faults) then [Op.Put(ConfigKey(prefix))] else []
  }

  // ---------------------------------------------------------------- handlers

  /** The config handlers' receiver: the etcd client and the configured key prefix. */
  class EtcdClient {
    const client: Etcd
    const prefix: string

    constructor (client: Etcd, prefix: string)
      ensures this.client == client && this.prefix == prefix
    {
      this.client := client;
      this.prefix := prefix;
    }

    /** GET /config. It only reads: the store is the same afterwards. */
    method HandleGetConfig(faults: set<Call>) returns (reply: Reply)
      modifies client`log
      ensures reply == GetConfigReply(client.data, prefix, faults)
      ensures client.log == old(client.log) + [Op.Get(ConfigKey(prefix))]
    {
      var key := ConfigKey(prefix);
      var err, value := client.Get(key, Read in faults);
      if err {
        return Reply(StatusInternalServerError, ErrorBody(Reported));
      }
      if value.None? {
        return Reply(StatusNotFound, ErrorBody(Says(ErrorValueNotFound)));
      }
      reply := Reply(StatusOK, Document(value.value));
    }

    /** POST /config; `body` is the decoded request body, None when it does not decode. */
    method HandlePostConfig(body: Option<Config>, parseCIDR: string -> bool,
                            marshal: Config -> Option<string>, faults: set<Call>) returns (reply: Reply)
      modifies client`data, client`log
      ensures reply == PostConfigReply(old(client.data), prefix, body, parseCIDR, marshal, faults)
      ensures client.data == PostConfigStore(old(client.data), prefix, body, parseCIDR, marshal, faults)
      ensures client.log == old(client.log) + PostConfigCalls(old(client.data), prefix, body, parseCIDR, marshal, faults)
    {
      var key := MachinesKey(prefix);
      var err, keys := client.GetPrefix(key, Read in faults);
      if err {
        return Reply(StatusInternalServerError, ErrorBody(Reported));
      }
      ListsSize(keys, KeysWithPrefix(client.data, key));
      if |keys| != 0 {
        return Reply(StatusForbidden, ErrorBody(Says(ErrorMachinesExist)));
      }

      if body.None? {
        return Reply(StatusBadRequest, ErrorBody(Reported));
      }
      var sc := body.value;
      var invalid := Validate(sc, parseCIDR);
      if invalid.Some? {
        return Reply(StatusBadRequest, ErrorBody(Says(Message(invalid.value))));
      }

      var j := marshal(sc);
      if j.None? {
        return Reply(StatusInternalServerError, ErrorBody(Reported));
      }

      key := ConfigKey(prefix);
      err := client.Put(key, j.value, Write in faults);
      if err {
        return Reply(StatusInternalServerError, ErrorBody(Reported));
      }
      reply := Reply(StatusOK, NoBody);
    }
  }
}

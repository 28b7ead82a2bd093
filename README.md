# sabakan core in Dafny: crypts ledger, configuration record, API router

This project models three parts of sabakan, the bare-metal provisioning server, and proves
what each of them promises.

- **Crypts ledger** (`crypts.go`): disk-encryption keys are kept in etcd at
  `path.Join(prefix, "crypts", serial, path)`. That is `<prefix>/crypts/<serial>/<path>` when
  the names are already clean. The disk path comes from the request body, though, and
  `path.Join` resolves its ".." names (third row of "## Findings").
  - GET reads one record.
  - POST creates a record once, under a cluster-wide lock, with a create-if-absent
    transaction.
  - DELETE is meant to remove every record of a serial and list what it removed. As
    written, it scans a different prefix (first two rows of "## Findings").
- **Configuration record** (`config.go`): the node and BMC IP layout, stored as one JSON
  document at `<prefix>/config`.
  - The record is validated field by field.
  - POST may be repeated until the first machine is registered.
  - GET returns the stored document as it is.
- **API router** (`web/server.go`): a request path becomes the handler that serves it.

Module layout:

- `Store` (store.dfy) holds the etcd store as the handlers see it: the class `Etcd`. Its fields are:
  - a key/value map;
  - the write lock;
  - a ghost log of the calls made.

  Every remote call takes a flag that says whether it fails.
- `Crypts` and `Configs` hold the handlers. Each handler is a method of an `EtcdClient`
  class, and its steps follow the source.
  - Each method is proved against specification functions of the old store and the request:
    `…Reply`, `…Store` and `…Calls`.
  - A request's `faults` are the set of remote calls that fail.
  - `CryptsLemmas` and `ConfigsLemmas` state the promises over those functions.
- `Paths` models Go's `path.Join` and `path.Clean`, which build every store key.
- `KeySpace` relates the crypts records to the configuration and machine keys under the
  same prefix.
- `Web` is the pure router, and `WebLemmas` holds its properties.

## Model

| member | source | states |
|---|---|---|
| Paths.Join | crypts.go:56 | path.Join: the result is "" exactly when every element is empty, and otherwise it is rooted exactly when its first non-empty element is; the empty elements before that one are ignored |
| Crypts.CryptKey | crypts.go:111 | the record key `path.Join(prefix, "crypts", serial, path)` is never empty, and it is rooted exactly when the prefix is: with the empty prefix it is relative |
| Crypts.DeleteScanPrefix | crypts.go:151-153 | the DELETE scan prefix begins with "/crypts/" and continues with the serial and nothing else: no configured prefix, no closing "/" |
| Configs.ConfigKey | config.go:81 | `path.Join(prefix, "/config")` is never empty and is rooted unless the prefix is a relative path |
| Configs.MachinesKey | config.go:106 | `path.Join(prefix, "/machines")` is never empty and is rooted unless the prefix is a relative path |
| Crypts.DeleteResponseOf | crypts.go:43-49 | the DELETE response has one entry per scanned key, and entry i names key i |
| Crypts.MakeDeleteResponse | crypts.go:43-49 | the append loop builds exactly DeleteResponseOf of the scanned keys, in scan order |
| Crypts.EtcdClient.HandleCryptsGet | crypts.go:51-73 | the reply is GetReply of the current store; the only call is a Get of `path.Join(prefix, "crypts", serial, path)`; the store is not modified |
| Crypts.EtcdClient.HandleCryptsPost | crypts.go:75-144 | reply, new store and call sequence are PostReply, PostStore and PostCalls of the old store; the lock is free again on every return |
| Crypts.EtcdClient.PostInSession | crypts.go:97-137 | from NewSession to before the deferred Close: Lock, pre-check Get, guarded Put, Unlock, in that order; the lock is still held afterwards exactly when it was taken but the commit and the Unlock did not both succeed |
| Crypts.EtcdClient.HandleCryptsDelete | crypts.go:146-185 | DELETE as written: scans and deletes the prefix "/crypts/"+serial; reply, store and calls are DeleteReply, DeleteStore and DeleteCalls of that prefix |
| Crypts.EtcdClient.HandleCryptsDeleteScoped | crypts.go:146-185 | the same steps over the corrected prefix `path.Join(prefix, "crypts", serial) + "/"` |
| Crypts.EtcdClient.DeleteUnder | crypts.go:150-185 | scan, 404 on an empty scan, prefix delete, 500 when nothing was deleted, otherwise 200 with the scanned keys |
| Store.CreateIfAbsentNeverOverwrites | crypts.go:123-127 | the transaction guarded by CreateRevision == 0 never changes or removes an existing binding; it binds the key exactly when the key was absent |
| CryptsLemmas.CryptKeyUnderRoot | crypts.go:56 | under a rooted prefix of plain names, a record key is `<prefix>/crypts/<serial>/<path>` |
| CryptsLemmas.CryptKeyWithoutPrefix | crypts.go:56 | with the empty prefix, path.Join makes the key relative: `crypts/<serial>/<path>` |
| CryptsLemmas.RecordKeysDistinct | crypts.go:111 | two paths of one serial get different keys |
| CryptsLemmas.ScopedPrefixSelectsSerial | crypts.go:111-153 | a record key of serial s2 begins with the corrected prefix for serial s if and only if s2 == s |
| CryptsLemmas.GetAnswers | crypts.go:57-72 | GET answers 404 "target … not found" iff the record is absent, otherwise 200 with the requested path and the stored key |
| CryptsLemmas.GetAfterPost | crypts.go:56-140 | after a 201 POST, GET of that path answers 200 with the posted path and key |
| CryptsLemmas.PostValidatesFirst | crypts.go:79-95 | a body that does not decode gives 500, an empty path or key gives 400; the reply does not depend on the store or the faults, and nothing is called or written |
| CryptsLemmas.PostExistingRefused | crypts.go:111-120 | POST of an existing record answers 400 "target … exists" and writes nothing |
| CryptsLemmas.PostNeverOverwrites | crypts.go:110-131 | whatever fails, POST never changes or removes a binding, and the only key it can add is the record's own |
| CryptsLemmas.PostCreatedExactly | crypts.go:122-140 | a 201 means the record was absent, exactly that binding was added, and the body echoes the request |
| CryptsLemmas.PostFreshCreates | crypts.go:85-140 | with no faults, a non-empty path and key whose record is absent is created and answered with 201 |
| CryptsLemmas.PostUnlockFailureAfterWrite | crypts.go:128-137 | a failed Unlock after the commit answers 500, yet the record is written |
| CryptsLemmas.PostLockDiscipline | crypts.go:97-137 | NewSession comes first and Close last; every Get and Put of the record follows the Lock; Unlock is issued iff the store changed, where a failed call has no effect (see "## Left out"); a POST that took the lock but did not answer 201 leaves the lock to the deferred Close |
| CryptsLemmas.CreateOnce | crypts.go:110-131 | a second POST of the same path is refused with "exists", and the first key stays |
| CryptsLemmas.DeleteRemovesAll | crypts.go:163-184 | a 200 DELETE removed every key with the prefix and nothing else, and its body lists the scanned keys |
| CryptsLemmas.DeleteAllOrNothing | crypts.go:150-175 | a DELETE that does not answer 200 leaves the store unchanged, where a failed call has no effect (see "## Left out"); a 404 means no key had the prefix |
| CryptsLemmas.DeleteEmptyNotFound | crypts.go:150-161 | when no key has the prefix and the scan succeeds, DELETE answers 404 "target not found" and leaves the store unchanged |
| CryptsLemmas.DeleteTwiceNotFound | crypts.go:150-161 | a second DELETE of the same prefix after a 200 answers 404 |
| CryptsLemmas.UnscopedDeleteMissesRelativeKeys | crypts.go:56-153 | with the empty prefix, no record key begins with the DELETE scan prefix |
| CryptsLemmas.UnscopedScanMissesPrefixedKeys | crypts.go:111-153 | under a prefix whose first name is not "crypts" (such as "/sabakan"), no record key begins with the DELETE scan prefix |
| CryptsLemmas.UnscopedDeleteMissesPostedRecord | crypts.go:111-161 | under such a prefix, a record just created is not found by DELETE: 404, and the record stays |
| CryptsLemmas.UnscopedScanTakesLongerSerial | crypts.go:151-153 | with the prefix "/", the scan for serial s matches the record keys of every serial that begins with s |
| CryptsLemmas.UnscopedDeleteTakesLongerSerial | crypts.go:151-185 | with the prefix "/", DELETE of serial s deletes and reports a record of a longer serial that begins with s |
| CryptsLemmas.CreateTwoUnderSerial | crypts.go:110-140 | two paths of one serial, posted in turn into a store with nothing under that serial, are both created, under distinct keys inside the serial's prefix |
| CryptsLemmas.CreateTwoThenDeleteAll | crypts.go:110-185 | then a DELETE scoped to the serial answers 200 listing two keys and gives back the store as it was before |
| KeySpace.TraversalEscapesLedger | crypts.go:86-111 | as written, the disk path "../../" followed by plain names xs is stored at `<prefix>/<xs>`, outside the crypts directory, whatever the serial |
| KeySpace.TraversalReachesConfig | crypts.go:111 | as written, the record of disk path "../../config" is the configuration record's key |
| KeySpace.TraversalReachesMachines | crypts.go:111 | as written, the record of disk path "../../machines/<m>" lies under the machines prefix |
| KeySpace.TraversalFreezesConfig | crypts.go:86-140 | as written, a POST of disk path "../../machines/<m>" into a store with no machines answers 201, and afterwards every POST /config answers 403 "machines already exist" |
| KeySpace.ContainedKeyStaysUnderSerial | crypts.go:111 | the key of a plain disk path begins with its serial's prefix, is not the configuration record and is not under the machines prefix |
| Crypts.EtcdClient.HandleCryptsPostGuarded | crypts.go:75-144 | the corrected POST: a disk path that is not one plain name is refused with 400 before the session is opened; any other request behaves as HandleCryptsPost; the lock is free on return |
| KeySpace.GuardedPostStaysInLedger | crypts.go:85-131 | the corrected POST keeps every binding, and any key it adds lies inside the serial's directory, so whether machines exist and whether a configuration is stored are unchanged |
| Configs.Validate | config.go:24-43 | None iff every field passes; otherwise the reported field fails, every field checked before it passes, and the reason is "invalid value" for the two CIDR offsets and "value not found" for the four numbers |
| Configs.EtcdClient.HandleGetConfig | config.go:80-103 | the reply is GetConfigReply of the store: 500 on a read failure, 404 "value not found" when absent, else 200 with the stored document; the store is not modified |
| Configs.EtcdClient.HandlePostConfig | config.go:105-145 | reply, new store and calls are PostConfigReply, PostConfigStore and PostConfigCalls: machines scan, 403, decode, validate, marshal, Put, 200 |
| ConfigsLemmas.KeysUnderRoot | config.go:52-106 | under a rooted prefix the config key is `<prefix>/config` and the machines prefix is `<prefix>/machines` |
| ConfigsLemmas.ConfigKeyOutsideMachines | config.go:106-137 | the config key is not under the machines prefix |
| ConfigsLemmas.ConfigFrozen | config.go:106-115 | once any key lies under the machines prefix, every POST answers 403 "machines already exist", whatever its body, and only the scan is issued |
| ConfigsLemmas.PostConfigRejectsBadBody | config.go:117-128 | a body that does not decode or does not validate answers 400, naming the first failing field, and writes nothing |
| ConfigsLemmas.PostConfigChangesOnlyConfig | config.go:130-144 | POST changes no key but the config key; a 200 means the encoded record is stored there over any earlier value; any other answer leaves the store unchanged, where a failed call has no effect (see "## Left out") |
| ConfigsLemmas.GetConfigAfterPost | config.go:91-144 | GET after a 200 POST answers 200 with exactly the document POST stored |
| ConfigsLemmas.GetConfigNotFound | config.go:81-94 | GET answers 404 "value not found" iff no configuration is stored |
| ConfigsLemmas.PostConfigKeepsConfigOpen | config.go:106-144 | a 200 POST leaves the machines prefix empty, so a later POST is not refused with 403 |
| Web.RouteAPIV1 | web/server.go:28-59 | the switch's result is a handler whose own condition holds for the path, and it is NotFound iff no handler's condition holds |
| Web.Route | web/server.go:19-26 | a path is served only inside "/api/v1/", by a handler that serves the rest of it; the route is a function of the path alone |
| WebLemmas.HandlersDisjoint | web/server.go:31-56 | no path satisfies two handlers' conditions |
| WebLemmas.RouteIsTheServingHandler | web/server.go:28-59 | the route is a handler h iff h's condition holds, whatever the order of the cases |
| WebLemmas.PrefixRoute | web/server.go:38-55 | a prefix route takes its prefix followed by anything |
| WebLemmas.CryptsAndBootRoutes | web/server.go:38-49 | every path under crypts/, boot/coreos/ and boot/ignitions/ goes to that handler |
| WebLemmas.ImagesAndMachinesRoutes | web/server.go:50-55 | every path under images/coreos/ and every path beginning with "machines" goes to that handler |
| WebLemmas.ExactRoute | web/server.go:32-58 | an exact route followed by anything is not found |
| WebLemmas.ExactRoutes | web/server.go:32-58 | config/dhcp, config/ipam and boot/ipxe.efi followed by anything are not found |
| WebLemmas.ImagesNeedsSlash | web/server.go:53-58 | images/coreos followed by anything not starting with "/" is not found |
| WebLemmas.OutsideAPIExamples | web/server.go:20-25 | "/api/v1" and "/config" are not found |
| WebLemmas.MachinesExample | web/server.go:50-52 | "/api/v1/machinesX" goes to the machines handler |
| WebLemmas.ConfigIPAMExample | web/server.go:35-58 | "/api/v1/config/ipam/x" is not found |
| WebLemmas.ImagesExample | web/server.go:53-55 | "/api/v1/images/coreos" goes to the images handler |
| WebLemmas.ImagesSuffixExample | web/server.go:53-58 | "/api/v1/images/coreosX" is not found |

## Left out

- The rest of the repository is not part of this model. That covers IP address management, the DHCP server and its logging, and the cryptsetup command-line client.
- etcd itself is a map from keys to values plus one lock flag.
  - Revisions, leases and watches are not modelled.
  - The lock's key "/sabakan-post-crypts-lock/" is not modelled.
  - Contention between concurrent requests is not modelled: one request runs at a time, so `HandleCryptsPost` requires the lock to be free.
- Registration of the handlers with the HTTP multiplexer and HTTP method matching are not modelled (crypts.go:31-41, config.go:70-78). Each handler is a method called with the path variables and the decoded body.
- `net.ParseCIDR` and `json.Marshal` are parameters, and JSON decoding is an optional decoded body. The model does not fix what they accept.
- `govalidator.IsNull` is modelled as "the string is empty".
- Error texts produced by libraries are the single value `Reported`. Texts the handlers write themselves are exact.
- Failures while writing a response body are not modelled (crypts.go:69-72, crypts.go:140-143, crypts.go:181-184, config.go:98-102). The reply is the status and body the handler chose.
- `makeDeleteResponse` never returns an error, so the 500 branch after it (crypts.go:176-179) cannot be taken and is not modelled.
- The nil-response check in handleGetConfig (config.go:87-90) is not modelled. The etcd client returns a response whenever it returns no error.
- The pre-check Get failure in POST /crypts (crypts.go:113-115) writes the error text with no status. In the model this is an implicit 200 with `BareText`.
- The deferred `s.Close()` after a failed NewSession (crypts.go:98-103) runs on a nil session. etcd's `Session.Close` is not part of this model, and it uses its receiver. In Go that call therefore panics after the 500 has been written, and net/http aborts the connection, so the client may never receive that 500. The model ends such a request with the 500 reply and a Close that changes nothing.
- Crypts.EtcdClient.HandleCryptsDelete: the scan's order is not fixed. etcd returns keys in byte order; the model only states that the scan lists each matching key once, and the response follows that listing.
- CryptsLemmas.DeleteAllOrNothing, ConfigsLemmas.PostConfigChangesOnlyConfig, CryptsLemmas.PostLockDiscipline: these rest on the model's assumption that a remote call which returns an error had no effect on the store. The handlers do not promise this. They turn every error of `client.Delete`, the create-if-absent `Commit` and `client.Put` into a 500 (crypts.go:167-169, crypts.go:128-130, config.go:139-141). An etcd error such as an exceeded deadline does not mean the request was not applied. So in the running program a DELETE or POST /config can answer 500 after its delete or write took effect, and a POST /crypts whose Commit reported an error can have created the record without issuing Unlock. `CryptsLemmas.PostNeverOverwrites` and the framing of every other key hold either way.
- Strings are sequences of characters rather than bytes, and no Unicode handling is modelled.
- `Paths.Join` covers Go's full `path.Clean`. Most lemmas about concrete keys are stated for prefixes and names that are already clean: no empty name, no ".", no "..", no slash inside a name. The `KeySpace` lemmas cover disk paths with ".." names.
- Crypts.EtcdClient.HandleCryptsPostGuarded: the corrected POST accepts a disk path only when it is one plain name, so a path with a slash is refused as well. Disk paths of several clean names would stay inside the serial's directory too, but this model does not prove that.
- POST /crypts answers 500, not 400, for a body that does not decode (crypts.go:79-83). The model keeps 500, as the code does.

## Findings

| source | as written | input that shows it | evidently intended | confidence | as-written member | corrected member |
|---|---|---|---|---|---|---|
| crypts.go:151-153, crypts.go:164-166 | DELETE scans and deletes `"/crypts/" + serial`. This ignores the configured prefix that GET and POST put in front of every key (crypts.go:56, crypts.go:111). | With the prefix "/sabakan", POST /crypts/X with path "sda" creates "/sabakan/crypts/X/sda", and DELETE /crypts/X then answers 404 and leaves it. With the empty prefix the key is "crypts/X/sda", which never begins with "/". | DELETE selects the keys under `path.Join(prefix, "crypts", serial)` | high, not executed | CryptsLemmas.UnscopedDeleteMissesPostedRecord | CryptsLemmas.ScopedPrefixSelectsSerial |
| crypts.go:152, crypts.go:165 | The scan prefix has no closing "/", so it also matches serials that begin with the given one. | With the prefix "/", a record "/crypts/123/sda" exists. DELETE /crypts/12 deletes it and lists it in its 200 response. | only the records of serial "12" are deleted | high, not executed | CryptsLemmas.UnscopedDeleteTakesLongerSerial | CryptsLemmas.CreateTwoThenDeleteAll |
| crypts.go:86-111 | The disk path is taken from the request body unchecked, and `path.Join` resolves its ".." names, so a record can be written outside `<prefix>/crypts/<serial>`. | With the prefix "/sabakan" and no machines registered, POST /crypts/X with path "../../machines/m1" answers 201 and creates "/sabakan/machines/m1". From then on POST /config answers 403 "machines already exist". The path "../../config" names "/sabakan/config" instead. | a record of serial X stays under `<prefix>/crypts/X/`, apart from other serials, the configuration and the machines | high, not executed | KeySpace.TraversalFreezesConfig | KeySpace.GuardedPostStaysInLedger |

`Crypts.EtcdClient.HandleCryptsDelete` performs DELETE as written. `Crypts.EtcdClient.HandleCryptsDeleteScoped` performs the same steps over `SerialKeyPrefix(prefix, serial) = path.Join(prefix, "crypts", serial) + "/"`. `ScopedPrefixSelectsSerial` proves that this prefix selects a serial's records and no others, and `CreateTwoThenDeleteAll` proves the create-then-delete round trip. `Crypts.EtcdClient.HandleCryptsPost` performs POST as written. `Crypts.EtcdClient.HandleCryptsPostGuarded` first refuses a disk path that is not one plain name, and `GuardedPostStaysInLedger` proves what that check protects.

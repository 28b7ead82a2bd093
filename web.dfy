/** The REST server's dispatch: a request is routed by its URL path alone. A path outside
    "/api/v1/" is not found; inside it, the rest of the path is matched against the handlers'
    exact paths and prefixes. The handlers themselves are not part of this module: a route is
    the tag of the handler the path selects. */
module Web {
  import opened Strings

  /** The handler a request is dispatched to. */
  datatype Handler =
    | NotFound
    | ConfigDHCP
    | ConfigIPAM
    | Crypts
    | IPXEFirmware
    | CoreOS
    | Ignitions
    | Machines
    | Images

  const APIPrefix := "/api/v1/"

  /** The condition under which a handler serves the path `p` below "/api/v1/", stated on its
      own, without regard to the other handlers. */
  predicate Serves(h: Handler, p: string)
  {
    match h
    case NotFound => false
    case ConfigDHCP => p == "config/dhcp"
    case ConfigIPAM => p == "config/ipam"
    case Crypts => HasPrefix(p, "crypts/")
    case IPXEFirmware => p == "boot/ipxe.efi"
    case CoreOS => HasPrefix(p, "boot/coreos/")
    case Ignitions => HasPrefix(p, "boot/ignitions/")
    case Machines => HasPrefix(p, "machines")
    case Images => p == "images/coreos" || HasPrefix(p, "images/coreos/")
  }

  /** handleAPIV1: the cases in the order the switch tries them. The result is a handler
      that serves `p`, and it is NotFound exactly when no handler does. */
  function RouteAPIV1(p: string): (h: Handler)
    ensures h != NotFound ==> Serves(h, p)
    ensures h == NotFound <==> forall t :: !Serves(t, p)
  {
    if p == "config/dhcp" then
      assert Serves(ConfigDHCP, p);
      ConfigDHCP
    else if p == "config/ipam" then
      assert Serves(ConfigIPAM, p);
      ConfigIPAM
    else if HasPrefix(p, "crypts/") then
      assert Serves(Crypts, p);
      Crypts
    else if p == "boot/ipxe.efi" then
      assert Serves(IPXEFirmware, p);
      IPXEFirmware
    else if HasPrefix(p, "boot/coreos/") then
      assert Serves(CoreOS, p);
      CoreOS
    else if HasPrefix(p, "boot/ignitions/") then
      assert Serves(Ignitions, p);
      Ignitions
    else if HasPrefix(p, "machines") then
      assert Serves(Machines, p);
      Machines
    else if p == "images/coreos" || HasPrefix(p, "images/coreos/") then
      assert Serves(Images, p);
      Images
    else NotFound
  }

  /** ServeHTTP: the handler of a request path, which depends on the path alone. A path
      is served only inside "/api/v1/", by a handler that serves the rest of it. */
  function Route(path: string): (h: Handler)
    ensures h != NotFound ==> HasPrefix(path, APIPrefix) && Serves(h, path[|APIPrefix|..])
    ensures h == NotFound <==> !HasPrefix(path, APIPrefix) || forall t :: !Serves(t, path[|APIPrefix|..])
  {
    if HasPrefix(path, APIPrefix) then RouteAPIV1(path[|APIPrefix|..]) else NotFound
  }
}

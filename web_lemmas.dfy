/** What the dispatch promises: at most one handler serves any path, so the order of the
    switch's cases does not matter; exact routes take no suffix; prefix routes take every
    suffix. */
module WebLemmas {
  import opened Strings
  import opened Web

  /** A path that begins with `q` has `q`'s characters at `q`'s positions. */
  lemma CharOfPrefix(p: string, q: string, i: nat)
    requires HasPrefix(p, q) && i < |q|
    ensures p[i] == q[i]
  {
    assert p[..|q|][i] == p[i];
  }

  /** A few characters of a path that tell the handlers apart. */
  predicate Signature(h: Handler, p: string)
  {
    match h
    case NotFound => false
    case ConfigDHCP => |p| == 11 && p[0] == 'c' && p[1] == 'o' && p[7] == 'd'
    case ConfigIPAM => |p| == 11 && p[0] == 'c' && p[1] == 'o' && p[7] == 'i'
    case Crypts => |p| >= 7 && p[0] == 'c' && p[1] == 'r'
    case IPXEFirmware => |p| == 13 && p[0] == 'b' && p[5] == 'i' && p[6] == 'p'
    case CoreOS => |p| >= 12 && p[0] == 'b' && p[5] == 'c'
    case Ignitions => |p| >= 15 && p[0] == 'b' && p[5] == 'i' && p[6] == 'g'
    case Machines => |p| >= 8 && p[0] == 'm'
    case Images => |p| >= 13 && p[0] == 'i'
  }

  lemma SignatureOf(h: Handler, p: string)
    requires Serves(h, p)
    ensures Signature(h, p)
  {
    match h
    case ConfigDHCP =>
    case ConfigIPAM =>
    case Crypts =>
      CharOfPrefix(p, "crypts/", 0);
      CharOfPrefix(p, "crypts/", 1);
    case IPXEFirmware =>
    case CoreOS =>
      CharOfPrefix(p, "boot/coreos/", 0);
      CharOfPrefix(p, "boot/coreos/", 5);
    case Ignitions =>
      CharOfPrefix(p, "boot/ignitions/", 0);
      CharOfPrefix(p, "boot/ignitions/", 5);
      CharOfPrefix(p, "boot/ignitions/", 6);
    case Machines =>
      CharOfPrefix(p, "machines", 0);
    case Images =>
      if p != "images/coreos" {
        CharOfPrefix(p, "images/coreos/", 0);
      }
  }

  /** The handlers' conditions are disjoint: no path is served by two of them. */
  lemma HandlersDisjoint(p: string, a: Handler, b: Handler)
    requires Serves(a, p) && Serves(b, p)
    ensures a == b
  {
    SignatureOf(a, p);
    SignatureOf(b, p);
  }

  /** The route below "/api/v1/" is the one handler that serves the path, whatever the order
      the cases are tried in. */
  lemma RouteIsTheServingHandler(p: string, h: Handler)
    requires h != NotFound
    ensures RouteAPIV1(p) == h <==> Serves(h, p)
  {
    if Serves(h, p) {
      HandlersDisjoint(p, RouteAPIV1(p), h);
    }
  }

  /** A path below "/api/v1/" is routed by its remainder. */
  lemma UnderAPI(rest: string)
    ensures Route(APIPrefix + rest) == RouteAPIV1(rest)
  {
    assert (APIPrefix + rest)[..|APIPrefix|] == APIPrefix;
    assert (APIPrefix + rest)[|APIPrefix|..] == rest;
  }

  /** A prefix route takes its prefix followed by anything. */
  lemma PrefixRoute(h: Handler, q: string, s: string)
    requires h != NotFound && Serves(h, q) && q != "images/coreos"
    requires h == Crypts || h == CoreOS || h == Ignitions || h == Machines || h == Images
    ensures Route(APIPrefix + q + s) == h
  {
    assert (q + s)[..|q|] == q;
    assert APIPrefix + q + s == APIPrefix + (q + s);
    UnderAPI(q + s);
    assert Serves(h, q + s);
    RouteIsTheServingHandler(q + s, h);
  }

  /** Every path below "/api/v1/crypts/", "/api/v1/boot/coreos/" and
      "/api/v1/boot/ignitions/" goes to that handler. */
  lemma CryptsAndBootRoutes(s: string)
    ensures Route(APIPrefix + "crypts/" + s) == Crypts
    ensures Route(APIPrefix + "boot/coreos/" + s) == CoreOS
    ensures Route(APIPrefix + "boot/ignitions/" + s) == Ignitions
  {
    PrefixRoute(Crypts, "crypts/", s);
    PrefixRoute(CoreOS, "boot/coreos/", s);
    PrefixRoute(Ignitions, "boot/ignitions/", s);
  }

  /** Every path below "/api/v1/images/coreos/" and every path that begins with
      "/api/v1/machines", with or without a slash after it, goes to that handler. */
  lemma ImagesAndMachinesRoutes(s: string)
    ensures Route(APIPrefix + "images/coreos/" + s) == Images
    ensures Route(APIPrefix + "machines" + s) == Machines
  {
    PrefixRoute(Images, "images/coreos/", s);
    PrefixRoute(Machines, "machines", s);
  }

  /** An exact route followed by anything at all is served by no handler. */
  lemma ExactRoute(h: Handler, q: string, s: string)
    requires h == ConfigDHCP || h == ConfigIPAM || h == IPXEFirmware
    requires Serves(h, q) && s != ""
    ensures Route(APIPrefix + q + s) == NotFound
  {
    var p := q + s;
    assert APIPrefix + q + s == APIPrefix + p;
    UnderAPI(p);
    SignatureOf(h, q);
    assert p[0] == q[0] && p[1] == q[1] && p[5] == q[5] && p[6] == q[6] && p[7] == q[7];
    if RouteAPIV1(p) != NotFound {
      SignatureOf(RouteAPIV1(p), p);
    }
  }

  /** "config/dhcp", "config/ipam" and "boot/ipxe.efi" are matched exactly: with anything
      after them, even a slash, the path is not found. */
  lemma ExactRoutes(s: string)
    requires s != ""
    ensures Route(APIPrefix + "config/dhcp" + s) == NotFound
    ensures Route(APIPrefix + "config/ipam" + s) == NotFound
    ensures Route(APIPrefix + "boot/ipxe.efi" + s) == NotFound
  {
    ExactRoute(ConfigDHCP, "config/dhcp", s);
    ExactRoute(ConfigIPAM, "config/ipam", s);
    ExactRoute(IPXEFirmware, "boot/ipxe.efi", s);
  }

  /** "images/coreos" followed by anything but a slash is not found. */
  lemma ImagesNeedsSlash(s: string)
    requires s != "" && s[0] != '/'
    ensures Route(APIPrefix + "images/coreos" + s) == NotFound
  {
    var p := "images/coreos" + s;
    assert APIPrefix + "images/coreos" + s == APIPrefix + p;
    UnderAPI(p);
    assert p[0] == 'i' && p[13] == s[0];
    if HasPrefix(p, "images/coreos/") {
      CharOfPrefix(p, "images/coreos/", 13);
    }
    if RouteAPIV1(p) != NotFound {
      SignatureOf(RouteAPIV1(p), p);
    }
  }

  /** Paths outside "/api/v1/" are not found, the bare "/api/v1" included. */
  lemma OutsideAPIExamples()
    ensures Route("/api/v1") == NotFound
    ensures Route("/config") == NotFound
  {
    assert !HasPrefix("/config", APIPrefix) by {
      assert "/config"[1] != APIPrefix[1];
    }
  }

  /** "machines" is a bare prefix: "machinesX" goes to the machines handler. */
  lemma MachinesExample()
    ensures Route("/api/v1/machinesX") == Machines
  {
    PrefixRoute(Machines, "machines", "X");
    assert APIPrefix + "machines" + "X" == "/api/v1/machinesX";
  }

  /** "config/ipam/x" is not found. */
  lemma ConfigIPAMExample()
    ensures Route("/api/v1/config/ipam/x") == NotFound
  {
    ExactRoute(ConfigIPAM, "config/ipam", "/x");
    assert APIPrefix + "config/ipam" + "/x" == "/api/v1/config/ipam/x";
  }

  /** "images/coreos" itself is served by the images handler. */
  lemma ImagesExample()
    ensures Route("/api/v1/images/coreos") == Images
  {
    UnderAPI("images/coreos");
    assert APIPrefix + "images/coreos" == "/api/v1/images/coreos";
    RouteIsTheServingHandler("images/coreos", Images);
  }

  /** "images/coreosX" is not found. */
  lemma ImagesSuffixExample()
    ensures Route("/api/v1/images/coreosX") == NotFound
  {
    ImagesNeedsSlash("X");
    assert APIPrefix + "images/coreos" + "X" == "/api/v1/images/coreosX";
  }
}

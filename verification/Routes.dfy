/**
 * Routes of the private network (hcloud/routes.go): creating a route for a node, which first
 * removes a route that leads elsewhere, and deleting a route.
 */
module Routes {
  import opened Basics
  import opened Text
  import opened Cidr
  import opened Ipv6Printing
  import opened Clocks
  import opened ServerCache

  // ---------- Destinations ----------

  /** An IPv4 network with its host bits cleared, the only kind of destination the cloud stores. */
  datatype Net4 = Net4(base: nat, bits: nat)

  predicate ValidNet(n: Net4) {
    n.base < 0x1_0000_0000 && n.bits <= 32
  }

  /** `net.IPNet.String`. */
  function NetText(n: Net4): string
    requires ValidNet(n)
  {
    FormatPrefix4(n.base, n.bits)
  }

  lemma NetTextInjective(m: Net4, n: Net4)
    requires ValidNet(m) && ValidNet(n) && NetText(m) == NetText(n)
    ensures m == n
  {
    FormatParsePrefix4(m.base, m.bits);
    FormatParsePrefix4(n.base, n.bits);
  }

  /** The index of the first slash, or the length. */
  function FirstSlash(s: string): (i: nat)
    ensures i <= |s|
  {
    if s == [] || s[0] == '/' then 0 else 1 + FirstSlash(s[1..])
  }

  /** `net.ParseCIDR`; unlike `ParsePrefix` it allows leading zeros in the length. */
  function ParseCidr(s: string): Option<Prefix> {
    var i := FirstSlash(s);
    if i == |s| then None
    else
      var addr := ParseAddr(s[..i]);
      var bits := s[i + 1..];
      if addr.None? || bits == "" || !AllDigits(bits) || ParseDigits(bits) > Width(addr.value.family) then None
      else Some(Masked(Prefix(addr.value, ParseDigits(bits))))
  }

  lemma {:induction false} FirstSlashIs(head: string, tail: string)
    requires '/' !in head
    ensures FirstSlash(head + "/" + tail) == |head|
  {
    var s := head + "/" + tail;
    if head != "" {
      assert s[0] == head[0] && s[1..] == head[1..] + "/" + tail;
      FirstSlashIs(head[1..], tail);
    }
  }

  /** Any printed IPv4 network is read, and its host bits are cleared. */
  lemma ParsePrintedCidr(v: nat, bits: nat)
    requires v < 0x1_0000_0000 && bits <= 32
    ensures var base := Floor(v, Pow2(32 - bits));
            && ParseCidr(FormatPrefix4(v, bits)) == Some(Prefix(Addr(V4, base), bits))
            && ToNet4(Prefix(Addr(V4, base), bits)) == Some(Net4(base, bits))
  {
    ReadPrinted(v, bits);
    SameBlock(v, v, Pow2(32 - bits));
  }

  lemma ReadPrinted(v: nat, bits: nat)
    requires v < 0x1_0000_0000 && bits <= 32
    ensures ParseCidr(FormatPrefix4(v, bits)) == Some(Masked(Prefix(Addr(V4, v), bits)))
  {
    FormatIPv4Shape(v);
    FormatParseIPv4(v);
    ReadCidr(FormatIPv4(v), bits, Addr(V4, v));
  }

  /** The same network, written as a mapped IPv6 network. */
  function MappedText(v: nat, bits: nat): string
    requires v < 0x1_0000_0000 && bits <= 32
  {
    "::ffff:" + FormatIPv4(v) + "/" + Decimal(96 + bits)
  }

  /** A mapped IPv6 network is read as the IPv4 network that it stands for. */
  lemma ParseMappedCidr(v: nat, bits: nat)
    requires v < 0x1_0000_0000 && bits <= 32
    ensures ParseCidr(MappedText(v, bits)).Some?
    ensures ToNet4(ParseCidr(MappedText(v, bits)).value) == Some(Net4(Floor(v, Pow2(32 - bits)), bits))
  {
    ReadMappedText(v, bits);
    FloorOfMapped(v, bits);
    var p := Prefix(Addr(V6, 0xFFFF * 0x1_0000_0000 + v), 96 + bits);
    assert BlockSize(p) == Pow2(32 - bits);
    MappedIsStored(Floor(v, Pow2(32 - bits)), bits);
  }

  lemma MappedIsStored(base: nat, bits: nat)
    requires base < 0x1_0000_0000 && bits <= 32
    ensures ToNet4(Prefix(Addr(V6, 0xFFFF * 0x1_0000_0000 + base), 96 + bits)) == Some(Net4(base, bits))
  {
  }

  lemma ReadMappedText(v: nat, bits: nat)
    requires v < 0x1_0000_0000 && bits <= 32
    ensures var a := Addr(V6, 0xFFFF * 0x1_0000_0000 + v);
            ParseCidr(MappedText(v, bits)) == Some(Masked(Prefix(a, 96 + bits)))
  {
    FormatIPv4Shape(v);
    ParseMappedAddr(v);
    var head := "::ffff:" + FormatIPv4(v);
    ReadCidr(head, 96 + bits, Addr(V6, 0xFFFF * 0x1_0000_0000 + v));
  }

  /** An address, a slash and a length. */
  lemma ReadCidr(head: string, bits: nat, a: Addr)
    requires '/' !in head && ParseAddr(head) == Some(a) && bits <= Width(a.family)
    ensures ParseCidr(head + "/" + Decimal(bits)) == Some(Masked(Prefix(a, bits)))
  {
    var s := head + "/" + Decimal(bits);
    ParseDecimal(bits);
    FirstSlashIs(head, Decimal(bits));
    assert s[..|head|] == head && s[|head| + 1..] == Decimal(bits);
  }

  lemma FloorOfMapped(v: nat, bits: nat)
    requires v < 0x1_0000_0000 && bits <= 32
    ensures var mapped, d := 0xFFFF * 0x1_0000_0000, Pow2(32 - bits);
            Floor(v, d) <= v && Floor(mapped + v, d) == mapped + Floor(v, d)
  {
    var d := Pow2(32 - bits);
    Pow2Add(bits, 32 - bits);
    Pow2Values();
    FloorBehind(Pow2(bits), 0xFFFF, d, v);
  }

  /** The blocks before a number do not matter for its rounding. */
  lemma FloorBehind(m: nat, n: nat, d: nat, v: nat)
    requires d > 0
    ensures Floor(v, d) <= v && Floor(n * (m * d) + v, d) == n * (m * d) + Floor(v, d)
  {
    var blocks := n * m;
    assert blocks * d == n * (m * d);
    var x := blocks * d + v;
    SameBlock(v, v, d);
    SameBlock(x, x, d);
    assert (blocks + v / d) * d == blocks * d + Floor(v, d);
    QuotientUnique(blocks + v / d, x / d, d, x);
  }

  /** How the cloud reads a destination: IPv4, also when it is written as a mapped IPv6 network. */
  function ToNet4(p: Prefix): (n: Option<Net4>)
    ensures n.Some? ==> ValidNet(n.value)
  {
    if p.addr.family.V4? then
      if p.addr.value < 0x1_0000_0000 && p.bits <= 32 then Some(Net4(p.addr.value, p.bits)) else None
    else if p.addr.value / 0x1_0000_0000 == 0xFFFF && 96 <= p.bits <= 128 then
      Some(Net4(p.addr.value % 0x1_0000_0000, p.bits - 96))
    else None
  }

  // ---------- The cloud network ----------

  datatype Route = Route(destination: Net4, gateway: string)

  predicate ValidRoutes(routes: seq<Route>) {
    forall r <- routes :: ValidNet(r.destination)
  }

  datatype RouteError =
    | Contention            // the API answered "conflict" or "locked"
    | Rejected              // any other API error, or a failed action
    | NetworkNotFound
    | NoServer(error: CacheError)
    | NotAttached
    | InvalidCidr
    | RouteNotInNetwork

  function RemoveAt<T>(s: seq<T>, i: nat): seq<T>
    requires i < |s|
  {
    s[..i] + s[i + 1..]
  }

  /** The index of the first element that satisfies `p`, or the length. */
  function FirstWhere<T>(s: seq<T>, p: T -> bool): (i: nat)
    ensures i <= |s|
    ensures i < |s| ==> p(s[i])
    ensures forall j :: 0 <= j < i ==> !p(s[j])
  {
    if s == [] || p(s[0]) then 0 else 1 + FirstWhere(s[1..], p)
  }

  /** The first route equal to `r`. */
  function IndexOfRoute(routes: seq<Route>, r: Route): (i: nat)
    ensures i <= |routes|
    ensures i < |routes| ==> routes[i] == r
    ensures forall j :: 0 <= j < i ==> routes[j] != r
  {
    FirstWhere(routes, x => x == r)
  }

  /** The Hetzner Cloud network API for one network. */
  class NetworkApi {
    var routes: seq<Route>
    /** How many more times the API answers "conflict" or "locked". */
    var contention: nat
    /** How often a call failed although it could have succeeded. */
    ghost var faults: nat

    method GetByID() returns (r: Result<seq<Route>, RouteError>)
      modifies this`faults
      ensures r.Ok? ==> r.value == routes
      ensures r.Err? ==> r.error == Rejected || r.error == NetworkNotFound
      ensures old(faults) <= faults && (faults == old(faults) ==> r.Ok?)
    {
      var fails: bool, missing: bool := *, *;
      if fails || missing {
        faults := faults + 1;
      }
      return if fails then Err(Rejected) else if missing then Err(NetworkNotFound) else Ok(routes);
    }

    /** An action that fails later may or may not have taken effect. */
    method AddRoute(destination: Option<Net4>, gateway: Option<string>) returns (err: Option<RouteError>)
      modifies this
      ensures err == Some(Contention) ==> contention < old(contention) && routes == old(routes)
      ensures contention <= old(contention)
      ensures err.None? ==> destination.Some? && gateway.Some?
      ensures routes == old(routes)
              || (destination.Some? && gateway.Some?
                  && routes == old(routes) + [Route(destination.value, gateway.value)])
      ensures err.None? ==> routes != old(routes)
      ensures err.Some? ==> err.value == Contention || err.value == Rejected
      ensures old(faults) <= faults
      ensures faults == old(faults) && destination.Some? && gateway.Some? ==> err != Some(Rejected)
    {
      var busy: bool, fails: bool, actionFails: bool, takesEffect: bool := *, *, *, *;
      if busy && contention > 0 {
        contention := contention - 1;
        return Some(Contention);
      }
      if fails || actionFails {
        faults := faults + 1;
      }
      if fails || destination.None? || gateway.None? {
        return Some(Rejected);
      }
      if !actionFails || takesEffect {
        routes := routes + [Route(destination.value, gateway.value)];
      }
      return if actionFails then Some(Rejected) else None;
    }

    method DeleteRoute(destination: Option<Net4>, gateway: Option<string>) returns (err: Option<RouteError>)
      modifies this
      ensures err == Some(Contention) ==> contention < old(contention) && routes == old(routes)
      ensures contention <= old(contention)
      ensures routes == old(routes)
              || (destination.Some? && gateway.Some?
                  && var i := IndexOfRoute(old(routes), Route(destination.value, gateway.value));
                     i < |old(routes)| && routes == RemoveAt(old(routes), i))
      ensures err.None? ==> |routes| < |old(routes)|
      ensures err.Some? ==> err.value == Contention || err.value == Rejected
      ensures old(faults) <= faults
      ensures faults == old(faults) && destination.Some? && gateway.Some?
              && IndexOfRoute(old(routes), Route(destination.value, gateway.value)) < |old(routes)| ==>
                err != Some(Rejected)
    {
      var busy: bool, fails: bool, actionFails: bool, takesEffect: bool := *, *, *, *;
      if busy && contention > 0 {
        contention := contention - 1;
        return Some(Contention);
      }
      if fails || actionFails {
        faults := faults + 1;
      }
      if fails || destination.None? || gateway.None? {
        return Some(Rejected);
      }
      var i := IndexOfRoute(routes, Route(destination.value, gateway.value));
      if i == |routes| {
        return Some(Rejected);
      }
      if !actionFails || takesEffect {
        routes := RemoveAt(routes, i);
      }
      return if actionFails then Some(Rejected) else None;
    }
  }

  // ---------- What one call does ----------

  /** The first route whose destination prints as `cidr`. */
  function FirstMatch(routes: seq<Route>, cidr: string): (i: nat)
    requires ValidRoutes(routes)
    ensures i <= |routes|
    ensures i < |routes| ==> NetText(routes[i].destination) == cidr
    ensures forall j :: 0 <= j < i ==> NetText(routes[j].destination) != cidr
  {
    FirstWhere(routes, (r: Route) => ValidNet(r.destination) && NetText(r.destination) == cidr)
  }

  /** The routes after a successful call: a wrong gateway is removed and not replaced. */
  function Outcome(routes: seq<Route>, cidr: string, net: Option<Net4>, ip: Option<string>): seq<Route>
    requires ValidRoutes(routes)
  {
    var i := FirstMatch(routes, cidr);
    if i == |routes| then if net.Some? && ip.Some? then routes + [Route(net.value, ip.value)] else routes
    else if Some(routes[i].gateway) == ip then routes
    else RemoveAt(routes, i)
  }

  /**
   * How a call ends: for a readable destination and a node in the network with the outcome, or, if it
   * fails, maybe without any; otherwise it fails and changes nothing.
   */
  ghost predicate HasOutcome(
    before: seq<Route>, after: seq<Route>, cidr: string, privNet: Option<PrivateNet>, err: Option<RouteError>)
    requires ValidRoutes(before)
  {
    if ParseCidr(cidr).None? || privNet.None? then err.Some? && after == before
    else
      var net, ip := ToNet4(ParseCidr(cidr).value), privNet.value.ip;
      && (after == Outcome(before, cidr, net, ip) || (err.Some? && after == before))
      && (err.None? && FirstMatch(before, cidr) == |before| ==> net.Some? && ip.Some?)
  }

  /** The address of a node in the network: of the last server with its name, the first attachment. */
  function FindPrivateNet(nets: seq<PrivateNet>, networkId: int): Option<PrivateNet> {
    if nets == [] then None
    else if nets[0].networkId == networkId then Some(nets[0])
    else FindPrivateNet(nets[1..], networkId)
  }

  function NodeNet(cacheNetwork: Option<int>, servers: seq<Server>, node: string, networkId: int): Option<PrivateNet> {
    match Scan(cacheNetwork, servers, ByName(node))
    case None => None
    case Some(server) => FindPrivateNet(server.privateNet, networkId)
  }

  // ---------- The address of a node ----------

  /** The first attachment to a network. */
  ghost predicate IsFirstAttachment(nets: seq<PrivateNet>, j: nat, networkId: int) {
    j < |nets| && nets[j].networkId == networkId && forall k :: 0 <= k < j ==> nets[k].networkId != networkId
  }

  /** The last server with the node's name is attached to the network, with `ip` in its first attachment. */
  ghost predicate IsAttachedWith(servers: seq<Server>, node: string, networkId: int, ip: Option<string>) {
    exists i: nat, j: nat :: IsLastNamed(servers, i, node) && IsFirstAttachment(servers[i].privateNet, j, networkId)
                   && servers[i].privateNet[j].ip == ip
  }

  /** The last server with the node's name has some attachment to the network. */
  ghost predicate IsAttached(servers: seq<Server>, node: string, networkId: int) {
    exists i: nat, j: nat :: IsLastNamed(servers, i, node) && 0 <= j < |servers[i].privateNet|
                   && servers[i].privateNet[j].networkId == networkId
  }

  lemma {:induction false} FirstAttachment(nets: seq<PrivateNet>, networkId: int) returns (j: nat)
    ensures j <= |nets|
    ensures if j < |nets| then IsFirstAttachment(nets, j, networkId) && FindPrivateNet(nets, networkId) == Some(nets[j])
            else FindPrivateNet(nets, networkId).None? && forall k :: 0 <= k < |nets| ==> nets[k].networkId != networkId
  {
    j := 0;
    if nets != [] && nets[0].networkId != networkId {
      var more := FirstAttachment(nets[1..], networkId);
      j := more + 1;
      assert forall k :: 1 <= k < |nets| ==> nets[k] == nets[1..][k - 1];
    }
  }

  /** What a node's private network is, in terms of the list of servers. */
  lemma NodeNetIs(cacheNetwork: Option<int>, servers: seq<Server>, node: string, networkId: int)
    ensures var net := NodeNet(cacheNetwork, servers, node, networkId);
            && (net.Some? <==> IsAttached(servers, node, networkId))
            && forall ip :: net.Some? && net.value.ip == ip <==> IsAttachedWith(servers, node, networkId, ip)
  {
    var i := ScanFindsLast(cacheNetwork, servers, ByName(node));
    if i >= 0 {
      assert IsLastNamed(servers, i, node);
      assert forall i' :: IsLastNamed(servers, i', node) ==> i' == i;
      var nets := servers[i].privateNet;
      var j := FirstAttachment(nets, networkId);
      assert forall j' :: IsFirstAttachment(nets, j', networkId) ==> j' == j;
    }
  }

  method FindServerPrivateNetByID(srv: Server, id: int) returns (found: Option<PrivateNet>)
    ensures found == FindPrivateNet(srv.privateNet, id)
    ensures found.Some? ==>
              exists j: nat :: IsFirstAttachment(srv.privateNet, j, id) && srv.privateNet[j] == found.value
    ensures found.None? ==> forall n <- srv.privateNet :: n.networkId != id
  {
    var first := FirstAttachment(srv.privateNet, id);
    for i := 0 to |srv.privateNet|
      invariant FindPrivateNet(srv.privateNet, id) == FindPrivateNet(srv.privateNet[i..], id)
    {
      if srv.privateNet[i].networkId == id {
        return Some(srv.privateNet[i]);
      }
    }
    return None;
  }

  method FindRoute(routes: seq<Route>, cidr: string) returns (i: nat)
    requires ValidRoutes(routes)
    ensures i == FirstMatch(routes, cidr)
  {
    i := 0;
    while i < |routes| && NetText(routes[i].destination) != cidr
      invariant 0 <= i <= |routes|
      invariant forall j :: 0 <= j < i ==> NetText(routes[j].destination) != cidr
    {
      i := i + 1;
    }
  }

  /** The first route with a destination is also the first one equal to itself. */
  lemma RemoveIsRemoveFirst(routes: seq<Route>, cidr: string)
    requires ValidRoutes(routes) && FirstMatch(routes, cidr) < |routes|
    ensures var i := FirstMatch(routes, cidr); IndexOfRoute(routes, routes[i]) == i
  {
    var i := FirstMatch(routes, cidr);
    var k := IndexOfRoute(routes, routes[i]);
    assert !(k < i);
  }

  // ---------- The routes controller ----------

  class RoutesController {
    const api: NetworkApi
    const networkId: int
    const serverCache: AllServersCache
    /** The network as it was last loaded. */
    var network: seq<Route>

    /** Starts with an empty server cache that considers only addresses in this network. */
    constructor (api: NetworkApi, networkId: int, servers: ServerApi, clock: Clock, network: seq<Route>)
      requires clock.Valid() && ValidRoutes(api.routes) && ValidRoutes(network)
      ensures Valid() && this.api == api && this.networkId == networkId && this.network == network
      ensures fresh(serverCache) && serverCache.network == Some(networkId)
    {
      this.api, this.networkId, this.network := api, networkId, network;
      serverCache := new AllServersCache(servers, clock, 0, Some(networkId));
    }

    /** The cache holds no list yet, or the list that the API still reports. */
    ghost predicate Valid()
      reads this, api, serverCache, serverCache.clock, serverCache.api
    {
      && serverCache.Valid()
      && (serverCache.snapshot == [] || serverCache.snapshot == serverCache.api.servers)
      && ValidRoutes(api.routes) && ValidRoutes(network)
    }

    ghost function Net(node: string): Option<PrivateNet>
      reads serverCache, serverCache.api
    {
      NodeNet(serverCache.network, serverCache.api.servers, node, networkId)
    }

    method ReloadNetwork() returns (err: Option<RouteError>)
      requires Valid()
      modifies this`network, api`faults
      ensures Valid()
      ensures err.None? ==> network == api.routes
      ensures err.Some? ==> network == old(network)
      ensures old(api.faults) <= api.faults && (api.faults == old(api.faults) ==> err.None?)
    {
      var r := api.GetByID();
      if r.Err? {
        return Some(r.error);
      }
      network := r.value;
      return None;
    }

    /** How often a call to either API failed. */
    ghost function Faults(): nat
      reads this, api, serverCache, serverCache.api
    {
      api.faults + serverCache.api.faults
    }

    /** The private network of a node, according to the server cache. */
    method LookUp(node: string) returns (r: Result<Option<PrivateNet>, CacheError>)
      requires Valid()
      modifies serverCache, serverCache.clock, serverCache.api`faults
      ensures Valid()
      ensures r.Ok? ==> r.value == Net(node)
      ensures old(Faults()) <= Faults() && (Faults() == old(Faults()) && Net(node).Some? ==> r.Ok?)
    {
      var srv := serverCache.GetCache(ByName(node));
      if srv.Err? {
        assert srv.error.NotFound? ==> Scan(serverCache.network, serverCache.api.servers, ByName(node)).None?;
        return Err(srv.error);
      }
      assert serverCache.snapshot == serverCache.api.servers;
      var net := FindServerPrivateNetByID(srv.value, networkId);
      return Ok(net);
    }

    /** Looks again, in a new list, when the server is not attached to the network. */
    method LookUpTwice(node: string) returns (r: Result<PrivateNet, RouteError>)
      requires Valid()
      modifies serverCache, serverCache.clock, serverCache.api`faults
      ensures Valid()
      ensures r.Ok? ==> Net(node) == Some(r.value) && IsAttached(serverCache.api.servers, node, networkId)
      ensures r.Err? ==> r.error == NotAttached || r.error.NoServer?
      ensures old(Faults()) <= Faults() && (Faults() == old(Faults()) && Net(node).Some? ==> r.Ok?)
    {
      NodeNetIs(serverCache.network, serverCache.api.servers, node, networkId);
      var privNet := LookUp(node);
      if privNet.Err? {
        return Err(NoServer(privNet.error));
      }
      if privNet.value.None? {
        serverCache.InvalidateCache();
        privNet := LookUp(node);
        if privNet.Err? {
          return Err(NoServer(privNet.error));
        }
        if privNet.value.None? {
          return Err(NotAttached);
        }
      }
      return Ok(privNet.value.value);
    }

    /** The request names a network that the cloud can store, and a node with an address in the private network. */
    ghost predicate IsRoutable(node: string, destinationCIDR: string)
      reads this, serverCache, serverCache.api
    {
      && Net(node).Some? && Net(node).value.ip.Some?
      && ParseCidr(destinationCIDR).Some? && ToNet4(ParseCidr(destinationCIDR).value).Some?
    }

    ghost predicate Prints(destinationCIDR: string, v: nat, bits: nat) {
      v < 0x1_0000_0000 && bits <= 32 && destinationCIDR in {FormatPrefix4(v, bits), MappedText(v, bits)}
    }

    /**
     * The route leads to the address of the node in this network, and to the network that the
     * destination prints, as IPv4 or mapped, without its host bits.
     */
    ghost predicate LeadsTo(route: Route, node: string, destinationCIDR: string)
      reads this, serverCache, serverCache.api
    {
      && IsAttachedWith(serverCache.api.servers, node, networkId, Some(route.gateway))
      && forall v: nat, bits: nat :: Prints(destinationCIDR, v, bits) ==>
                             route.destination == Net4(Floor(v, Pow2(32 - bits)), bits)
    }

    lemma AddedRouteLeadsTo(route: Route, node: string, destinationCIDR: string)
      requires Net(node).Some? && Net(node).value.ip == Some(route.gateway)
      requires ParseCidr(destinationCIDR).Some? && ToNet4(ParseCidr(destinationCIDR).value) == Some(route.destination)
      ensures LeadsTo(route, node, destinationCIDR)
    {
      NodeNetIs(serverCache.network, serverCache.api.servers, node, networkId);
      forall v: nat, bits: nat | Prints(destinationCIDR, v, bits)
        ensures route.destination == Net4(Floor(v, Pow2(32 - bits)), bits)
      {
        ParsePrintedCidr(v, bits);
        ParseMappedCidr(v, bits);
      }
    }

    lemma OutcomeLeadsTo(
      before: seq<Route>, after: seq<Route>, node: string, destinationCIDR: string, err: Option<RouteError>)
      requires ValidRoutes(before) && HasOutcome(before, after, destinationCIDR, Net(node), err)
      ensures |after| > |before| ==>
                && |after| == |before| + 1 && before <= after && LeadsTo(after[|before|], node, destinationCIDR)
    {
      if |after| > |before| {
        AddedRouteLeadsTo(after[|before|], node, destinationCIDR);
      }
    }

    /**
     * Makes the route for a node. With a server list that does not change meanwhile, and no other
     * writer, a successful call has exactly one outcome; a failed one has that outcome or none.
     */
    method CreateRoute(node: string, destinationCIDR: string) returns (err: Option<RouteError>)
      requires Valid()
      modifies this`network, api, serverCache, serverCache.clock, serverCache.api`faults
      ensures Valid() && api.contention <= old(api.contention)
      ensures HasOutcome(old(api.routes), api.routes, destinationCIDR, Net(node), err)
      ensures |api.routes| > |old(api.routes)| ==>
                && |api.routes| == |old(api.routes)| + 1 && old(api.routes) <= api.routes
                && LeadsTo(api.routes[|old(api.routes)|], node, destinationCIDR)
      ensures !IsAttached(serverCache.api.servers, node, networkId) ==> err.Some? && api.routes == old(api.routes)
      ensures old(Faults()) <= Faults()
      ensures Faults() == old(Faults()) && IsRoutable(node, destinationCIDR) ==>
                err.None? || (err == Some(Contention) && api.contention < old(api.contention))
      decreases api.contention
    {
      var privNet := LookUpTwice(node);
      if privNet.Err? {
        return Some(privNet.error);
      }
      var cidr := ParseCidr(destinationCIDR);
      if cidr.None? {
        return Some(InvalidCidr);
      }
      var retry;
      err, retry := CheckAndAdd(node, destinationCIDR, cidr.value, privNet.value.ip);
      if retry {
        err := CreateRoute(node, destinationCIDR);
      } else {
        OutcomeLeadsTo(old(api.routes), api.routes, node, destinationCIDR, err);
      }
    }

    /** One attempt; it is repeated only when the API turned the new route down for contention. */
    method CheckAndAdd(node: string, destinationCIDR: string, cidr: Prefix, ip: Option<string>)
      returns (err: Option<RouteError>, retry: bool)
      requires Valid() && Net(node).Some? && Net(node).value.ip == ip && ParseCidr(destinationCIDR) == Some(cidr)
      modifies this`network, api, serverCache, serverCache.clock, serverCache.api`faults
      ensures Valid() && api.contention <= old(api.contention)
      ensures retry ==> api.contention < old(api.contention) && api.routes == old(api.routes)
      ensures !retry ==> HasOutcome(old(api.routes), api.routes, destinationCIDR, Net(node), err)
      ensures old(Faults()) <= Faults()
      ensures Faults() == old(Faults()) && IsRoutable(node, destinationCIDR) ==>
                err.None? || (err == Some(Contention) && api.contention < old(api.contention))
    {
      var found := CheckIfRouteAlreadyExists(node, destinationCIDR, cidr);
      if found.Err? {
        return Some(found.error), false;
      }
      if found.value {
        return None, false;
      }
      err := api.AddRoute(ToNet4(cidr), ip);
      retry := err == Some(Contention);
    }

    /** Whether the route need not be added; a route with another gateway is removed on the way. */
    method CheckIfRouteAlreadyExists(node: string, destinationCIDR: string, ghost cidr: Prefix)
      returns (r: Result<bool, RouteError>)
      requires Valid() && Net(node).Some?
      modifies this`network, api, serverCache, serverCache.clock, serverCache.api`faults
      ensures Valid() && api.contention <= old(api.contention)
      ensures var next := Outcome(old(api.routes), destinationCIDR, ToNet4(cidr), Net(node).value.ip);
              match r
              case Ok(found) =>
                && (found <==> FirstMatch(old(api.routes), destinationCIDR) < |old(api.routes)|)
                && api.routes == if found then next else old(api.routes)
              case Err(_) =>
                api.routes == old(api.routes)
                || (api.routes == next && FirstMatch(old(api.routes), destinationCIDR) < |old(api.routes)|)
      ensures r == Ok(true) ==>
                var gateway := old(api.routes)[FirstMatch(old(api.routes), destinationCIDR)].gateway;
                api.routes == old(api.routes) <==>
                IsAttachedWith(serverCache.api.servers, node, networkId, Some(gateway))
      ensures old(Faults()) <= Faults()
      ensures Faults() == old(Faults()) ==>
                r.Ok? || (r.error == Contention && api.contention < old(api.contention))
    {
      NodeNetIs(serverCache.network, serverCache.api.servers, node, networkId);
      var err := ReloadNetwork();
      if err.Some? {
        return Err(err.value);
      }
      var i := FindRoute(network, destinationCIDR);
      if i == |network| {
        return Ok(false);
      }
      var privNet := LookUp(node);
      if privNet.Err? {
        return Err(NoServer(privNet.error));
      }
      if privNet.value.None? {
        return Err(NotAttached);
      }
      err := DeleteIfElsewhere(i, destinationCIDR, ToNet4(cidr), privNet.value.value.ip);
      return if err.Some? then Err(err.value) else Ok(true);
    }

    /** Deletes the route that was found when it leads elsewhere. */
    method DeleteIfElsewhere(i: nat, destinationCIDR: string, ghost net: Option<Net4>, ip: Option<string>)
      returns (err: Option<RouteError>)
      requires Valid() && network == api.routes && i == FirstMatch(network, destinationCIDR) < |network|
      modifies api
      ensures Valid() && api.contention <= old(api.contention)
      ensures var next := Outcome(old(api.routes), destinationCIDR, net, ip);
              api.routes == next || (err.Some? && api.routes == old(api.routes))
      ensures old(Faults()) <= Faults()
      ensures Faults() == old(Faults()) ==>
                err.None? || (err == Some(Contention) && api.contention < old(api.contention))
    {
      err := None;
      if Some(network[i].gateway) != ip {
        err := api.DeleteRoute(Some(network[i].destination), Some(network[i].gateway));
        RemoveIsRemoveFirst(network, destinationCIDR);
        assert forall r <- api.routes :: r in network;
      }
    }

    /** The last loaded network has a gateway for the destination, and the API has that very route. */
    ghost predicate IsDeletable(routes: seq<Route>, destinationCIDR: string)
      requires Valid()
      reads this, api, serverCache, serverCache.clock, serverCache.api
    {
      var i := FirstMatch(network, destinationCIDR);
      && i < |network| && !IsUnspecified(network[i].gateway)
      && ParseCidr(destinationCIDR).Some? && ToNet4(ParseCidr(destinationCIDR).value).Some?
      && var route := Route(ToNet4(ParseCidr(destinationCIDR).value).value, network[i].gateway);
         IndexOfRoute(routes, route) < |routes|
    }

    /** Deletes a route by the gateway that the last loaded network gives for its destination. */
    method DeleteRoute(destinationCIDR: string) returns (err: Option<RouteError>)
      requires Valid()
      modifies api
      ensures Valid()
      ensures ParseCidr(destinationCIDR).Some? && FirstMatch(network, destinationCIDR) < |network| ==>
                var gateway := network[FirstMatch(network, destinationCIDR)].gateway;
                DeletedOrNot(old(api.routes), api.routes, ToNet4(ParseCidr(destinationCIDR).value), gateway)
      ensures old(api.faults) <= api.faults
      ensures api.faults == old(api.faults) && IsDeletable(old(api.routes), destinationCIDR) ==> err.None?
      ensures var i := FirstMatch(network, destinationCIDR);
              && (err == Some(RouteNotInNetwork) <==> i < |network| && network[i].gateway in ["0.0.0.0", "::"])
              && (i == |network| || ParseCidr(destinationCIDR).None? ==> err.Some? && api.routes == old(api.routes))
              && (err.None? ==>
                    && i < |network| && ParseCidr(destinationCIDR).Some?
                    && ToNet4(ParseCidr(destinationCIDR).value).Some?
                    && var route := Route(ToNet4(ParseCidr(destinationCIDR).value).value, network[i].gateway);
                       var at := IndexOfRoute(old(api.routes), route);
                       at < |old(api.routes)| && api.routes == RemoveAt(old(api.routes), at))
    {
      var i := FindRoute(network, destinationCIDR);
      var ip := if i < |network| then Some(network[i].gateway) else None;
      if ip.Some? && IsUnspecified(ip.value) {
        return Some(RouteNotInNetwork);
      }
      var cidr := ParseCidr(destinationCIDR);
      if cidr.None? {
        return Some(InvalidCidr);
      }
      err := DeleteRouteFromHcloud(ToNet4(cidr.value), ip);
    }

    method DeleteRouteFromHcloud(destination: Option<Net4>, ip: Option<string>) returns (err: Option<RouteError>)
      requires Valid()
      modifies api
      ensures Valid()
      ensures err.Some? ==> err.value == Rejected
      ensures err.None? ==>
                && destination.Some? && ip.Some?
                && var at := IndexOfRoute(old(api.routes), Route(destination.value, ip.value));
                   at < |old(api.routes)| && api.routes == RemoveAt(old(api.routes), at)
      ensures if ip.None? then api.routes == old(api.routes)
              else DeletedOrNot(old(api.routes), api.routes, destination, ip.value)
      ensures old(api.faults) <= api.faults
      ensures destination.Some? && ip.Some? && api.faults == old(api.faults) ==>
                (IndexOfRoute(old(api.routes), Route(destination.value, ip.value)) < |old(api.routes)| ==> err.None?)
      decreases api.contention
    {
      err := api.DeleteRoute(destination, ip);
      if err == Some(Contention) {
        err := DeleteRouteFromHcloud(destination, ip);
      }
    }
  }

  /** At most the first such route is gone. */
  ghost predicate DeletedOrNot(before: seq<Route>, after: seq<Route>, destination: Option<Net4>, gateway: string) {
    || after == before
    || (&& destination.Some?
        && var at := IndexOfRoute(before, Route(destination.value, gateway));
           at < |before| && after == RemoveAt(before, at))
  }

  /** `net.IP.IsUnspecified` on an address that is there. */
  predicate IsUnspecified(ip: string) {
    ip == "0.0.0.0" || ip == "::"
  }

  // ---------- Convergence ----------

  predicate UniqueDestinations(routes: seq<Route>) {
    forall i, j :: 0 <= i < j < |routes| ==> routes[i].destination != routes[j].destination
  }

  /** A text that reads back as the network it prints. */
  predicate Canonical(cidr: string) {
    ParseCidr(cidr).Some? && ToNet4(ParseCidr(cidr).value).Some? && NetText(ToNet4(ParseCidr(cidr).value).value) == cidr
  }

  /** Where a destination leads. */
  function GatewayOf(routes: seq<Route>, net: Net4): Option<string> {
    if routes == [] then None
    else if routes[|routes| - 1].destination == net then Some(routes[|routes| - 1].gateway)
    else GatewayOf(routes[..|routes| - 1], net)
  }

  /** The routes to all other destinations, in order. */
  function Others(routes: seq<Route>, net: Net4): seq<Route> {
    if routes == [] then []
    else
      var last := routes[|routes| - 1];
      Others(routes[..|routes| - 1], net) + if last.destination == net then [] else [last]
  }

  lemma {:induction false} OthersConcat(a: seq<Route>, b: seq<Route>, net: Net4)
    ensures Others(a + b, net) == Others(a, net) + Others(b, net)
  {
    if b == [] {
      assert a + b == a;
    } else {
      OthersConcat(a, b[..|b| - 1], net);
      assert (a + b)[..|a + b| - 1] == a + b[..|b| - 1];
    }
  }

  lemma {:induction false} GatewayAt(routes: seq<Route>, net: Net4, i: nat)
    requires UniqueDestinations(routes) && i < |routes| && routes[i].destination == net
    ensures GatewayOf(routes, net) == Some(routes[i].gateway)
  {
    if i < |routes| - 1 {
      GatewayAt(routes[..|routes| - 1], net, i);
    }
  }

  lemma {:induction false} GatewayAbsent(routes: seq<Route>, net: Net4)
    requires forall r <- routes :: r.destination != net
    ensures GatewayOf(routes, net).None?
  {
    if routes != [] {
      assert forall r <- routes[..|routes| - 1] :: r in routes;
      assert routes[|routes| - 1] in routes;
      GatewayAbsent(routes[..|routes| - 1], net);
    }
  }

  /** With unique destinations the first match is the only route with the destination. */
  lemma FirstMatchIsDestination(routes: seq<Route>, cidr: string, net: Net4)
    requires ValidRoutes(routes) && UniqueDestinations(routes)
    requires ValidNet(net) && NetText(net) == cidr
    ensures var i := FirstMatch(routes, cidr);
            if i < |routes| then routes[i].destination == net && GatewayOf(routes, net) == Some(routes[i].gateway)
            else (forall r <- routes :: r.destination != net) && GatewayOf(routes, net).None?
  {
    var i := FirstMatch(routes, cidr);
    if i < |routes| {
      assert routes[i] in routes;
      NetTextInjective(routes[i].destination, net);
      GatewayAt(routes, net, i);
    } else {
      GatewayAbsent(routes, net);
    }
  }

  lemma AppendedRoute(routes: seq<Route>, net: Net4, ip: string)
    requires UniqueDestinations(routes) && forall r <- routes :: r.destination != net
    ensures var next := routes + [Route(net, ip)];
            && GatewayOf(next, net) == Some(ip) && Others(next, net) == Others(routes, net)
            && UniqueDestinations(next)
  {
    var next := routes + [Route(net, ip)];
    assert next[..|next| - 1] == routes;
    forall j | 0 <= j < |routes|
      ensures next[j].destination != net
    {
      assert routes[j] in routes;
    }
  }

  lemma {:induction false} OthersWithout(routes: seq<Route>, net: Net4, i: nat)
    requires i < |routes| && routes[i].destination == net
    ensures Others(RemoveAt(routes, i), net) == Others(routes, net)
  {
    var init, last := routes[..|routes| - 1], routes[|routes| - 1];
    if i == |routes| - 1 {
      assert RemoveAt(routes, i) == init;
    } else {
      OthersWithout(init, net, i);
      assert RemoveAt(routes, i) == RemoveAt(init, i) + [last];
      OthersConcat(RemoveAt(init, i), [last], net);
      assert Others(routes, net) == Others(init, net) + Others([last], net);
    }
  }

  lemma RemovedRoute(routes: seq<Route>, net: Net4, i: nat)
    requires UniqueDestinations(routes) && i < |routes| && routes[i].destination == net
    ensures var next := RemoveAt(routes, i);
            && GatewayOf(next, net).None? && UniqueDestinations(next)
            && forall r <- next :: r in routes
  {
    var next := RemoveAt(routes, i);
    forall r | r in next
      ensures r.destination != net && r in routes
    {
      var j :| 0 <= j < |next| && r == next[j];
      assert r == routes[if j < i then j else j + 1];
    }
    GatewayAbsent(next, net);
  }

  /** Where a call leaves a destination: a wrong gateway is only removed. */
  function GatewayAfterCall(before: Option<string>, ip: string): Option<string> {
    if before.Some? && before != Some(ip) then None else Some(ip)
  }

  /**
   * One successful call leaves the destination right or absent, never wrong; it leaves it absent
   * exactly when it led elsewhere before. No other route changes, and destinations stay unique.
   */
  lemma OneCall(routes: seq<Route>, cidr: string, net: Net4, ip: string)
    requires ValidRoutes(routes) && UniqueDestinations(routes)
    requires ValidNet(net) && NetText(net) == cidr
    ensures var next := Outcome(routes, cidr, Some(net), Some(ip));
            && GatewayOf(next, net) == GatewayAfterCall(GatewayOf(routes, net), ip)
            && Others(next, net) == Others(routes, net)
            && ValidRoutes(next) && UniqueDestinations(next)
  {
    FirstMatchIsDestination(routes, cidr, net);
    var i := FirstMatch(routes, cidr);
    if i == |routes| {
      AppendedRoute(routes, net, ip);
    } else if routes[i].gateway != ip {
      RemovedRoute(routes, net, i);
      OthersWithout(routes, net, i);
    }
  }

  /** Two successful calls route the destination to the node and leave every other route as it was. */
  lemma TwoCallsConverge(routes: seq<Route>, cidr: string, net: Net4, ip: string)
    requires ValidRoutes(routes) && UniqueDestinations(routes)
    requires ValidNet(net) && NetText(net) == cidr
    ensures var once := Outcome(routes, cidr, Some(net), Some(ip));
            ValidRoutes(once) &&
            var twice := Outcome(once, cidr, Some(net), Some(ip));
            && GatewayOf(twice, net) == Some(ip)
            && Others(twice, net) == Others(routes, net)
            && UniqueDestinations(twice)
  {
    OneCall(routes, cidr, net, ip);
    OneCall(Outcome(routes, cidr, Some(net), Some(ip)), cidr, net, ip);
  }

  /** A call for one destination, written as it prints; it may fail. */
  datatype RouteCall = RouteCall(net: Net4, ip: string, succeeded: bool)

  /** A run of calls for any destinations, in any order. */
  ghost predicate IsRun(states: seq<seq<Route>>, calls: seq<RouteCall>) {
    && |states| == |calls| + 1
    && (forall i :: 0 <= i < |states| ==> ValidRoutes(states[i]))
    && (forall i {:trigger calls[i]} :: 0 <= i < |calls| ==>
          ValidNet(calls[i].net) && IsCall(states[i], states[i + 1], calls[i]))
  }

  /** A failed call has its outcome or none. */
  ghost predicate IsCall(before: seq<Route>, after: seq<Route>, c: RouteCall)
    requires ValidRoutes(before) && ValidNet(c.net)
  {
    after == Outcome(before, NetText(c.net), Some(c.net), Some(c.ip)) || (!c.succeeded && after == before)
  }

  /** The successful calls for a destination. */
  function Successes(calls: seq<RouteCall>, net: Net4): nat {
    if calls == [] then 0
    else
      var last := calls[|calls| - 1];
      Successes(calls[..|calls| - 1], net) + if last.net == net && last.succeeded then 1 else 0
  }

  /** How far a destination is from leading to `ip`. */
  function Distance(routes: seq<Route>, net: Net4, ip: string): nat {
    match GatewayOf(routes, net)
    case None => 1
    case Some(gateway) => if gateway == ip then 0 else 2
  }

  /** The routes to all other destinations, in order. */
  function Outside(routes: seq<Route>, nets: set<Net4>): seq<Route> {
    if routes == [] then []
    else
      var last := routes[|routes| - 1];
      Outside(routes[..|routes| - 1], nets) + if last.destination in nets then [] else [last]
  }

  /** What is left without one destination tells where every other one leads. */
  lemma {:induction false} GatewayInOthers(routes: seq<Route>, net: Net4, other: Net4)
    requires other != net
    ensures GatewayOf(Others(routes, net), other) == GatewayOf(routes, other)
  {
    if routes != [] {
      var init, last := routes[..|routes| - 1], routes[|routes| - 1];
      GatewayInOthers(init, net, other);
      if last.destination == net {
        assert Others(routes, net) == Others(init, net);
      } else {
        assert Others(routes, net)[..|Others(init, net)|] == Others(init, net);
      }
    }
  }

  lemma {:induction false} OutsideOfOthers(routes: seq<Route>, net: Net4, nets: set<Net4>)
    requires net in nets
    ensures Outside(Others(routes, net), nets) == Outside(routes, nets)
  {
    if routes != [] {
      var init, last := routes[..|routes| - 1], routes[|routes| - 1];
      OutsideOfOthers(init, net, nets);
      if last.destination == net {
        assert Others(routes, net) == Others(init, net);
      } else {
        assert Others(routes, net)[..|Others(init, net)|] == Others(init, net);
      }
    }
  }

  /** A call brings its own destination closer, and leaves all others where they are. */
  lemma CallGetsCloser(before: seq<Route>, after: seq<Route>, c: RouteCall, net: Net4, ip: string)
    requires ValidRoutes(before) && ValidNet(c.net) && IsCall(before, after, c)
    requires UniqueDestinations(before) && (c.net == net ==> c.ip == ip)
    ensures Distance(after, net, ip) <= Distance(before, net, ip)
    ensures c.net == net && c.succeeded && Distance(before, net, ip) > 0 ==>
              Distance(after, net, ip) < Distance(before, net, ip)
    ensures c.net != net ==> GatewayOf(after, net) == GatewayOf(before, net)
    ensures Others(after, c.net) == Others(before, c.net) && UniqueDestinations(after)
  {
    OneCall(before, NetText(c.net), c.net, c.ip);
    if after != before {
      LeadsCloser(before, after, c, net, ip);
    }
  }

  /** What a call does to where its own destination leads decides about all others. */
  lemma LeadsCloser(before: seq<Route>, after: seq<Route>, c: RouteCall, net: Net4, ip: string)
    requires GatewayOf(after, c.net) == GatewayAfterCall(GatewayOf(before, c.net), c.ip)
    requires Others(after, c.net) == Others(before, c.net) && (c.net == net ==> c.ip == ip)
    ensures Distance(after, net, ip) <= Distance(before, net, ip)
    ensures c.net == net && Distance(before, net, ip) > 0 ==> Distance(after, net, ip) < Distance(before, net, ip)
    ensures c.net != net ==> GatewayOf(after, net) == GatewayOf(before, net)
  {
    if c.net != net {
      GatewayInOthers(before, c.net, net);
      GatewayInOthers(after, c.net, net);
    }
  }

  /** One more call keeps the distance and the successes so far within two. */
  lemma ConvergesByOne(before: seq<Route>, after: seq<Route>, c: RouteCall, net: Net4, ip: string, successes: nat)
    requires ValidRoutes(before) && ValidNet(c.net) && IsCall(before, after, c)
    requires UniqueDestinations(before) && (c.net == net ==> c.ip == ip)
    requires Distance(before, net, ip) == 0 || Distance(before, net, ip) + successes <= 2
    ensures UniqueDestinations(after) && Distance(after, net, ip) <= Distance(before, net, ip)
    ensures || Distance(after, net, ip) == 0
            || Distance(after, net, ip) + successes + (if c.net == net && c.succeeded then 1 else 0) <= 2
  {
    CallGetsCloser(before, after, c, net, ip);
  }

  /**
   * However calls for many destinations, and failed ones, are mixed: a destination whose calls all name
   * the same address leads there after two of them succeeded, and does not get further away. No
   * destination is ever listed twice.
   */
  lemma {:induction false} RunConverges(
    states: seq<seq<Route>>, calls: seq<RouteCall>, net: Net4, ip: string, k: nat)
    requires IsRun(states, calls) && UniqueDestinations(states[0]) && k <= |calls|
    requires forall i :: 0 <= i < |calls| && calls[i].net == net ==> calls[i].ip == ip
    ensures UniqueDestinations(states[k]) && Distance(states[k], net, ip) <= Distance(states[0], net, ip)
    ensures Distance(states[k], net, ip) == 0 || Distance(states[k], net, ip) + Successes(calls[..k], net) <= 2
    decreases k
  {
    if k > 0 {
      RunConverges(states, calls, net, ip, k - 1);
      ConvergesByOne(states[k - 1], states[k], calls[k - 1], net, ip, Successes(calls[..k - 1], net));
      assert calls[..k][..k - 1] == calls[..k - 1];
    }
  }

  lemma CallKeepsOutside(before: seq<Route>, after: seq<Route>, c: RouteCall, nets: set<Net4>)
    requires ValidRoutes(before) && ValidNet(c.net) && IsCall(before, after, c)
    requires UniqueDestinations(before) && c.net in nets
    ensures UniqueDestinations(after) && Outside(after, nets) == Outside(before, nets)
  {
    CallGetsCloser(before, after, c, c.net, c.ip);
    OutsideOfOthers(before, c.net, nets);
    OutsideOfOthers(after, c.net, nets);
  }

  lemma StepKeepsOutside(states: seq<seq<Route>>, calls: seq<RouteCall>, nets: set<Net4>, i: nat)
    requires IsRun(states, calls) && i < |calls| && UniqueDestinations(states[i]) && calls[i].net in nets
    ensures UniqueDestinations(states[i + 1]) && Outside(states[i + 1], nets) == Outside(states[i], nets)
  {
    CallKeepsOutside(states[i], states[i + 1], calls[i], nets);
  }

  /** What every step of a run keeps, the run keeps. */
  lemma {:induction false} StepsKeep<S, V>(states: seq<S>, inv: S -> bool, view: S -> V, k: nat)
    requires k < |states| && inv(states[0])
    requires forall i {:trigger inv(states[i])} :: 0 <= i < |states| - 1 && inv(states[i]) ==>
               inv(states[i + 1]) && view(states[i + 1]) == view(states[i])
    ensures inv(states[k]) && view(states[k]) == view(states[0])
    decreases k
  {
    if k > 0 {
      StepsKeep(states, inv, view, k - 1);
    }
  }

  /** The routes to all destinations that no call of a run names stay as they are, in their order. */
  lemma RunKeepsOthers(states: seq<seq<Route>>, calls: seq<RouteCall>, nets: set<Net4>, k: nat)
    requires IsRun(states, calls) && UniqueDestinations(states[0]) && k <= |calls|
    requires forall i :: 0 <= i < |calls| ==> calls[i].net in nets
    ensures UniqueDestinations(states[k]) && Outside(states[k], nets) == Outside(states[0], nets)
  {
    var inv, view := (s: seq<Route>) => UniqueDestinations(s), (s: seq<Route>) => Outside(s, nets);
    forall i | 0 <= i < |states| - 1 && inv(states[i])
      ensures inv(states[i + 1]) && view(states[i + 1]) == view(states[i])
    {
      StepKeepsOutside(states, calls, nets, i);
    }
    StepsKeep(states, inv, view, k);
  }

  /**
   * A text that is not canonical is not found again, so the next call asks for the same route once more;
   * what comes of that is up to the API.
   */
  lemma AddedRouteIsFoundExactlyWhenCanonical(routes: seq<Route>, cidr: string, ip: string)
    requires ValidRoutes(routes) && FirstMatch(routes, cidr) == |routes|
    requires ParseCidr(cidr).Some? && ToNet4(ParseCidr(cidr).value).Some?
    ensures var next := Outcome(routes, cidr, ToNet4(ParseCidr(cidr).value), Some(ip));
            ValidRoutes(next) && (FirstMatch(next, cidr) < |next| <==> Canonical(cidr))
  {
    var net := ToNet4(ParseCidr(cidr).value).value;
    assert Outcome(routes, cidr, Some(net), Some(ip)) == routes + [Route(net, ip)];
    FirstMatchOfAdded(routes, cidr, Route(net, ip));
  }

  lemma FirstMatchOfAdded(routes: seq<Route>, cidr: string, r: Route)
    requires ValidRoutes(routes) && FirstMatch(routes, cidr) == |routes| && ValidNet(r.destination)
    ensures FirstMatch(routes + [r], cidr) < |routes| + 1 <==> NetText(r.destination) == cidr
  {
    var next := routes + [r];
    forall j | 0 <= j < |routes|
      ensures NetText(next[j].destination) != cidr
    {
      assert next[j] == routes[j];
    }
    assert next[|routes|] == r;
  }
}

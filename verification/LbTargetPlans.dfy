/**
 * What a target run is after, in terms of nodes and dedicated servers (internal/hcops/load_balancer.go,
 * ReconcileHCLBTargets), and the guarantees of `TargetRuns` for the plans that occur.
 */
module LbTargetPlans {
  import opened Basics
  import opened HCloud
  import opened ProviderId
  import R = RobotCache
  import opened TargetRuns
  import Cidr

  // ---------- Inputs ----------

  datatype Node = Node(name: string, providerId: string)

  datatype AddressFamily = DualStack | IPv6 | IPv4

  /** The annotations of the Service that matter here; a missing value could not be parsed. */
  datatype TargetOptions = TargetOptions(family: Option<AddressFamily>, usePrivateIP: Option<bool>)

  /** The addresses of a dedicated server that are used as targets, at most one per family. */
  function RobotTargetIPs(family: AddressFamily, s: R.RobotServer): seq<string> {
    (if (family.IPv4? || family.DualStack?) && s.ip != "" then [s.ip] else [])
    + (if (family.IPv6? || family.DualStack?) && s.ipv6Net != "" then [s.ipv6Net + "1"] else [])
  }

  /** `net.ParseIP` accepts the text. */
  predicate IsIP(s: string) {
    Cidr.ParseAddr(s).Some?
  }

  /** The number of targets at which a load balancer of a type is full. */
  function MaxTargets(lbType: string): nat {
    if lbType == "lb31" then 150 else if lbType == "lb21" then 75 else 25
  }

  predicate MaxTargetsReached(currentNumber: int, lbType: string) {
    currentNumber >= MaxTargets(lbType)
  }

  // ---------- The plan of one run ----------

  function CloudIds(nodes: seq<Node>): set<int> {
    set n | n in nodes && ToServerId(n.providerId).Ok? && ToServerId(n.providerId).value.isCloudServer ::
      ToServerId(n.providerId).value.id as int
  }

  function RobotIds(nodes: seq<Node>): set<int> {
    set n | n in nodes && ToServerId(n.providerId).Ok? && !ToServerId(n.providerId).value.isCloudServer ::
      ToServerId(n.providerId).value.id as int
  }

  /** Nodes of other providers are skipped; any other unreadable provider ID is an error. */
  predicate AllReadable(nodes: seq<Node>) {
    forall n <- nodes :: ToServerId(n.providerId).Ok? || ToServerId(n.providerId).error == UnknownPrefix
  }

  /** The addresses of the last server with each number. */
  function IdToIPs(family: AddressFamily, servers: seq<R.RobotServer>): map<int, seq<string>> {
    if servers == [] then map[]
    else
      var last := servers[|servers| - 1];
      IdToIPs(family, servers[..|servers| - 1])[last.number := RobotTargetIPs(family, last)]
  }

  function SetAll(m: map<string, int>, ips: seq<string>, number: int): map<string, int> {
    if ips == [] then m else SetAll(m, ips[..|ips| - 1], number)[ips[|ips| - 1] := number]
  }

  /** The number of the last server that has each address. */
  function IpToId(family: AddressFamily, servers: seq<R.RobotServer>): map<string, int> {
    if servers == [] then map[]
    else
      var last := servers[|servers| - 1];
      SetAll(IpToId(family, servers[..|servers| - 1]), RobotTargetIPs(family, last), last.number)
  }

  /** Targets of the right kind whose node is in the cluster. */
  ghost function Keep(
    cloudIds: set<int>, robotIds: set<int>, ipToId: map<string, int>, usePrivateIP: bool): set<Target>
  {
    (set id | id in cloudIds :: ServerTarget(id, usePrivateIP))
    + (set ip | ip in ipToId && ipToId[ip] in robotIds :: IPTarget(ip))
  }

  ghost function ServersToAdd(cloudIds: set<int>, usePrivateIP: bool): set<Target> {
    set id | id in cloudIds :: ServerTarget(id, usePrivateIP)
  }

  function ListedIPs(idToIPs: map<int, seq<string>>, id: int): seq<string> {
    if id in idToIPs then idToIPs[id] else []
  }

  ghost function IPsToAdd(robotIds: set<int>, idToIPs: map<int, seq<string>>): set<Target> {
    set id, ip | id in robotIds && ip in ListedIPs(idToIPs, id) && IsIP(ip) :: IPTarget(ip)
  }

  /** A missing type is an empty text; the limit is then not known. */
  function CapOf(lbType: string): Option<nat> {
    if lbType == "" then None else Some(MaxTargets(lbType))
  }

  /** Everything a run depends on, besides the targets that are there. */
  datatype PlanInput = PlanInput(
    lb: int,
    lbType: string,
    family: AddressFamily,
    usePrivateIP: bool,
    nodes: seq<Node>,
    servers: seq<R.RobotServer>)

  /** The plan for some servers and addresses. */
  ghost function PlanOfParts(
    lb: int, cloudIds: set<int>, robotIds: set<int>, ipToId: map<string, int>, idToIPs: map<int, seq<string>>,
    usePrivateIP: bool, lbType: string): Plan
  {
    Plan(lb, Keep(cloudIds, robotIds, ipToId, usePrivateIP),
         ServersToAdd(cloudIds, usePrivateIP) + IPsToAdd(robotIds, idToIPs), CapOf(lbType))
  }

  ghost function PlanFor(i: PlanInput): Plan {
    PlanOfParts(i.lb, CloudIds(i.nodes), RobotIds(i.nodes), IpToId(i.family, i.servers), IdToIPs(i.family, i.servers),
                i.usePrivateIP, i.lbType)
  }

  lemma PlanOfPartsIsValid(
    lb: int, cloudIds: set<int>, robotIds: set<int>, ipToId: map<string, int>, idToIPs: map<int, seq<string>>,
    usePrivateIP: bool, lbType: string)
    ensures ValidPlan(PlanOfParts(lb, cloudIds, robotIds, ipToId, idToIPs, usePrivateIP, lbType))
  {
  }

  lemma PlanIsValid(i: PlanInput)
    ensures ValidPlan(PlanFor(i))
  {
    PlanOfPartsIsValid(
      i.lb, CloudIds(i.nodes), RobotIds(i.nodes), IpToId(i.family, i.servers), IdToIPs(i.family, i.servers),
      i.usePrivateIP, i.lbType);
  }

  ghost predicate NoRepeats(ips: seq<string>) {
    forall j, k :: 0 <= j < k < |ips| ==> ips[j] != ips[k]
  }

  /** No address is listed twice, for one dedicated server of the cluster or for two. */
  ghost predicate DistinctNodeIPs(robotIds: set<int>, idToIPs: map<int, seq<string>>) {
    && (forall id <- robotIds :: NoRepeats(ListedIPs(idToIPs, id)))
    && (forall id, id', ip :: id in robotIds && id' in robotIds && id != id' && ip in ListedIPs(idToIPs, id) ==>
                                ip !in ListedIPs(idToIPs, id'))
  }

  // ---------- The indexes of the Robot list ----------

  lemma {:induction false} SetAllIs(m: map<string, int>, ips: seq<string>, number: int, ip: string)
    ensures ip in SetAll(m, ips, number) <==> ip in m || ip in ips
    ensures ip in SetAll(m, ips, number) ==> SetAll(m, ips, number)[ip] == if ip in ips then number else m[ip]
  {
    if ips != [] {
      var init, last := ips[..|ips| - 1], ips[|ips| - 1];
      SetAllIs(m, init, number, ip);
      assert ips == init + [last];
    }
  }

  /** The address index names the last server with the address. */
  lemma {:induction false} AddressOwner(family: AddressFamily, servers: seq<R.RobotServer>, ip: string) returns (i: int)
    ensures -1 <= i < |servers|
    ensures i >= 0 <==> ip in IpToId(family, servers)
    ensures i >= 0 ==> ip in RobotTargetIPs(family, servers[i]) && IpToId(family, servers)[ip] == servers[i].number
    ensures forall j :: i < j < |servers| ==> ip !in RobotTargetIPs(family, servers[j])
  {
    i := -1;
    if servers != [] {
      var init, last := servers[..|servers| - 1], servers[|servers| - 1];
      SetAllIs(IpToId(family, init), RobotTargetIPs(family, last), last.number, ip);
      if ip in RobotTargetIPs(family, last) {
        i := |servers| - 1;
      } else {
        i := AddressOwner(family, init, ip);
        forall j | i < j < |servers|
          ensures ip !in RobotTargetIPs(family, servers[j])
        {
          assert j == |init| || servers[j] == init[j];
        }
        assert i < 0 || servers[i] == init[i];
      }
    }
  }

  /** The number index gives the addresses of the last server with the number. */
  lemma {:induction false} NumberOwner(family: AddressFamily, servers: seq<R.RobotServer>, id: int) returns (i: int)
    ensures -1 <= i < |servers|
    ensures i >= 0 ==> servers[i].number == id
                       && ListedIPs(IdToIPs(family, servers), id) == RobotTargetIPs(family, servers[i])
    ensures i < 0 ==> ListedIPs(IdToIPs(family, servers), id) == []
    ensures forall j :: i < j < |servers| ==> servers[j].number != id
  {
    i := -1;
    if servers != [] {
      var init, last := servers[..|servers| - 1], servers[|servers| - 1];
      if last.number == id {
        i := |servers| - 1;
      } else {
        i := NumberOwner(family, init, id);
        forall j | i < j < |servers|
          ensures servers[j].number != id
        {
          assert j == |init| || servers[j] == init[j];
        }
        assert i < 0 || servers[i] == init[i];
      }
    }
  }

  // ---------- What is wanted ----------

  /** A node that is the cloud server, or the dedicated server, with the ID. */
  ghost predicate HasNode(nodes: seq<Node>, id: int, isCloudServer: bool) {
    exists n :: n in nodes && IsNodeWith(n, id, isCloudServer)
  }

  ghost predicate IsNodeWith(n: Node, id: int, isCloudServer: bool) {
    var parsed := ToServerId(n.providerId);
    parsed.Ok? && parsed.value.id as int == id && parsed.value.isCloudServer == isCloudServer
  }

  lemma NodeIdsAre(nodes: seq<Node>, id: int)
    ensures id in CloudIds(nodes) <==> HasNode(nodes, id, true)
    ensures id in RobotIds(nodes) <==> HasNode(nodes, id, false)
  {
    if id in CloudIds(nodes) {
      var n :| n in nodes && ToServerId(n.providerId).Ok? && ToServerId(n.providerId).value.isCloudServer
               && id == ToServerId(n.providerId).value.id as int;
      assert IsNodeWith(n, id, true);
    }
    if id in RobotIds(nodes) {
      var n :| n in nodes && ToServerId(n.providerId).Ok? && !ToServerId(n.providerId).value.isCloudServer
               && id == ToServerId(n.providerId).value.id as int;
      assert IsNodeWith(n, id, false);
    }
  }

  /** An address of a dedicated server: its IPv4 address, or the first one of its IPv6 network. */
  ghost predicate HasAddress(family: AddressFamily, s: R.RobotServer, ip: string) {
    || (family != IPv6 && s.ip != "" && ip == s.ip)
    || (family != IPv4 && s.ipv6Net != "" && ip == s.ipv6Net + "1")
  }

  lemma TargetIPsAre(family: AddressFamily, s: R.RobotServer, ip: string)
    ensures ip in RobotTargetIPs(family, s) <==> HasAddress(family, s, ip)
  {
    var v4 := if (family.IPv4? || family.DualStack?) && s.ip != "" then [s.ip] else [];
    var v6 := if (family.IPv6? || family.DualStack?) && s.ipv6Net != "" then [s.ipv6Net + "1"] else [];
    assert RobotTargetIPs(family, s) == v4 + v6;
    assert ip in v4 + v6 <==> ip in v4 || ip in v6;
  }

  /** The targets a reader of the documentation expects: every cloud node, and every address of every dedicated node. */
  ghost predicate IsWanted(i: PlanInput, t: Target) {
    match t
    case ServerTarget(id, isPrivate) => isPrivate == i.usePrivateIP && HasNode(i.nodes, id, true)
    case IPTarget(ip) => exists s :: s in i.servers && HasNode(i.nodes, s.number, false) && HasAddress(i.family, s, ip)
    case LabelTarget(_) => false
  }

  ghost function Wanted(i: PlanInput): set<Target> {
    (set id | id in CloudIds(i.nodes) :: ServerTarget(id, i.usePrivateIP))
    + (set s, ip | s in i.servers && s.number in RobotIds(i.nodes) && ip in RobotTargetIPs(i.family, s) :: IPTarget(ip))
  }

  /** These are exactly the wanted targets. */
  lemma WantedIs(i: PlanInput, t: Target)
    ensures t in Wanted(i) <==> IsWanted(i, t)
  {
    match t
    case ServerTarget(id, _) =>
      NodeIdsAre(i.nodes, id);
    case IPTarget(ip) =>
      forall s | s in i.servers
        ensures s.number in RobotIds(i.nodes) <==> HasNode(i.nodes, s.number, false)
        ensures ip in RobotTargetIPs(i.family, s) <==> HasAddress(i.family, s, ip)
      {
        NodeIdsAre(i.nodes, s.number);
        TargetIPsAre(i.family, s, ip);
      }
    case LabelTarget(_) =>
  }

  /** The number of targets at which a load balancer of a type takes no more; without a type it is not known. */
  ghost predicate IsAtLimit(lbType: string, targets: nat) {
    if lbType == "" then false
    else if lbType == "lb31" then targets >= 150
    else if lbType == "lb21" then targets >= 75
    else targets >= 25
  }

  /** Where a run is to end: the own targets are exactly the wanted ones, or there is no room for more. */
  ghost predicate IsReached(i: PlanInput, start: set<Target>, now: set<Target>) {
    || (forall t :: t in Own(now) <==> IsWanted(i, t))
    || (&& IsAtLimit(i.lbType, |now|)
        && (forall t :: t in Own(now) ==> IsWanted(i, t))
        && (forall t :: t in Own(start) && IsWanted(i, t) ==> t in now))
  }

  /** Every dedicated server has a number, and addresses, of its own, and every address is an IP. */
  ghost predicate RobotListIsSound(family: AddressFamily, servers: seq<R.RobotServer>) {
    DistinctNumbers(servers) && DistinctAddresses(family, servers) && ValidAddresses(family, servers)
  }

  ghost predicate DistinctNumbers(servers: seq<R.RobotServer>) {
    forall j, k :: 0 <= j < k < |servers| ==> servers[j].number != servers[k].number
  }

  ghost predicate DistinctAddresses(family: AddressFamily, servers: seq<R.RobotServer>) {
    forall j, k, ip :: 0 <= j < k < |servers| && ip in RobotTargetIPs(family, servers[j]) ==>
                         ip !in RobotTargetIPs(family, servers[k])
  }

  ghost predicate ValidAddresses(family: AddressFamily, servers: seq<R.RobotServer>) {
    forall s, ip :: s in servers && ip in RobotTargetIPs(family, s) ==> Cidr.ParseAddr(ip).Some?
  }

  /** An address may stay exactly when it belongs to a dedicated node. */
  lemma KeptAddress(i: PlanInput, ip: string)
    requires DistinctAddresses(i.family, i.servers)
    ensures IPTarget(ip) in PlanFor(i).keep <==> IPTarget(ip) in Wanted(i)
  {
    var owner := AddressOwner(i.family, i.servers, ip);
    if IPTarget(ip) in Wanted(i) {
      var s :| s in i.servers && s.number in RobotIds(i.nodes) && ip in RobotTargetIPs(i.family, s);
      var k :| 0 <= k < |i.servers| && i.servers[k] == s;
      assert owner == k;
    }
    if owner >= 0 {
      assert i.servers[owner] in i.servers;
    }
  }

  /** An address is added exactly when it belongs to a dedicated node, and is an IP. */
  lemma AddedAddress(i: PlanInput, ip: string)
    requires DistinctNumbers(i.servers)
    ensures IPTarget(ip) in PlanFor(i).add <==> IPTarget(ip) in Wanted(i) && IsIP(ip)
  {
    var robotIds, idToIPs := RobotIds(i.nodes), IdToIPs(i.family, i.servers);
    if IPTarget(ip) in IPsToAdd(robotIds, idToIPs) {
      var id :| id in robotIds && ip in ListedIPs(idToIPs, id) && IsIP(ip);
      var owner := NumberOwner(i.family, i.servers, id);
      assert i.servers[owner] in i.servers;
    }
    if IPTarget(ip) in Wanted(i) && IsIP(ip) {
      var s :| s in i.servers && s.number in robotIds && ip in RobotTargetIPs(i.family, s);
      var k :| 0 <= k < |i.servers| && i.servers[k] == s;
      var owner := NumberOwner(i.family, i.servers, s.number);
      assert owner == k;
    }
  }

  /** With a sound Robot list a run keeps and adds exactly what is wanted. */
  lemma PlanIsWanted(i: PlanInput)
    requires RobotListIsSound(i.family, i.servers)
    ensures PlanFor(i).keep == PlanFor(i).add == Wanted(i)
  {
    var p, wanted := PlanFor(i), Wanted(i);
    forall t
      ensures t in p.keep <==> t in wanted
      ensures t in p.add <==> t in wanted
    {
      if t.IPTarget? {
        KeptAddress(i, t.ip);
        AddedAddress(i, t.ip);
      }
    }
  }

  /** With addresses of their own, no two addresses of dedicated nodes are the same. */
  lemma SoundListIsDistinct(i: PlanInput)
    requires DistinctAddresses(i.family, i.servers)
    requires forall s <- i.servers :: NoRepeats(RobotTargetIPs(i.family, s))
    ensures DistinctNodeIPs(RobotIds(i.nodes), IdToIPs(i.family, i.servers))
  {
    var robotIds, idToIPs := RobotIds(i.nodes), IdToIPs(i.family, i.servers);
    forall id | id in robotIds
      ensures NoRepeats(ListedIPs(idToIPs, id))
    {
      var owner := NumberOwner(i.family, i.servers, id);
      assert owner >= 0 ==> i.servers[owner] in i.servers;
    }
    forall id, id', ip | id in robotIds && id' in robotIds && id != id' && ip in ListedIPs(idToIPs, id)
      ensures ip !in ListedIPs(idToIPs, id')
    {
      var owner := NumberOwner(i.family, i.servers, id);
      var owner' := NumberOwner(i.family, i.servers, id');
    }
  }

  // ---------- The guarantees for a whole run ----------

  /**
   * A run that no call failed in and that did not hit the quota ends with exactly the wanted targets,
   * or on a load balancer that is full of wanted targets, with every wanted one that was there.
   */
  lemma ConvergesOrFillsUp(i: PlanInput, start: set<Target>, now: set<Target>)
    requires RobotListIsSound(i.family, i.servers) && Complete(PlanFor(i), start, now)
    ensures IsReached(i, start, now)
  {
    PlanIsWanted(i);
    PlanIsValid(i);
    CompleteIsConvergedOrFull(PlanFor(i), start, now);
    forall t
      ensures t in Wanted(i) <==> IsWanted(i, t)
    {
      WantedIs(i, t);
    }
    ReachedWanted(i, start, now, Wanted(i));
  }

  lemma ReachedWanted(i: PlanInput, start: set<Target>, now: set<Target>, wanted: set<Target>)
    requires forall t :: t in wanted <==> IsWanted(i, t)
    requires || Own(now) == wanted
             || (IsFull(PlanFor(i), now) && Own(now) <= wanted && Own(start) * wanted <= Own(now))
    ensures IsReached(i, start, now)
  {
    if Own(now) != wanted {
      forall t | t in Own(start) && IsWanted(i, t)
        ensures t in now
      {
        assert t in Own(start) * wanted;
      }
    }
  }

  /** No addition is allowed exactly at the limit of the type. */
  lemma FullExactly(i: PlanInput, targets: set<Target>)
    ensures IsFull(PlanFor(i), targets) <==> IsAtLimit(i.lbType, |targets|)
  {
  }

  /** For any Robot list, a server may stay and is added exactly when it is a cloud node reached the configured way. */
  lemma PlannedServer(i: PlanInput, id: int, isPrivate: bool)
    ensures var t, p := ServerTarget(id, isPrivate), PlanFor(i);
            && (t in p.keep <==> IsWanted(i, t)) && (t in p.add <==> IsWanted(i, t))
  {
    NodeIdsAre(i.nodes, id);
  }

  /** The changes of any series of runs, each cut off anywhere, number at most the initial difference. */
  lemma ChangesAreBounded(i: PlanInput, start: set<Target>, runs: seq<seq<Call>>)
    requires RobotListIsSound(i.family, i.servers) && IsSeries(PlanFor(i), start, runs)
    ensures SeriesLength(runs) <= |(Own(start) - Wanted(i)) + (Wanted(i) - Own(start))|
  {
    PlanIsWanted(i);
    PlanIsValid(i);
    SeriesIsBounded(PlanFor(i), start, runs);
    RemainingIsDifference(PlanFor(i), start);
  }

  // ---------- Addresses that are added but may not stay ----------

  /** A dedicated node has the address, but the last server that has it is no node. */
  ghost predicate IsShared(i: PlanInput, ip: string) {
    exists node, last :: IsSharedBy(i, ip, node, last)
  }

  ghost predicate IsSharedBy(i: PlanInput, ip: string, node: int, last: int) {
    && IsNodeAddress(i, ip, node) && node < last < |i.servers|
    && ip in RobotTargetIPs(i.family, i.servers[last]) && i.servers[last].number !in RobotIds(i.nodes)
    && forall k :: last < k < |i.servers| ==> ip !in RobotTargetIPs(i.family, i.servers[k])
  }

  /** A dedicated node has the address; the last server with a number counts. */
  ghost predicate IsNodeAddress(i: PlanInput, ip: string, node: int) {
    && 0 <= node < |i.servers| && HasNode(i.nodes, i.servers[node].number, false)
    && HasAddress(i.family, i.servers[node], ip)
    && forall k :: node < k < |i.servers| ==> i.servers[k].number != i.servers[node].number
  }

  /** For any list, an address is added exactly when a dedicated node has it, and it is an IP. */
  lemma AddedNodeAddress(i: PlanInput, ip: string)
    ensures IPTarget(ip) in PlanFor(i).add <==> Cidr.ParseAddr(ip).Some? && exists node :: IsNodeAddress(i, ip, node)
  {
    var robotIds, idToIPs := RobotIds(i.nodes), IdToIPs(i.family, i.servers);
    if IPTarget(ip) in IPsToAdd(robotIds, idToIPs) {
      var id :| id in robotIds && ip in ListedIPs(idToIPs, id) && IsIP(ip);
      var owner := NumberOwner(i.family, i.servers, id);
      NodeIdsAre(i.nodes, id);
      TargetIPsAre(i.family, i.servers[owner], ip);
      assert IsNodeAddress(i, ip, owner);
    }
    if node :| IsNodeAddress(i, ip, node) {
      NodeIdsAre(i.nodes, i.servers[node].number);
      TargetIPsAre(i.family, i.servers[node], ip);
      var owner := NumberOwner(i.family, i.servers, i.servers[node].number);
      assert owner == node;
    }
  }

  /** The last server that has the address, or -1. */
  ghost predicate IsLastOwner(i: PlanInput, ip: string, owner: int) {
    && -1 <= owner < |i.servers|
    && (owner >= 0 ==> ip in RobotTargetIPs(i.family, i.servers[owner]))
    && forall k :: owner < k < |i.servers| ==> ip !in RobotTargetIPs(i.family, i.servers[k])
  }

  lemma KeptByLastOwner(i: PlanInput, ip: string) returns (owner: int)
    ensures IsLastOwner(i, ip, owner)
    ensures IPTarget(ip) in PlanFor(i).keep <==> owner >= 0 && i.servers[owner].number in RobotIds(i.nodes)
  {
    owner := AddressOwner(i.family, i.servers, ip);
  }

  lemma SharedByLastOwner(i: PlanInput, ip: string, owner: int)
    requires IsLastOwner(i, ip, owner)
    ensures IsShared(i, ip) <==>
            (exists node :: IsNodeAddress(i, ip, node)) && i.servers[owner].number !in RobotIds(i.nodes)
  {
    if node :| IsNodeAddress(i, ip, node) {
      if i.servers[owner].number !in RobotIds(i.nodes) {
        assert IsSharedBy(i, ip, node, owner);
      }
    }
    if node, last :| IsSharedBy(i, ip, node, last) {
      assert IsNodeAddress(i, ip, node);
    }
  }

  /** These are exactly the addresses that a run adds although they may not stay. */
  lemma UnstableAddress(i: PlanInput, ip: string)
    ensures IPTarget(ip) in PlanFor(i).add && IPTarget(ip) !in PlanFor(i).keep <==> IsIP(ip) && IsShared(i, ip)
  {
    AddedNodeAddress(i, ip);
    var owner := KeptByLastOwner(i, ip);
    SharedByLastOwner(i, ip, owner);
  }

  /** Everything that is added may stay exactly when no address is shared that way. */
  lemma StableExactly(i: PlanInput)
    ensures PlanFor(i).add <= PlanFor(i).keep <==> forall ip :: IsShared(i, ip) ==> !IsIP(ip)
  {
    var p := PlanFor(i);
    forall ip
      ensures IPTarget(ip) in p.add && IPTarget(ip) !in p.keep <==> IsIP(ip) && IsShared(i, ip)
    {
      UnstableAddress(i, ip);
    }
    assert forall t <- p.add :: t.ServerTarget? ==> t in p.keep;
    assert forall t <- p.add :: t.ServerTarget? || t.IPTarget?;
  }

  /**
   * An address that is shared that way is removed by every successful run. At the end it is back,
   * because the run added it again, or the load balancer is full.
   */
  lemma SharedAddressFlaps(i: PlanInput, ip: string, start: set<Target>, run: seq<Call>)
    requires IsIP(ip) && IsShared(i, ip)
    requires IPTarget(ip) in start && Succeeds(PlanFor(i), start, run)
    ensures Call(i.lb, RemoveTarget(IPTarget(ip))) in run
    ensures IPTarget(ip) in After(start, run) || IsFull(PlanFor(i), After(start, run))
    ensures IPTarget(ip) in After(start, run) ==> Call(i.lb, AddTarget(IPTarget(ip))) in run
  {
    UnstableAddress(i, ip);
    PlanIsValid(i);
    UnstablePlanFlaps(PlanFor(i), start, run, IPTarget(ip));
  }
}

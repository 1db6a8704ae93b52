/**
 * Ensuring, updating and deleting the load balancer of a Service (hcloud/load_balancers.go), on top
 * of the reconcilers of settings, services and targets.
 */
module LoadBalancers {
  import opened Basics
  import opened HCloud
  import opened LbRegistry
  import opened LbSettings
  import S = LbServices
  import P = LbTargetPlans
  import T = LbTargets
  import Runs = TargetRuns

  /** What the cluster says about one Service and its nodes. */
  datatype Request = Request(
    settings: ServiceSettings,
    defaultName: string,
    hasPlacement: bool,
    ports: seq<S.ServicePort>,
    targets: P.TargetOptions,
    nodes: seq<P.Node>,
    robot: T.RobotAnswer,
    networkId: int)

  function LbName(r: Request): string {
    r.settings.lbName.GetOr(r.defaultName)
  }

  /** The name a load balancer is looked for and created by: the annotated one, or else the default. */
  ghost function NameFor(r: Request): string {
    match r.settings.lbName
    case Some(annotated) => annotated
    case None => r.defaultName
  }

  lemma LbNameIs(r: Request)
    ensures LbName(r) == NameFor(r)
  {
  }

  // ---------- Lookups ----------

  method GetByK8SServiceUID(cloud: Cloud, uid: string) returns (r: Result<int, ErrorCode>)
    modifies cloud`faults
    ensures r.Ok? ==> Labelled(cloud.lbs, uid) == {r.value}
    ensures r == Err(NotFound) ==> Labelled(cloud.lbs, uid) == {}
    ensures r == Err(NonUnique) ==> |Labelled(cloud.lbs, uid)| > 1
    ensures old(cloud.faults) <= cloud.faults
    ensures cloud.faults == old(cloud.faults) ==>
              match |Labelled(cloud.lbs, uid)|
              case 0 => r == Err(NotFound)
              case 1 => r.Ok?
              case _ => r == Err(NonUnique)
  {
    var list := cloud.AllWithUid(uid);
    if list.Err? {
      return Err(OtherCode);
    }
    T.ListingSize(list.value, Labelled(cloud.lbs, uid));
    if |list.value| == 0 {
      return Err(NotFound);
    }
    if |list.value| > 1 {
      return Err(NonUnique);
    }
    assert list.value[0] in list.value;
    assert forall id <- Labelled(cloud.lbs, uid) :: id in list.value && id == list.value[0];
    return Ok(list.value[0]);
  }

  /** The load balancer with the UID, or else the one with the name. */
  method FindExisting(cloud: Cloud, r: Request) returns (found: Result<int, ErrorCode>)
    modifies cloud`faults
    ensures found.Ok? ==>
              && found.value in cloud.lbs
              && (|| Labelled(cloud.lbs, r.settings.uid) == {found.value}
                  || (Labelled(cloud.lbs, r.settings.uid) == {} && cloud.lbs[found.value].name == LbName(r)))
    ensures found == Err(NotFound) ==>
              Labelled(cloud.lbs, r.settings.uid) == {} && forall id <- cloud.lbs :: cloud.lbs[id].name != LbName(r)
    ensures old(cloud.faults) <= cloud.faults
    ensures cloud.faults == old(cloud.faults) && |Labelled(cloud.lbs, r.settings.uid)| <= 1 ==>
              found.Ok? || found == Err(NotFound)
  {
    found := GetByK8SServiceUID(cloud, r.settings.uid);
    if found.Ok? {
      assert found.value in Labelled(cloud.lbs, r.settings.uid);
      return;
    }
    if found.error != NotFound {
      return;
    }
    var named := cloud.GetByName(LbName(r));
    if named.Err? {
      return Err(OtherCode);
    }
    return if named.value.None? then Err(NotFound) else Ok(named.value.value);
  }

  // ---------- Creating ----------

  /** A new load balancer: labelled with the UID, attached to the network, without services and targets. */
  function NewLb(r: Request): LbState {
    LbState(LbName(r), map[LABEL_SERVICE_UID := r.settings.uid], false,
            r.settings.lbType.GetOr("lb11"),
            if r.settings.algorithm.Set? then r.settings.algorithm.value else "round_robin",
            DEFAULT_RDNS, DEFAULT_RDNS,
            !(r.settings.disablePublicNetwork.Set? && r.settings.disablePublicNetwork.value),
            if r.networkId > 0 then {r.networkId} else {}, map[], {})
  }

  /**
   * A load balancer as it is created: with the name, type and algorithm that are asked for or else the
   * defaults, public unless that is switched off, and not protected.
   */
  ghost predicate IsNewFor(s: LbState, r: Request) {
    && s.name == NameFor(r) && s.labels == map[LABEL_SERVICE_UID := r.settings.uid] && !s.deleteProtected
    && s.lbType == (match r.settings.lbType case Some(lbType) => lbType case None => "lb11")
    && (r.settings.algorithm.Set? ==> s.algorithm == r.settings.algorithm.value)
    && (s.publicEnabled <==> r.settings.disablePublicNetwork != Set(true))
    && s.networks == (if r.networkId > 0 then {r.networkId} else {})
    && s.services == map[] && s.targets == {}
  }

  method Create(cloud: Cloud, r: Request) returns (lb: Result<LoadBalancer, ErrorCode>, ghost used: Used)
    requires cloud.Valid() && Labelled(cloud.lbs, r.settings.uid) == {}
    modifies cloud
    ensures cloud.Valid() && EnsureStep(old(cloud.lbs), cloud.lbs, r.settings.uid, LbName(r), used) && !used.Existing?
    ensures used.Created? ==> cloud.lbs[used.id] == NewLb(r) && IsNewFor(cloud.lbs[used.id], r)
    ensures used.Created? ==>
              r.hasPlacement && !r.settings.algorithm.Invalid? && !r.settings.disablePublicNetwork.Invalid?
    ensures lb.Ok? ==>
              && fresh(lb.value) && used == Created(lb.value.id) && lb.value.Listed()
              && lb.value.state == cloud.lbs[lb.value.id]
    ensures old(cloud.faults) <= cloud.faults
    ensures cloud.faults == old(cloud.faults) && r.hasPlacement && AnnotationsAreReadable(r.settings) ==> lb.Ok?
  {
    used := Nothing;
    if !r.hasPlacement || r.settings.algorithm.Invalid? {
      return Err(OtherCode), used;
    }
    if r.networkId > 0 {
      var found := cloud.Read();
      if !found {
        return Err(OtherCode), used;
      }
    }
    if r.settings.disablePublicNetwork.Invalid? {
      return Err(OtherCode), used;
    }
    ghost var before := cloud.lbs;
    var o, id := cloud.Create(NewLb(r));
    if cloud.lbs != before {
      used := Created(id);
      assert HasUid(cloud.lbs[id], r.settings.uid);
    }
    if o != Done {
      return Err(OtherCode), used;
    }
    assert id in cloud.lbs && id !in before;
    var read := cloud.Read();
    if !read {
      return Err(OtherCode), used;
    }
    var copy := cloud.Snapshot(id);
    return Ok(copy), used;
  }

  // ---------- Reconciling ----------

  /** The parts of a load balancer after the reconcilers succeeded; the targets may have hit the quota. */
  ghost predicate IsReconciled(id: int, start: LbState, now: LbState, r: Request, quota: bool) {
    && now == Reconciled(start, r.settings, r.networkId).(services := S.PortMap(r.ports), targets := now.targets)
    && S.DistinctPorts(r.ports)
    && T.InputsAreGood(r.targets, r.networkId, r.nodes, r.robot)
    && (!quota ==> Runs.Complete(PlanAt(id, start, r), start.targets, now.targets))
  }

  ghost function InputAt(id: int, start: LbState, r: Request): P.PlanInput
    requires r.targets.family.Some? && r.targets.usePrivateIP.Some?
  {
    P.PlanInput(
      id, start.lbType, r.targets.family.value, r.targets.usePrivateIP.value, r.nodes, T.ServersOf(r.robot))
  }

  /** The plan for the targets; the limit is that of the type before the run, even when the run changes the type. */
  ghost function PlanAt(id: int, start: LbState, r: Request): Runs.Plan
    requires r.targets.family.Some? && r.targets.usePrivateIP.Some?
  {
    P.PlanFor(InputAt(id, start, r))
  }

  /**
   * What holds wherever a run stops: no port that is old and new and no wanted target went away, nothing
   * came that is not wanted, and nothing was added to a full load balancer.
   */
  ghost predicate IsSafe(id: int, start: LbState, now: LbState, r: Request) {
    S.KeepsPorts(r.ports, start.services, now.services) && TargetsAreSafe(id, start, now.targets, r)
  }

  /** With unreadable inputs no target changes. */
  ghost predicate TargetsAreSafe(id: int, start: LbState, targets: set<Target>, r: Request) {
    if T.InputsAreGood(r.targets, r.networkId, r.nodes, r.robot) then
      Runs.Between(PlanAt(id, start, r), start.targets, targets)
    else
      targets == start.targets
  }

  /** The ports of a load balancer are those of the Service, and lead to its node ports. */
  ghost predicate ServesPorts(services: map<int, int>, ports: seq<S.ServicePort>) {
    forall port, nodePort ::
      port in services && services[port] == nodePort <==> S.ServicePort(port, nodePort) in ports
  }

  /**
   * Where a successful run ends, read off the request: settings, ports and targets are what it asks
   * for, as far as the limit and the quota let it, given a Robot list without doubtful entries.
   */
  ghost predicate EndsAsAsked(id: int, start: LbState, now: LbState, r: Request, quota: bool) {
    && IsAsAsked(start, now, r.settings, r.networkId) && ServesPorts(now.services, r.ports)
    && (match (r.targets.family, r.targets.usePrivateIP)
        case (Some(family), Some(usePrivateIP)) =>
          (r.robot.Some? ==> r.robot.value.Ok?) &&
          var servers := if r.robot.Some? then r.robot.value.value else [];
          !quota && P.RobotListIsSound(family, servers) ==>
            P.IsReached(
              P.PlanInput(id, start.lbType, family, usePrivateIP, r.nodes, servers), start.targets, now.targets)
        case _ => false)
  }

  /** Something the target run depends on cannot be read, or Robot failed. */
  ghost predicate HasInputError(r: Request) {
    exists e :: T.IsInputError(r.targets, r.networkId, r.nodes, r.robot, e)
  }

  /**
   * However a run ends: with an annotation, a node or a Robot answer that cannot be used it fails, and
   * without usable nodes and servers it leaves the targets alone; when it succeeds, it did what was asked.
   */
  ghost predicate MeetsRequest(id: int, start: LbState, now: LbState, r: Request, failed: bool, quota: bool) {
    && (HasInputError(r) ==> failed && now.targets == start.targets)
    && (r.settings.algorithm.Invalid? || r.settings.disablePublicNetwork.Invalid? ==> failed)
    && (!failed ==> EndsAsAsked(id, start, now, r, quota))
  }

  /** However a run ends it is safe and meets the request; a successful one has reconciled every part. */
  ghost predicate EndsWell(id: int, start: LbState, now: LbState, r: Request, failed: bool, quota: bool) {
    && IsSafe(id, start, now, r) && MeetsRequest(id, start, now, r, failed, quota)
    && (!failed ==> IsReconciled(id, start, now, r, quota))
  }

  /** A call that fails after everything was reconciled does no harm. */
  lemma EndsWellStill(id: int, start: LbState, now: LbState, r: Request, failed: bool, quota: bool)
    requires EndsWell(id, start, now, r, failed, quota)
    ensures EndsWell(id, start, now, r, true, quota)
  {
    if !failed {
      ReconciledEndsAsAsked(id, start, now, r, quota);
    }
  }

  lemma SafeRunEndsWell(id: int, start: LbState, now: LbState, r: Request, failed: bool, quota: bool)
    requires IsSafe(id, start, now, r) && (!failed ==> IsReconciled(id, start, now, r, quota))
    requires !failed ==> AnnotationsAreReadable(r.settings)
    ensures EndsWell(id, start, now, r, failed, quota)
  {
    T.InputErrorExactly(r.targets, r.networkId, r.nodes, r.robot);
    if !failed {
      ReconciledEndsAsAsked(id, start, now, r, quota);
    }
  }

  lemma PortMapServes(ports: seq<S.ServicePort>)
    requires S.DistinctPorts(ports)
    ensures ServesPorts(S.PortMap(ports), ports)
  {
    S.PortMapIsExact(ports);
    forall port, nodePort
      ensures port in S.PortMap(ports) && S.PortMap(ports)[port] == nodePort <==> S.ServicePort(port, nodePort) in ports
    {
      if port in S.PortMap(ports) {
        var p :| p in ports && p.port == port;
        assert S.PortMap(ports)[p.port] == p.nodePort && p == S.ServicePort(p.port, p.nodePort);
      }
    }
  }

  lemma ReconciledEndsAsAsked(id: int, start: LbState, now: LbState, r: Request, quota: bool)
    requires IsReconciled(id, start, now, r, quota)
    ensures EndsAsAsked(id, start, now, r, quota) && !HasInputError(r)
  {
    ReconciledIsAsAsked(start, r.settings, r.networkId);
    PortMapServes(r.ports);
    T.InputErrorExactly(r.targets, r.networkId, r.nodes, r.robot);
    var i := InputAt(id, start, r);
    if !quota && P.RobotListIsSound(i.family, i.servers) {
      P.ConvergesOrFillsUp(i, start.targets, now.targets);
    }
  }

  /** The nodes and the Robot list can be read, and no two dedicated nodes share an address. */
  ghost predicate NodesAreUsable(r: Request) {
    && T.InputsAreGood(r.targets, r.networkId, r.nodes, r.robot)
    && T.NodeIPsAreDistinct(r.targets.family.value, r.nodes, r.robot)
  }

  /** Everything in a request is as it should be; then only a failing call can make it fail. */
  ghost predicate IsSatisfiable(r: Request) {
    r.hasPlacement && AnnotationsAreReadable(r.settings) && S.DistinctPorts(r.ports) && NodesAreUsable(r)
  }

  method ReconcileSettings(cloud: Cloud, lb: LoadBalancer, r: Request) returns (changed: bool, failed: bool)
    requires cloud.Valid() && lb.id in cloud.lbs && lb.state == cloud.lbs[lb.id] && lb.Listed()
    modifies cloud, lb
    ensures cloud.Valid() && OnlyOne(old(cloud.lbs), cloud.lbs, lb.id, r.settings.uid)
    ensures cloud.lbs[lb.id].targets == old(cloud.lbs)[lb.id].targets
    ensures cloud.lbs[lb.id].services == old(cloud.lbs)[lb.id].services
    ensures !failed ==> cloud.lbs[lb.id] == Reconciled(old(cloud.lbs)[lb.id], r.settings, r.networkId)
    ensures !failed ==> lb.state.lbType == old(cloud.lbs)[lb.id].lbType && AnnotationsAreReadable(r.settings)
    ensures old(cloud.faults) <= cloud.faults
    ensures cloud.faults == old(cloud.faults) && AnnotationsAreReadable(r.settings) ==> !failed
  {
    changed, failed := ReconcileHCLB(cloud, lb, r.settings, r.networkId);
  }

  method ReconcilePorts(cloud: Cloud, lb: LoadBalancer, r: Request) returns (changed: bool, failed: bool)
    requires cloud.Valid() && lb.id in cloud.lbs && IsListing(lb.listenPorts, cloud.lbs[lb.id].services.Keys)
    modifies cloud
    ensures cloud.Valid() && OnlyOne(old(cloud.lbs), cloud.lbs, lb.id, r.settings.uid)
    ensures cloud.lbs[lb.id] == old(cloud.lbs)[lb.id].(services := cloud.lbs[lb.id].services)
    ensures S.KeepsPorts(r.ports, old(cloud.lbs)[lb.id].services, cloud.lbs[lb.id].services)
    ensures !failed ==> S.DistinctPorts(r.ports) && cloud.lbs[lb.id].services == S.PortMap(r.ports)
    ensures old(cloud.faults) <= cloud.faults
    ensures cloud.faults == old(cloud.faults) && S.DistinctPorts(r.ports) ==> !failed
  {
    ghost var before, log := cloud.lbs, cloud.log;
    changed, failed := S.ReconcileServices(cloud, lb, r.ports);
    S.RunKeepsPorts(lb.id, r.ports, before[lb.id].services, cloud.log[|log|..]);
    assert cloud.lbs == before[lb.id := cloud.lbs[lb.id]];
  }

  method ReconcileNodes(cloud: Cloud, lb: LoadBalancer, r: Request, ghost start: LbState)
    returns (changed: bool, failed: bool, ghost quota: bool)
    requires cloud.Valid() && lb.id in cloud.lbs && IsListing(lb.targets, cloud.lbs[lb.id].targets)
    requires start.targets == cloud.lbs[lb.id].targets && start.lbType == lb.state.lbType
    modifies cloud
    ensures cloud.Valid() && OnlyOne(old(cloud.lbs), cloud.lbs, lb.id, r.settings.uid)
    ensures cloud.lbs[lb.id] == old(cloud.lbs)[lb.id].(targets := cloud.lbs[lb.id].targets)
    ensures TargetsAreSafe(lb.id, start, cloud.lbs[lb.id].targets, r)
    ensures !failed ==> T.InputsAreGood(r.targets, r.networkId, r.nodes, r.robot)
    ensures !failed && !quota ==> Runs.Complete(PlanAt(lb.id, start, r), start.targets, cloud.lbs[lb.id].targets)
    ensures old(cloud.faults) <= cloud.faults
    ensures cloud.faults == old(cloud.faults) && NodesAreUsable(r) ==> !failed && !quota
  {
    ghost var from := T.Here(cloud);
    var err;
    changed, err, quota := RunTargets(cloud, lb, r, start);
    failed := err.Some?;
    TargetsEndedSafely(cloud, lb.id, start, r, from, changed, err, quota);
  }

  /** How a target run ends: without changes if its inputs are not good, and else as a run of the plan. */
  ghost predicate TargetsEnded(
    cloud: Cloud, id: int, start: LbState, r: Request, from: T.Origin, changed: bool, err: Option<T.TargetsError>,
    quota: bool)
    reads cloud
  {
    if T.InputsAreGood(r.targets, r.networkId, r.nodes, r.robot) then
      && T.Ended(cloud, PlanAt(id, start, r), from, changed, err, quota)
      && (T.NodeIPsAreDistinct(r.targets.family.value, r.nodes, r.robot) ==> cloud.refused == from.refused)
    else err.Some? && !quota && T.Here(cloud) == from
  }

  method RunTargets(cloud: Cloud, lb: LoadBalancer, r: Request, ghost start: LbState)
    returns (changed: bool, err: Option<T.TargetsError>, ghost quota: bool)
    requires cloud.Valid() && lb.id in cloud.lbs && IsListing(lb.targets, cloud.lbs[lb.id].targets)
    requires start.lbType == lb.state.lbType
    modifies cloud
    ensures cloud.Valid()
    ensures TargetsEnded(cloud, lb.id, start, r, old(T.Here(cloud)), changed, err, quota)
  {
    T.InputErrorExactly(r.targets, r.networkId, r.nodes, r.robot);
    changed, err, quota := T.ReconcileTargets(cloud, lb, r.targets, r.networkId, r.nodes, r.robot);
  }

  lemma TargetsEndedSafely(
    cloud: Cloud, id: int, start: LbState, r: Request, from: T.Origin, changed: bool, err: Option<T.TargetsError>,
    quota: bool)
    requires TargetsEnded(cloud, id, start, r, from, changed, err, quota)
    requires id in from.lbs && from.lbs[id].targets == start.targets
    ensures OnlyOne(from.lbs, cloud.lbs, id, r.settings.uid) && from.faults <= cloud.faults
    ensures cloud.lbs[id] == from.lbs[id].(targets := cloud.lbs[id].targets)
    ensures TargetsAreSafe(id, start, cloud.lbs[id].targets, r)
    ensures err.None? ==> T.InputsAreGood(r.targets, r.networkId, r.nodes, r.robot)
    ensures err.None? && !quota ==> Runs.Complete(PlanAt(id, start, r), start.targets, cloud.lbs[id].targets)
    ensures cloud.faults == from.faults && NodesAreUsable(r) ==> err.None? && !quota
  {
    if T.InputsAreGood(r.targets, r.networkId, r.nodes, r.robot) {
      P.PlanIsValid(InputAt(id, start, r));
      T.EndedSafely(cloud, PlanAt(id, start, r), from, changed, err, quota);
    }
    assert cloud.lbs == from.lbs[id := cloud.lbs[id]];
  }

  // ---------- The entry points ----------

  /**
   * A new load balancer carries the UID, is public exactly unless that is switched off, has the
   * annotated type or the smallest one, and is not protected.
   */
  ghost predicate IsCreatedAsAsked(s: LbState, r: Request) {
    && HasUid(s, r.settings.uid) && !s.deleteProtected
    && (s.publicEnabled <==> r.settings.disablePublicNetwork != Set(true))
    && s.lbType == match r.settings.lbType case Some(lbType) => lbType case None => "lb11"
  }

  lemma CreatedEndsAsAsked(id: int, start: LbState, now: LbState, r: Request, quota: bool)
    requires IsNewFor(start, r) && EndsWell(id, start, now, r, false, quota)
    ensures IsCreatedAsAsked(now, r)
  {
  }

  method EnsureLoadBalancer(cloud: Cloud, r: Request)
    returns (failed: bool, ghost used: Used, ghost start: LbState, ghost quota: bool)
    requires cloud.Valid()
    modifies cloud
    ensures cloud.Valid() && EnsureStep(old(cloud.lbs), cloud.lbs, r.settings.uid, NameFor(r), used)
    ensures if used.Nothing? then failed else EndsWell(used.id, start, cloud.lbs[used.id], r, failed, quota)
    ensures used.Existing? ==> start == old(cloud.lbs)[used.id]
    ensures used.Created? ==>
              && IsNewFor(start, r) && !cloud.lbs[used.id].deleteProtected
              && (!failed ==> IsCreatedAsAsked(cloud.lbs[used.id], r))
    ensures cloud.faults == old(cloud.faults) && |Labelled(old(cloud.lbs), r.settings.uid)| <= 1 ==>
              && FindsExactly(old(cloud.lbs), r.settings.uid, NameFor(r), used)
              && (IsSatisfiable(r) ==> !failed && !quota)
  {
    quota := false;
    ghost var before, uid := cloud.lbs, r.settings.uid;
    LbNameIs(r);
    var found;
    found, used, start := FindOrCreate(cloud, r);
    if found.Err? {
      failed := true;
      return;
    }
    ghost var lbs0 := cloud.lbs;
    failed, quota := ReconcileAndReload(cloud, found.value, r, start);
    UsedStaysStep(before, lbs0, cloud.lbs, uid, LbName(r), used);
    if !failed && used.Created? {
      CreatedEndsAsAsked(used.id, start, cloud.lbs[used.id], r, quota);
    }
  }

  /** The three reconcilers, and a reload when they changed something. */
  method ReconcileAndReload(cloud: Cloud, lb: LoadBalancer, r: Request, ghost start: LbState)
    returns (failed: bool, ghost quota: bool)
    requires cloud.Valid() && lb.id in cloud.lbs && lb.state == cloud.lbs[lb.id] == start && lb.Listed()
    modifies cloud, lb
    ensures cloud.Valid() && OnlyOne(old(cloud.lbs), cloud.lbs, lb.id, r.settings.uid)
    ensures EndsWell(lb.id, start, cloud.lbs[lb.id], r, failed, quota)
    ensures old(cloud.faults) <= cloud.faults
    ensures cloud.faults == old(cloud.faults) && IsSatisfiable(r) ==> !failed && !quota
  {
    var reload;
    reload, failed, quota := ReconcileAll(cloud, lb, r, start);
    EndsWellStill(lb.id, start, cloud.lbs[lb.id], r, failed, quota);
    if !failed && reload {
      var read := cloud.Read();
      failed := !read;
    }
  }

  /** The load balancer with the UID or the name, or else a new one, as it is before anything is reconciled. */
  method FindOrCreate(cloud: Cloud, r: Request)
    returns (lb: Result<LoadBalancer, ErrorCode>, ghost used: Used, ghost start: LbState)
    requires cloud.Valid()
    modifies cloud
    ensures cloud.Valid() && EnsureStep(old(cloud.lbs), cloud.lbs, r.settings.uid, LbName(r), used)
    ensures !used.Nothing? ==> cloud.lbs[used.id] == start && EndsWell(used.id, start, start, r, true, false)
    ensures used.Existing? ==> cloud.lbs == old(cloud.lbs)
    ensures used.Created? ==> IsNewFor(start, r)
    ensures lb.Ok? ==>
              && fresh(lb.value) && !used.Nothing? && lb.value.id == used.id && lb.value.Listed()
              && lb.value.state == cloud.lbs[lb.value.id]
    ensures old(cloud.faults) <= cloud.faults
    ensures cloud.faults == old(cloud.faults) && |Labelled(old(cloud.lbs), r.settings.uid)| <= 1 ==>
              && FindsExactly(old(cloud.lbs), r.settings.uid, LbName(r), used)
              && (IsSatisfiable(r) ==> lb.Ok?)
  {
    used, start := Nothing, NewLb(r);
    ghost var before := cloud.lbs;
    var found := FindExisting(cloud, r);
    if found.Ok? {
      var copy := cloud.Snapshot(found.value);
      used, start := Existing(copy.id), before[copy.id];
      assert before == before[copy.id := before[copy.id]];
      return Ok(copy), used, start;
    }
    if found.error != NotFound {
      return Err(found.error), used, start;
    }
    lb, used := Create(cloud, r);
  }

  /** Settings, then services, then targets. */
  method ReconcileAll(cloud: Cloud, lb: LoadBalancer, r: Request, ghost start: LbState)
    returns (changed: bool, failed: bool, ghost quota: bool)
    requires cloud.Valid() && lb.id in cloud.lbs && lb.state == cloud.lbs[lb.id] == start && lb.Listed()
    modifies cloud, lb
    ensures cloud.Valid() && OnlyOne(old(cloud.lbs), cloud.lbs, lb.id, r.settings.uid)
    ensures EndsWell(lb.id, start, cloud.lbs[lb.id], r, failed, quota)
    ensures old(cloud.faults) <= cloud.faults
    ensures cloud.faults == old(cloud.faults) && IsSatisfiable(r) ==> !failed && !quota
  {
    quota := false;
    ghost var lbs0, uid := cloud.lbs, r.settings.uid;
    changed, failed := ReconcileSettings(cloud, lb, r);
    if failed {
      SafeRunEndsWell(lb.id, start, cloud.lbs[lb.id], r, failed, quota);
      return;
    }
    ghost var lbs1 := cloud.lbs;
    var some;
    some, failed := ReconcilePorts(cloud, lb, r);
    changed := changed || some;
    OnlyOneTransitive(lbs0, lbs1, cloud.lbs, lb.id, uid);
    if failed {
      SafeRunEndsWell(lb.id, start, cloud.lbs[lb.id], r, failed, quota);
      return;
    }
    ghost var lbs2 := cloud.lbs;
    some, failed, quota := ReconcileNodes(cloud, lb, r, start);
    changed := changed || some;
    OnlyOneTransitive(lbs0, lbs2, cloud.lbs, lb.id, uid);
    SafeRunEndsWell(lb.id, start, cloud.lbs[lb.id], r, failed, quota);
  }

  /** Working on the load balancer that was found or made keeps the step a step. */
  lemma UsedStaysStep(
    a: map<int, LbState>, b: map<int, LbState>, c: map<int, LbState>, uid: string, name: string, used: Used)
    requires !used.Nothing? && EnsureStep(a, b, uid, name, used) && OnlyOne(b, c, used.id, uid)
    ensures EnsureStep(a, c, uid, name, used)
  {
    if used.Existing? {
      OnlyOneTransitive(a, b, c, used.id, uid);
    } else {
      assert c == a[used.id := c[used.id]];
    }
  }

  /** Like Ensure, for a load balancer that exists; without one there is nothing to do. */
  method UpdateLoadBalancer(cloud: Cloud, r: Request) returns (failed: bool, ghost used: Used, ghost quota: bool)
    requires cloud.Valid()
    modifies cloud
    ensures cloud.Valid() && !used.Created?
    ensures EnsureStep(old(cloud.lbs), cloud.lbs, r.settings.uid, NameFor(r), used)
    ensures used.Existing? ==>
              EndsWell(used.id, old(cloud.lbs)[used.id], cloud.lbs[used.id], r, failed, quota)
    ensures !failed && used.Nothing? ==>
              Labelled(cloud.lbs, r.settings.uid) == {} && forall id <- cloud.lbs :: cloud.lbs[id].name != LbName(r)
    ensures cloud.faults == old(cloud.faults) && IsSatisfiable(r) && |Labelled(old(cloud.lbs), r.settings.uid)| <= 1 ==>
              !failed && !quota
  {
    failed, used, quota := true, Nothing, false;
    LbNameIs(r);
    ghost var lbs0, uid := cloud.lbs, r.settings.uid;
    var found := FindExisting(cloud, r);
    if found.Err? {
      failed := found.error != NotFound;
      return;
    }
    var lb := cloud.Snapshot(found.value);
    used := Existing(lb.id);
    failed, quota := ReconcileForUpdate(cloud, lb, r, lbs0[lb.id]);
  }

  /** Settings, then targets, then services. */
  method ReconcileForUpdate(cloud: Cloud, lb: LoadBalancer, r: Request, ghost start: LbState)
    returns (failed: bool, ghost quota: bool)
    requires cloud.Valid() && lb.id in cloud.lbs && lb.state == cloud.lbs[lb.id] == start && lb.Listed()
    modifies cloud, lb
    ensures cloud.Valid() && OnlyOne(old(cloud.lbs), cloud.lbs, lb.id, r.settings.uid)
    ensures EndsWell(lb.id, start, cloud.lbs[lb.id], r, failed, quota)
    ensures old(cloud.faults) <= cloud.faults
    ensures cloud.faults == old(cloud.faults) && IsSatisfiable(r) ==> !failed && !quota
  {
    quota := false;
    ghost var lbs0, uid := cloud.lbs, r.settings.uid;
    var changed;
    changed, failed := ReconcileSettings(cloud, lb, r);
    if failed {
      SafeRunEndsWell(lb.id, start, cloud.lbs[lb.id], r, failed, quota);
      return;
    }
    ghost var lbs1 := cloud.lbs;
    changed, failed, quota := ReconcileNodes(cloud, lb, r, start);
    OnlyOneTransitive(lbs0, lbs1, cloud.lbs, lb.id, uid);
    if failed {
      SafeRunEndsWell(lb.id, start, cloud.lbs[lb.id], r, failed, quota);
      return;
    }
    ghost var lbs2 := cloud.lbs;
    changed, failed := ReconcilePorts(cloud, lb, r);
    OnlyOneTransitive(lbs0, lbs2, cloud.lbs, lb.id, uid);
    SafeRunEndsWell(lb.id, start, cloud.lbs[lb.id], r, failed, quota);
  }

  // ---------- What repeated runs come to ----------

  /** A load balancer carries the UID after a successful run exactly when it carried no other Service's before. */
  lemma CarriesUidExactly(id: int, start: LbState, now: LbState, r: Request, quota: bool)
    requires IsReconciled(id, start, now, r, quota) && r.settings.uid != ""
    ensures HasUid(now, r.settings.uid) <==>
            (LABEL_SERVICE_UID in start.labels ==> start.labels[LABEL_SERVICE_UID] == r.settings.uid)
  {
    UidLabelIsSticky(start, r.settings);
  }

  /** The first run settles everything but the targets for good. */
  lemma OnlyTargetsStillChange(id: int, start: LbState, now: LbState, again: LbState, r: Request)
    requires IsReconciled(id, start, now, r, false) && IsReconciled(id, now, again, r, false)
    ensures again == now.(targets := again.targets)
  {
    ReconciledIsFinal(start, r.settings, r.networkId);
    var once := Reconciled(start, r.settings, r.networkId);
    assert Reconciled(now, r.settings, r.networkId) == once.(services := now.services, targets := now.targets);
  }

  /**
   * Two successful runs one after another, with the same request and a plan that adds only what may
   * stay: the second one leaves everything as it is exactly when the first one left no target to add
   * below the limit of the load balancer as it is now. It does, unless the first one changed the type.
   */
  lemma EnsureTwice(id: int, start: LbState, now: LbState, again: LbState, r: Request)
    requires IsReconciled(id, start, now, r, false) && IsReconciled(id, now, again, r, false)
    requires PlanAt(id, now, r).add <= PlanAt(id, now, r).keep
    ensures again == now <==> Runs.Finished(PlanAt(id, now, r), now.targets)
    ensures TypeIsRight(start, r.settings) ==> again == now
  {
    OnlyTargetsStillChange(id, start, now, again, r);
    P.PlanIsValid(InputAt(id, now, r));
    Runs.FinishedExactly(PlanAt(id, now, r), now.targets, again.targets);
  }

  // ---------- Deleting ----------

  /** None carries the UID any more, or the one that does is protected, and nothing was touched. */
  ghost predicate IsDeletedFor(before: map<int, LbState>, after: map<int, LbState>, uid: string) {
    || Labelled(after, uid) == {}
    || (after == before && exists id :: id in after && Labelled(after, uid) == {id} && after[id].deleteProtected)
  }

  /** What Ensure creates, Delete removes: a successful Delete after it leaves none with the UID. */
  lemma DeleteAfterCreate(
    before: map<int, LbState>, between: map<int, LbState>, after: map<int, LbState>, uid: string, name: string,
    id: int)
    requires EnsureStep(before, between, uid, name, Created(id)) && !between[id].deleteProtected
    requires DeleteStep(between, after, uid) && IsDeletedFor(between, after, uid)
    ensures Labelled(between, uid) == {id} && Labelled(after, uid) == {}
  {
    forall other | other in Labelled(between, uid)
      ensures other == id
    {
      assert other !in Labelled(before, uid);
    }
    assert id in Labelled(between, uid);
  }

  method DeleteLoadBalancer(cloud: Cloud, uid: string) returns (failed: bool)
    requires cloud.Valid()
    modifies cloud
    ensures cloud.Valid() && DeleteStep(old(cloud.lbs), cloud.lbs, uid)
    ensures !failed ==> IsDeletedFor(old(cloud.lbs), cloud.lbs, uid)
    ensures cloud.faults == old(cloud.faults) && |Labelled(old(cloud.lbs), uid)| <= 1 ==> !failed
  {
    failed := false;
    ghost var before := cloud.lbs;
    var found := GetByK8SServiceUID(cloud, uid);
    if found.Err? {
      return found.error != NotFound;
    }
    var id := found.value;
    assert id in Labelled(before, uid);
    if cloud.lbs[id].deleteProtected {
      return false;
    }
    var err := cloud.Delete(id);
    assert cloud.lbs == before || cloud.lbs == before - {id};
    return err.Some? && err != Some(NotFound);
  }
}

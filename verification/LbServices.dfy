/**
 * Synchronizing the ports of a load balancer with those of the Service
 * (internal/hcops/load_balancer.go, ReconcileHCLBServices).
 */
module LbServices {
  import opened HCloud

  datatype ServicePort = ServicePort(port: int, nodePort: int)

  function Ports(ports: seq<ServicePort>): set<int> {
    set p | p in ports :: p.port
  }

  predicate DistinctPorts(ports: seq<ServicePort>) {
    forall i, j :: 0 <= i < j < |ports| ==> ports[i].port != ports[j].port
  }

  /** Where each port of the Service leads. */
  function PortMap(ports: seq<ServicePort>): map<int, int> {
    if ports == [] then map[]
    else
      var last := ports[|ports| - 1];
      PortMap(ports[..|ports| - 1])[last.port := last.nodePort]
  }

  /** With distinct ports every port leads to its node port, and there are no others. */
  lemma {:induction false} PortMapIsExact(ports: seq<ServicePort>)
    requires DistinctPorts(ports)
    ensures PortMap(ports).Keys == Ports(ports)
    ensures forall i :: 0 <= i < |ports| ==>
              ports[i].port in PortMap(ports) && PortMap(ports)[ports[i].port] == ports[i].nodePort
  {
    if ports != [] {
      var init, last := ports[..|ports| - 1], ports[|ports| - 1];
      PortMapIsExact(init);
      assert ports == init + [last];
      assert Ports(ports) == Ports(init) + {last.port};
      assert forall i :: 0 <= i < |init| ==> ports[i] == init[i];
    }
  }

  // ---------- Runs ----------

  ghost function ServicesAfter(services: map<int, int>, run: seq<Call>): map<int, int> {
    if run == [] then services
    else
      var before := ServicesAfter(services, run[..|run| - 1]);
      match run[|run| - 1].change
      case AddService(port, destination) => before[port := destination]
      case UpdateService(port, destination) => before[port := destination]
      case DeleteService(port) => before - {port}
      case _ => before
  }

  /** Absent ports of the Service are added, present ones are updated, and only present ports of others are deleted. */
  ghost predicate LegalCall(ports: seq<ServicePort>, services: map<int, int>, change: Change) {
    match change
    case AddService(port, destination) => port !in services && ServicePort(port, destination) in ports
    case UpdateService(port, destination) => port in services && ServicePort(port, destination) in ports
    case DeleteService(port) => port in services && port !in Ports(ports)
    case _ => false
  }

  ghost predicate LegalRun(lb: int, ports: seq<ServicePort>, services: map<int, int>, run: seq<Call>) {
    run != [] ==>
      var init, c := run[..|run| - 1], run[|run| - 1];
      LegalRun(lb, ports, services, init) && c.lb == lb && LegalCall(ports, ServicesAfter(services, init), c.change)
  }

  lemma {:induction false} PrefixIsLegal(
    lb: int, ports: seq<ServicePort>, services: map<int, int>, run: seq<Call>, k: nat)
    requires LegalRun(lb, ports, services, run) && k <= |run|
    ensures LegalRun(lb, ports, services, run[..k])
  {
    if k < |run| {
      assert run[..|run| - 1][..k] == run[..k];
      PrefixIsLegal(lb, ports, services, run[..|run| - 1], k);
    } else {
      assert run[..k] == run;
    }
  }

  /** At every prefix of a run a port that is both old and new is listening, and no port that is neither. */
  lemma NoPortGoesAway(lb: int, ports: seq<ServicePort>, services: map<int, int>, run: seq<Call>, k: nat)
    requires LegalRun(lb, ports, services, run) && k <= |run|
    ensures KeepsPorts(ports, services, ServicesAfter(services, run[..k]))
  {
    PrefixIsLegal(lb, ports, services, run, k);
    RunKeepsPorts(lb, ports, services, run[..k]);
  }

  /** Ports that are old and new listen, no others than old and new ones do, and each leads where it did or shall. */
  ghost predicate KeepsPorts(ports: seq<ServicePort>, before: map<int, int>, now: map<int, int>) {
    && before.Keys * Ports(ports) <= now.Keys
    && now.Keys <= before.Keys + Ports(ports)
    && forall p <- now :: (p in before && now[p] == before[p]) || ServicePort(p, now[p]) in ports
  }

  lemma {:induction false} RunKeepsPorts(lb: int, ports: seq<ServicePort>, services: map<int, int>, run: seq<Call>)
    requires LegalRun(lb, ports, services, run)
    ensures KeepsPorts(ports, services, ServicesAfter(services, run))
  {
    if run != [] {
      RunKeepsPorts(lb, ports, services, run[..|run| - 1]);
    }
  }

  ghost predicate OnlyServices(before: map<int, LbState>, after: map<int, LbState>, id: int) {
    id in before && id in after && after == before[id := before[id].(services := after[id].services)]
  }

  lemma OnlyServicesTransitive(a: map<int, LbState>, b: map<int, LbState>, c: map<int, LbState>, id: int)
    requires OnlyServices(a, b, id) && OnlyServices(b, c, id)
    ensures OnlyServices(a, c, id)
  {
    assert c == a[id := a[id].(services := c[id].services)];
  }

  /** The changes logged since `log0` are a legal run that led to `services`. */
  ghost predicate Ran(
    lb: int, ports: seq<ServicePort>, services0: map<int, int>, log0: seq<Call>, services: map<int, int>,
    log: seq<Call>)
  {
    && log0 <= log && LegalRun(lb, ports, services0, log[|log0|..])
    && ServicesAfter(services0, log[|log0|..]) == services
  }

  lemma RanMore(
    lb: int, ports: seq<ServicePort>, services0: map<int, int>, log0: seq<Call>, s: LbState, log: seq<Call>,
    change: Change)
    requires Ran(lb, ports, services0, log0, s.services, log) && LegalCall(ports, s.services, change)
    ensures Ran(lb, ports, services0, log0, Changed(s, change).services, log + [Call(lb, change)])
  {
    var run, more := log[|log0|..], (log + [Call(lb, change)])[|log0|..];
    assert more == run + [Call(lb, change)] && more[..|more| - 1] == run;
  }

  ghost predicate Running(cloud: Cloud, id: int, ports: seq<ServicePort>, lbs0: map<int, LbState>, log0: seq<Call>)
    reads cloud
  {
    && cloud.Valid() && OnlyServices(lbs0, cloud.lbs, id)
    && Ran(id, ports, lbs0[id].services, log0, cloud.lbs[id].services, cloud.log)
  }

  method ChangeService(
    cloud: Cloud, id: int, change: Change, ghost ports: seq<ServicePort>,
    ghost lbs0: map<int, LbState>, ghost log0: seq<Call>)
    returns (o: Outcome)
    requires Running(cloud, id, ports, lbs0, log0)
    requires change.AddService? || change.UpdateService? || change.DeleteService?
    requires Allowed(cloud.lbs[id], change) ==> LegalCall(ports, cloud.lbs[id].services, change)
    modifies cloud
    ensures Running(cloud, id, ports, lbs0, log0)
    ensures o.Done? ==> Allowed(old(cloud.lbs)[id], change)
                        && cloud.lbs[id].services == Changed(old(cloud.lbs)[id], change).services
                        && cloud.log == old(cloud.log) + [Call(id, change)]
    ensures old(cloud.faults) <= cloud.faults
    ensures cloud.faults == old(cloud.faults) ==> (o.Done? <==> Allowed(old(cloud.lbs)[id], change))
    ensures var allowed := Allowed(old(cloud.lbs)[id], change);
            cloud.refused == old(cloud.refused) + (if allowed then [] else [Call(id, change)])
  {
    ghost var lbs := cloud.lbs;
    if Allowed(lbs[id], change) {
      RanMore(id, ports, lbs0[id].services, log0, lbs[id], cloud.log, change);
    }
    o := cloud.Apply(id, change);
    assert OnlyServices(lbs, cloud.lbs, id);
    OnlyServicesTransitive(lbs0, lbs, cloud.lbs, id);
  }

  // ---------- Reconciling ----------

  /** One call for each port in order: an update if it was listening before, or else an addition. */
  ghost predicate ExposesEach(id: int, before: map<int, int>, ports: seq<ServicePort>, run: seq<Call>)
    decreases |ports|
  {
    if ports == [] then run == []
    else
      var p := ports[|ports| - 1];
      && run != [] && run[|run| - 1] == ExposeCall(id, p, p.port in before)
      && ExposesEach(id, before, ports[..|ports| - 1], run[..|run| - 1])
  }

  ghost function ExposeCall(id: int, p: ServicePort, wasListening: bool): Call {
    Call(id, if wasListening then UpdateService(p.port, p.nodePort) else AddService(p.port, p.nodePort))
  }

  /** One deletion for each port of a set, in any order. */
  ghost predicate DeletesEach(id: int, leftOver: set<int>, run: seq<Call>)
    decreases |run|
  {
    if run == [] then leftOver == {}
    else
      var c := run[|run| - 1];
      && c.lb == id && c.change.DeleteService? && c.change.port in leftOver
      && DeletesEach(id, leftOver - {c.change.port}, run[..|run| - 1])
  }

  lemma ExposesOneMore(id: int, before: map<int, int>, ports: seq<ServicePort>, run: seq<Call>, p: ServicePort)
    requires ExposesEach(id, before, ports, run)
    ensures ExposesEach(id, before, ports + [p], run + [ExposeCall(id, p, p.port in before)])
  {
    assert (ports + [p])[..|ports|] == ports;
    assert (run + [ExposeCall(id, p, p.port in before)])[..|run|] == run;
  }

  lemma DeletesOneMore(id: int, done: set<int>, run: seq<Call>, port: int)
    requires DeletesEach(id, done, run) && port !in done
    ensures DeletesEach(id, done + {port}, run + [Call(id, DeleteService(port))])
  {
    assert done + {port} - {port} == done;
    assert (run + [Call(id, DeleteService(port))])[..|run|] == run;
  }

  lemma {:induction false} OneCallEach(id: int, before: map<int, int>, ports: seq<ServicePort>, run: seq<Call>)
    requires ExposesEach(id, before, ports, run)
    ensures |run| == |ports|
  {
    if ports != [] {
      OneCallEach(id, before, ports[..|ports| - 1], run[..|run| - 1]);
    }
  }

  lemma ReconcilesEach(
    id: int, before: map<int, int>, ports: seq<ServicePort>, log0: seq<Call>, log1: seq<Call>, log2: seq<Call>)
    requires log0 <= log1 <= log2 && ExposesEach(id, before, ports, log1[|log0|..])
    requires DeletesEach(id, before.Keys - Ports(ports), log2[|log1|..])
    ensures var run := log2[|log0|..];
            && |run| >= |ports| && ExposesEach(id, before, ports, run[..|ports|])
            && DeletesEach(id, before.Keys - Ports(ports), run[|ports|..])
  {
    var run := log2[|log0|..];
    OneCallEach(id, before, ports, log1[|log0|..]);
    assert run[..|ports|] == log1[|log0|..] && run[|ports|..] == log2[|log1|..];
  }

  method ReconcileServices(cloud: Cloud, lb: LoadBalancer, ports: seq<ServicePort>)
    returns (changed: bool, failed: bool)
    requires cloud.Valid() && lb.id in cloud.lbs && IsListing(lb.listenPorts, cloud.lbs[lb.id].services.Keys)
    modifies cloud
    ensures Running(cloud, lb.id, ports, old(cloud.lbs), old(cloud.log))
    ensures !failed ==> DistinctPorts(ports) && cloud.lbs[lb.id].services == PortMap(ports)
    ensures !failed ==> old(cloud.log) <= cloud.log && (changed <==> cloud.log != old(cloud.log))
    ensures !failed ==>
              var before, run := old(cloud.lbs[lb.id].services), cloud.log[|old(cloud.log)|..];
              && |run| >= |ports| && ExposesEach(lb.id, before, ports, run[..|ports|])
              && DeletesEach(lb.id, before.Keys - Ports(ports), run[|ports|..])
    ensures old(cloud.faults) <= cloud.faults
    ensures cloud.faults == old(cloud.faults) ==> (!failed <==> DistinctPorts(ports))
    ensures DistinctPorts(ports) ==> cloud.refused == old(cloud.refused)
  {
    changed, failed := false, false;
    ghost var lbs0, log0, services0 := cloud.lbs, cloud.log, cloud.lbs[lb.id].services;
    RunningAtStart(cloud, lb.id, ports);
    var certificateOk := cloud.Read();
    if !certificateOk {
      failed := true;
      return;
    }
    var hclbListenPorts := set p | p in lb.listenPorts;
    assert hclbListenPorts == services0.Keys;
    hclbListenPorts, changed, failed := ExposePorts(cloud, lb.id, hclbListenPorts, ports, lbs0, log0);
    if failed {
      return;
    }
    assert (services0 + PortMap(ports)).Keys >= hclbListenPorts;
    ghost var log1 := cloud.log;
    var deleted;
    deleted, failed := DeleteLeftOver(cloud, lb.id, hclbListenPorts, ports, lbs0, log0);
    changed := changed || deleted;
    LeftOverIsExact(services0, ports);
    if !failed {
      ReconcilesEach(lb.id, services0, ports, log0, log1, cloud.log);
    }
  }

  /** Exposing the ports of the Service and dropping all others leaves exactly the ports of the Service. */
  lemma LeftOverIsExact(services: map<int, int>, ports: seq<ServicePort>)
    requires DistinctPorts(ports)
    ensures (services + PortMap(ports)) - (services.Keys - Ports(ports)) == PortMap(ports)
  {
    PortMapIsExact(ports);
  }

  lemma RunningAtStart(cloud: Cloud, id: int, ports: seq<ServicePort>)
    requires cloud.Valid() && id in cloud.lbs
    ensures Running(cloud, id, ports, cloud.lbs, cloud.log)
  {
    assert cloud.log[|cloud.log|..] == [];
    assert cloud.lbs == cloud.lbs[id := cloud.lbs[id].(services := cloud.lbs[id].services)];
  }

  /** The ports that were exposed since `log` was reached, by the calls in `run`. */
  ghost predicate Exposed(
    cloud: Cloud, id: int, services: map<int, int>, log: seq<Call>, ports: seq<ServicePort>, run: seq<Call>)
    reads cloud
  {
    && id in cloud.lbs && DistinctPorts(ports) && cloud.lbs[id].services == services + PortMap(ports)
    && cloud.log == log + run && ExposesEach(id, services, ports, run)
  }

  /** Adds or updates every port of the Service, and gives back the listening ports that are left over. */
  method ExposePorts(
    cloud: Cloud, id: int, listening: set<int>, ports: seq<ServicePort>,
    ghost lbs0: map<int, LbState>, ghost log0: seq<Call>)
    returns (hclbListenPorts: set<int>, changed: bool, failed: bool)
    requires Running(cloud, id, ports, lbs0, log0) && listening == cloud.lbs[id].services.Keys
    modifies cloud
    ensures Running(cloud, id, ports, lbs0, log0)
    ensures !failed ==>
              && DistinctPorts(ports) && hclbListenPorts == listening - Ports(ports)
              && cloud.lbs[id].services == old(cloud.lbs[id].services) + PortMap(ports)
              && old(cloud.log) <= cloud.log && (changed <==> cloud.log != old(cloud.log))
              && ExposesEach(id, old(cloud.lbs[id].services), ports, cloud.log[|old(cloud.log)|..])
    ensures old(cloud.faults) <= cloud.faults
    ensures cloud.faults == old(cloud.faults) ==> (!failed <==> DistinctPorts(ports))
    ensures DistinctPorts(ports) ==> cloud.refused == old(cloud.refused)
  {
    hclbListenPorts, changed, failed := listening, false, false;
    ghost var services0, faults0, refused0 := cloud.lbs[id].services, cloud.faults, cloud.refused;
    ghost var log, run := cloud.log, [];
    for i := 0 to |ports|
      invariant Running(cloud, id, ports, lbs0, log0) && Exposed(cloud, id, services0, log, ports[..i], run)
      invariant hclbListenPorts == listening - Ports(ports[..i])
      invariant faults0 <= cloud.faults && cloud.refused == refused0
      invariant changed <==> run != []
    {
      hclbListenPorts, failed, run :=
        ExposeNext(cloud, id, ports, i, hclbListenPorts, services0, log, run, lbs0, log0);
      if failed {
        return;
      }
      changed := true;
    }
    assert ports[..|ports|] == ports && cloud.log[|log|..] == run;
  }

  /** What exposing the next port comes to. */
  lemma NextPort(id: int, services: map<int, int>, ports: seq<ServicePort>, i: nat, run: seq<Call>)
    requires i < |ports| && DistinctPorts(ports[..i]) && ExposesEach(id, services, ports[..i], run)
    ensures var p, now, left := ports[i], services + PortMap(ports[..i]), services.Keys - Ports(ports[..i]);
            && ((p.port in left <==> p.port in now) <==> DistinctPorts(ports[..i + 1]))
            && now[p.port := p.nodePort] == services + PortMap(ports[..i + 1])
            && left - {p.port} == services.Keys - Ports(ports[..i + 1])
            && (DistinctPorts(ports[..i + 1]) ==>
                  ExposesEach(id, services, ports[..i + 1], run + [ExposeCall(id, p, p.port in left)]))
    ensures DistinctPorts(ports) ==> DistinctPorts(ports[..i + 1])
  {
    OneMorePort(ports, i);
    OneMoreService(services, ports, i);
    assert ports[..i + 1] == ports[..i] + [ports[i]];
    ExposesOneMore(id, services, ports[..i], run, ports[i]);
  }

  /** Exposes the next port of the Service; without faults that works exactly if it is no repeated one. */
  method ExposeNext(
    cloud: Cloud, id: int, ports: seq<ServicePort>, i: nat, left: set<int>, ghost services: map<int, int>,
    ghost log: seq<Call>, ghost run: seq<Call>, ghost lbs0: map<int, LbState>, ghost log0: seq<Call>)
    returns (left': set<int>, failed: bool, ghost run': seq<Call>)
    requires i < |ports| && left == services.Keys - Ports(ports[..i])
    requires Running(cloud, id, ports, lbs0, log0) && Exposed(cloud, id, services, log, ports[..i], run)
    modifies cloud
    ensures Running(cloud, id, ports, lbs0, log0) && left' == services.Keys - Ports(ports[..i + 1])
    ensures !failed ==> Exposed(cloud, id, services, log, ports[..i + 1], run') && run' != []
    ensures DistinctPorts(ports) ==> DistinctPorts(ports[..i + 1]) && cloud.refused == old(cloud.refused)
    ensures old(cloud.faults) <= cloud.faults
    ensures cloud.faults == old(cloud.faults) ==> (!failed <==> DistinctPorts(ports[..i + 1]))
    ensures !failed ==> cloud.refused == old(cloud.refused)
  {
    var portNo := ports[i].port;
    var portExists := portNo in left;
    left' := left - {portNo};
    NextPort(id, services, ports, i, run);
    run' := run + [ExposeCall(id, ports[i], portExists)];
    failed := ExposePort(cloud, id, ports[i], portExists, ports, lbs0, log0);
  }

  /** Updates a port that is taken to be listening, or else adds it; this works exactly if that is so. */
  method ExposePort(
    cloud: Cloud, id: int, p: ServicePort, portExists: bool, ghost ports: seq<ServicePort>,
    ghost lbs0: map<int, LbState>, ghost log0: seq<Call>)
    returns (failed: bool)
    requires Running(cloud, id, ports, lbs0, log0) && p in ports
    modifies cloud
    ensures Running(cloud, id, ports, lbs0, log0)
    ensures !failed ==>
              && (portExists <==> p.port in old(cloud.lbs[id].services))
              && cloud.lbs[id].services == old(cloud.lbs[id].services)[p.port := p.nodePort]
              && cloud.log == old(cloud.log) + [ExposeCall(id, p, portExists)]
    ensures old(cloud.faults) <= cloud.faults
    ensures cloud.faults == old(cloud.faults) ==> (!failed <==> (portExists <==> p.port in old(cloud.lbs[id].services)))
    ensures (portExists <==> p.port in old(cloud.lbs[id].services)) ==> cloud.refused == old(cloud.refused)
  {
    var optionsOk := cloud.Read();
    if !optionsOk {
      return true;
    }
    var change := if portExists then UpdateService(p.port, p.nodePort) else AddService(p.port, p.nodePort);
    assert ServicePort(p.port, p.nodePort) == p;
    var o := ChangeService(cloud, id, change, ports, lbs0, log0);
    return o != Done;
  }

  lemma OneMorePort(ports: seq<ServicePort>, i: nat)
    requires i < |ports| && DistinctPorts(ports[..i])
    ensures Ports(ports[..i + 1]) == Ports(ports[..i]) + {ports[i].port}
    ensures DistinctPorts(ports[..i + 1]) <==> ports[i].port !in Ports(ports[..i])
    ensures DistinctPorts(ports) ==> DistinctPorts(ports[..i + 1])
  {
    var p, init := ports[i], ports[..i];
    assert ports[..i + 1] == init + [p];
    if p.port !in Ports(init) {
      forall j | 0 <= j < i
        ensures init[j].port != p.port
      {
        assert init[j] in init;
      }
    } else {
      var q :| q in init && q.port == p.port;
      var j :| 0 <= j < i && init[j] == q;
      assert ports[..i + 1][j].port == ports[..i + 1][i].port;
    }
  }

  lemma OneMoreService(services: map<int, int>, ports: seq<ServicePort>, i: nat)
    requires i < |ports| && DistinctPorts(ports[..i])
    ensures var p, now := ports[i], services + PortMap(ports[..i]);
            && now[p.port := p.nodePort] == services + PortMap(ports[..i + 1])
            && (p.port in now <==> p.port in services || p.port in Ports(ports[..i]))
  {
    assert ports[..i + 1][..i] == ports[..i];
    PortMapIsExact(ports[..i]);
  }

  /** The ports that were deleted since `log` was reached, by the calls in `run`. */
  ghost predicate Deleted(
    cloud: Cloud, id: int, services: map<int, int>, log: seq<Call>, done: set<int>, run: seq<Call>)
    reads cloud
  {
    && id in cloud.lbs && cloud.lbs[id].services == services - done
    && cloud.log == log + run && DeletesEach(id, done, run)
  }

  /** Deletes the ports that the Service does not expose, in any order. */
  method DeleteLeftOver(
    cloud: Cloud, id: int, leftOver: set<int>, ghost ports: seq<ServicePort>,
    ghost lbs0: map<int, LbState>, ghost log0: seq<Call>)
    returns (changed: bool, failed: bool)
    requires Running(cloud, id, ports, lbs0, log0)
    requires leftOver <= cloud.lbs[id].services.Keys && leftOver !! Ports(ports)
    modifies cloud
    ensures Running(cloud, id, ports, lbs0, log0)
    ensures !failed ==> cloud.lbs[id].services == old(cloud.lbs[id].services) - leftOver
    ensures !failed ==> old(cloud.log) <= cloud.log && (changed <==> cloud.log != old(cloud.log))
    ensures !failed ==> DeletesEach(id, leftOver, cloud.log[|old(cloud.log)|..])
    ensures old(cloud.faults) <= cloud.faults && (cloud.faults == old(cloud.faults) ==> !failed)
    ensures cloud.refused == old(cloud.refused)
  {
    changed, failed := false, false;
    ghost var services, log := cloud.lbs[id].services, cloud.log;
    ghost var done, run := {}, [];
    assert services - done == services;
    var rest := leftOver;
    while rest != {}
      invariant Running(cloud, id, ports, lbs0, log0) && Deleted(cloud, id, services, log, done, run)
      invariant rest <= leftOver && done == leftOver - rest && (changed <==> run != [])
      invariant old(cloud.faults) <= cloud.faults && cloud.refused == old(cloud.refused)
      decreases rest
    {
      var p := AnyOf(rest);
      failed := DeletePort(cloud, id, p, ports, lbs0, log0, services, log, done, run);
      if failed {
        return;
      }
      OneMoreDone(leftOver, rest, p);
      done, run := done + {p}, run + [Call(id, DeleteService(p))];
      rest := rest - {p};
      changed := true;
    }
    assert done == leftOver && cloud.log[|log|..] == run;
  }

  lemma OneMoreDone(all: set<int>, rest: set<int>, x: int)
    requires x in rest && rest <= all
    ensures (all - rest) + {x} == all - (rest - {x})
  {
  }

  /** Deletes a port that is listening and that the Service does not expose; the API never has to refuse that. */
  method DeletePort(
    cloud: Cloud, id: int, port: int, ghost ports: seq<ServicePort>, ghost lbs0: map<int, LbState>,
    ghost log0: seq<Call>, ghost services: map<int, int>, ghost log: seq<Call>, ghost done: set<int>,
    ghost run: seq<Call>)
    returns (failed: bool)
    requires Running(cloud, id, ports, lbs0, log0) && Deleted(cloud, id, services, log, done, run)
    requires port in services && port !in done && port !in Ports(ports)
    modifies cloud
    ensures Running(cloud, id, ports, lbs0, log0)
    ensures !failed ==> Deleted(cloud, id, services, log, done + {port}, run + [Call(id, DeleteService(port))])
    ensures old(cloud.faults) <= cloud.faults && (cloud.faults == old(cloud.faults) ==> !failed)
    ensures cloud.refused == old(cloud.refused)
  {
    DeletesOneMore(id, done, run, port);
    assert (services - done) - {port} == services - (done + {port});
    var o := ChangeService(cloud, id, DeleteService(port), ports, lbs0, log0);
    failed := o != Done;
  }
}

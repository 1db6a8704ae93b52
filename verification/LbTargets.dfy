/**
 * Reconciling the targets of a load balancer with the nodes of the cluster
 * (internal/hcops/load_balancer.go, ReconcileHCLBTargets).
 */
module LbTargets {
  import opened Basics
  import opened HCloud
  import opened ProviderId
  import R = RobotCache
  import opened TargetRuns
  import opened LbTargetPlans

  // ---------- What holds while a run is under way ----------

  /** Only the targets of one load balancer changed. */
  ghost predicate OnlyTargets(before: map<int, LbState>, after: map<int, LbState>, id: int) {
    id in before && id in after && after == before[id := before[id].(targets := after[id].targets)]
  }

  lemma OnlyTargetsTransitive(a: map<int, LbState>, b: map<int, LbState>, c: map<int, LbState>, id: int)
    requires OnlyTargets(a, b, id) && OnlyTargets(b, c, id)
    ensures OnlyTargets(a, c, id)
  {
    assert c == a[id := a[id].(targets := c[id].targets)];
  }

  /** The state of the project when a run starts. */
  datatype Origin = Origin(lbs: map<int, LbState>, log: seq<Call>, asked: seq<Call>, refused: seq<Call>, faults: nat)

  ghost function Here(cloud: Cloud): Origin
    reads cloud
  {
    Origin(cloud.lbs, cloud.log, cloud.asked, cloud.refused, cloud.faults)
  }

  /** What was appended to a list since it was `earlier`. */
  ghost function Since(earlier: seq<Call>, now: seq<Call>): seq<Call>
    requires earlier <= now
  {
    now[|earlier|..]
  }

  lemma SinceMore(earlier: seq<Call>, now: seq<Call>, c: Call)
    requires earlier <= now
    ensures earlier <= now + [c] && Since(earlier, now + [c]) == Since(earlier, now) + [c]
  {
  }

  /** The changes that were made since the start are a legal run that led to `targets`. */
  ghost predicate Ran(p: Plan, targets0: set<Target>, log0: seq<Call>, targets: set<Target>, log: seq<Call>) {
    log0 <= log && LegalRun(p, targets0, Since(log0, log)) && After(targets0, Since(log0, log)) == targets
  }

  /** The changes that were asked for since the start, made or not, are those of a legal run, or repeat one. */
  ghost predicate AsksLegally(p: Plan, targets0: set<Target>, asked0: seq<Call>, asked: seq<Call>) {
    asked0 <= asked && LegalRequests(p, targets0, Since(asked0, asked))
  }

  function Flag<K>(flags: map<K, bool>, k: K): bool {
    k in flags && flags[k]
  }

  /**
   * A run since its start, wherever it stands: only targets of one load balancer changed, by a legal
   * run, and nothing was asked for besides its changes, but that the last addition may be a repeated one.
   */
  ghost predicate Running(cloud: Cloud, p: Plan, from: Origin)
    reads cloud
  {
    && cloud.Valid() && OnlyTargets(from.lbs, cloud.lbs, p.lb)
    && Ran(p, from.lbs[p.lb].targets, from.log, cloud.lbs[p.lb].targets, cloud.log)
    && AsksLegally(p, from.lbs[p.lb].targets, from.asked, cloud.asked)
    && from.faults <= cloud.faults
  }

  /** Every change that was asked for was made. */
  ghost predicate Unhindered(cloud: Cloud, from: Origin)
    reads cloud
  {
    && from.log <= cloud.log && from.asked <= cloud.asked
    && Since(from.log, cloud.log) == Since(from.asked, cloud.asked)
    && |cloud.log| - |from.log| == |cloud.asked| - |from.asked|
    && cloud.refused == from.refused && cloud.faults == from.faults
  }

  /** A run stops only because a call failed, or because the API had to refuse one. */
  ghost predicate Stopped(cloud: Cloud, p: Plan, from: Origin)
    reads cloud
  {
    && Running(cloud, p, from) && |cloud.asked| > |from.asked|
    && (cloud.faults > from.faults || cloud.refused != from.refused)
  }

  /**
   * A run that stops after it reached `log`, with what it then reports: a change is reported exactly
   * when some change since `log` was made before the one that failed.
   */
  ghost predicate StoppedAfter(cloud: Cloud, p: Plan, from: Origin, log: seq<Call>, changed: bool)
    reads cloud
  {
    && Stopped(cloud, p, from)
    && var asked := |from.asked| + |log| - |from.log|;
       |cloud.asked| > asked && (changed <==> |cloud.asked| > asked + 1)
  }

  /** What was changed between `log` and `reached` counts as well. */
  lemma StoppedOn(
    cloud: Cloud, p: Plan, from: Origin, log: seq<Call>, reached: seq<Call>, changed: bool, changed': bool)
    requires StoppedAfter(cloud, p, from, reached, changed') && log <= reached && (changed <==> reached != log)
    ensures StoppedAfter(cloud, p, from, log, changed || changed')
  {
    assert |reached| == |log| ==> reached == log;
  }

  lemma RunningAtStart(cloud: Cloud, p: Plan)
    requires cloud.Valid() && p.lb in cloud.lbs
    ensures Running(cloud, p, Here(cloud)) && Unhindered(cloud, Here(cloud))
  {
    assert Since(cloud.log, cloud.log) == [] && Since(cloud.asked, cloud.asked) == [];
    assert cloud.lbs == cloud.lbs[p.lb := cloud.lbs[p.lb].(targets := cloud.lbs[p.lb].targets)];
  }

  /** One change of a target by a run, and the wait for its action. */
  method ChangeTarget(cloud: Cloud, id: int, change: Change, ghost p: Plan, ghost from: Origin)
    returns (o: Outcome)
    requires p.lb == id && Running(cloud, p, from) && Unhindered(cloud, from)
    requires change.AddTarget? || change.RemoveTarget?
    requires var run, c := Since(from.log, cloud.log), Call(id, change);
             if Allowed(cloud.lbs[id], change) then LegalCall(p, cloud.lbs[id].targets, run, c)
             else IsRepeat(p, from.lbs[id].targets, run, c)
    modifies cloud
    ensures Running(cloud, p, from)
    ensures o.Done? ==>
              && Allowed(old(cloud.lbs)[id], change) && Unhindered(cloud, from)
              && cloud.lbs[id].targets == Changed(old(cloud.lbs)[id], change).targets
              && cloud.log == old(cloud.log) + [Call(id, change)]
    ensures Allowed(old(cloud.lbs)[id], change) ==>
              cloud.refused == from.refused && (!o.Done? ==> cloud.faults > from.faults)
    ensures !o.Done? ==> Stopped(cloud, p, from) && |cloud.asked| == |old(cloud.asked)| + 1
  {
    ghost var lbs, s, log, asked := cloud.lbs, cloud.lbs[id], cloud.log, cloud.asked;
    ghost var c := Call(id, change);
    SinceMore(from.log, log, c);
    SinceMore(from.asked, asked, c);
    if Allowed(s, change) {
      ExtendRun(p, from.lbs[id].targets, Since(from.log, log), c);
    } else {
      var run := Since(from.log, log);
      assert (run + [c])[..|run|] == run;
    }
    o := cloud.Apply(id, change);
    assert OnlyTargets(lbs, cloud.lbs, id);
    OnlyTargetsTransitive(from.lbs, lbs, cloud.lbs, id);
  }

  // ---------- Removing ----------

  /** The flags say which looked-at targets stay; the targets in `pending` are not looked at yet. */
  ghost predicate Noted(
    ids: map<int, bool>, ips: map<string, bool>, present: set<Target>, pending: seq<Target>, usePrivateIP: bool)
  {
    && (forall t <- pending :: t in present)
    && (forall id :: Flag(ids, id) ==> ServerTarget(id, usePrivateIP) in present)
    && (forall id :: ServerTarget(id, usePrivateIP) in present ==>
                       Flag(ids, id) || ServerTarget(id, usePrivateIP) in pending)
    && (forall ip :: Flag(ips, ip) ==> IPTarget(ip) in present)
    && (forall ip :: IPTarget(ip) in present ==> Flag(ips, ip) || IPTarget(ip) in pending)
  }

  lemma NoteServer(
    ids: map<int, bool>, ips: map<string, bool>, present: set<Target>, pending: seq<Target>, usePrivateIP: bool,
    keeps: bool)
    requires Noted(ids, ips, present, pending, usePrivateIP) && UniqueServers(present)
    requires pending != [] && pending[0].ServerTarget? && pending[0] !in pending[1..]
    requires keeps ==> pending[0].usePrivateIP == usePrivateIP
    ensures var present' := if keeps then present else present - {pending[0]};
            Noted(ids[pending[0].id := keeps], ips, present', pending[1..], usePrivateIP)
  {
    assert pending == [pending[0]] + pending[1..];
  }

  lemma NoteIP(
    ids: map<int, bool>, ips: map<string, bool>, present: set<Target>, pending: seq<Target>, usePrivateIP: bool,
    keeps: bool)
    requires Noted(ids, ips, present, pending, usePrivateIP)
    requires pending != [] && pending[0].IPTarget? && pending[0] !in pending[1..]
    ensures var present' := if keeps then present else present - {pending[0]};
            Noted(ids, ips[pending[0].ip := keeps], present', pending[1..], usePrivateIP)
  {
    assert pending == [pending[0]] + pending[1..];
  }

  lemma NoteLabel(
    ids: map<int, bool>, ips: map<string, bool>, present: set<Target>, pending: seq<Target>, usePrivateIP: bool)
    requires Noted(ids, ips, present, pending, usePrivateIP) && pending != [] && pending[0].LabelTarget?
    ensures Noted(ids, ips, present, pending[1..], usePrivateIP)
  {
    assert pending == [pending[0]] + pending[1..];
  }

  /** Everything but the targets in `pending` is settled. */
  ghost predicate Settled(p: Plan, present: set<Target>, pending: seq<Target>) {
    forall t <- present :: t.LabelTarget? || t in p.keep || t in pending
  }

  lemma SettleOne(p: Plan, present: set<Target>, pending: seq<Target>, keeps: bool)
    requires Settled(p, present, pending) && pending != []
    requires keeps ==> pending[0].LabelTarget? || pending[0] in p.keep
    ensures Settled(p, if keeps then present else present - {pending[0]}, pending[1..])
  {
    assert pending == [pending[0]] + pending[1..];
  }

  /** Decides about one target and notes whether it stays. */
  method LookAt(
    target: Target, ids: map<int, bool>, ips: map<string, bool>, cloudIds: set<int>, robotIds: set<int>,
    ipToId: map<string, int>, usePrivateIP: bool, ghost present: set<Target>, ghost pending: seq<Target>, ghost p: Plan)
    returns (keeps: bool, ids': map<int, bool>, ips': map<string, bool>)
    requires p.keep == Keep(cloudIds, robotIds, ipToId, usePrivateIP)
    requires UniqueServers(present) && Noted(ids, ips, present, pending, usePrivateIP) && Settled(p, present, pending)
    requires pending != [] && target == pending[0] && target !in pending[1..]
    ensures keeps <==> target.LabelTarget? || target in p.keep
    ensures var present' := if keeps then present else present - {target};
            Noted(ids', ips', present', pending[1..], usePrivateIP) && Settled(p, present', pending[1..])
  {
    keeps, ids', ips' := true, ids, ips;
    match target {
      case ServerTarget(id, isPrivate) =>
        var recreate := isPrivate != usePrivateIP;
        keeps := id in cloudIds && !recreate;
        ids' := ids[id := keeps];
        NoteServer(ids, ips, present, pending, usePrivateIP, keeps);
      case IPTarget(ip) =>
        keeps := ip in ipToId && ipToId[ip] in robotIds;
        ips' := ips[ip := keeps];
        NoteIP(ids, ips, present, pending, usePrivateIP, keeps);
      case LabelTarget(_) =>
        NoteLabel(ids, ips, present, pending, usePrivateIP);
    }
    SettleOne(p, present, pending, keeps);
  }

  /** A run that has looked at all targets but the pending ones, and removed those that are not to be kept. */
  ghost predicate Removing(
    cloud: Cloud, p: Plan, from: Origin, ids: map<int, bool>, ips: map<string, bool>, numberOfTargets: int,
    changed: bool, pending: seq<Target>, usePrivateIP: bool)
    reads cloud
  {
    && Running(cloud, p, from) && Unhindered(cloud, from) && AllRemovals(Since(from.log, cloud.log))
    && numberOfTargets == |cloud.lbs[p.lb].targets| && (changed <==> cloud.log != from.log)
    && Noted(ids, ips, cloud.lbs[p.lb].targets, pending, usePrivateIP)
    && Settled(p, cloud.lbs[p.lb].targets, pending)
  }

  /** Removes every target that is not to be kept, and notes which ones stay. */
  method RemoveUnwanted(
    cloud: Cloud, lb: LoadBalancer, ghost p: Plan, cloudIds: set<int>, robotIds: set<int>,
    ipToId: map<string, int>, usePrivateIP: bool)
    returns (hclbTargetIDs: map<int, bool>, hclbTargetIPs: map<string, bool>, numberOfTargets: int,
             changed: bool, failed: bool)
    requires cloud.Valid() && p.lb == lb.id && lb.id in cloud.lbs
    requires IsListing(lb.targets, cloud.lbs[lb.id].targets)
    requires p.keep == Keep(cloudIds, robotIds, ipToId, usePrivateIP)
    modifies cloud
    ensures Running(cloud, p, old(Here(cloud))) && cloud.refused == old(cloud.refused)
    ensures failed ==> StoppedAfter(cloud, p, old(Here(cloud)), old(cloud.log), changed)
    ensures !failed ==>
              Removed(cloud, p, old(Here(cloud)), hclbTargetIDs, hclbTargetIPs, numberOfTargets, changed, usePrivateIP)
  {
    hclbTargetIDs, hclbTargetIPs, changed, failed := map[], map[], false, false;
    numberOfTargets := |lb.targets|;
    ghost var from := Here(cloud);
    ListingSize(lb.targets, cloud.lbs[lb.id].targets);
    RunningAtStart(cloud, p);
    assert lb.targets[0..] == lb.targets;
    for i := 0 to |lb.targets|
      invariant Removing(cloud, p, from, hclbTargetIDs, hclbTargetIPs, numberOfTargets, changed, lb.targets[i..],
                         usePrivateIP)
    {
      var target := lb.targets[i];
      assert lb.targets[i..][0] == target && lb.targets[i..][1..] == lb.targets[i + 1..];
      hclbTargetIDs, hclbTargetIPs, numberOfTargets, changed, failed := KeepOrRemove(
        cloud, lb, target, cloudIds, robotIds, ipToId, usePrivateIP,
        hclbTargetIDs, hclbTargetIPs, numberOfTargets, changed, p, from, lb.targets[i..]);
      if failed {
        return;
      }
    }
    assert lb.targets[|lb.targets|..] == [];
    RemovedAll(cloud, p, from, hclbTargetIDs, hclbTargetIPs, numberOfTargets, changed, usePrivateIP, cloudIds, robotIds,
               ipToId);
  }

  /** Looks at one target, and removes it if it is not to be kept. */
  method KeepOrRemove(
    cloud: Cloud, lb: LoadBalancer, target: Target, cloudIds: set<int>, robotIds: set<int>,
    ipToId: map<string, int>, usePrivateIP: bool, ids: map<int, bool>, ips: map<string, bool>,
    numberOfTargets: int, changed: bool, ghost p: Plan, ghost from: Origin, ghost pending: seq<Target>)
    returns (ids': map<int, bool>, ips': map<string, bool>, numberOfTargets': int, changed': bool, failed: bool)
    requires p.lb == lb.id && p.keep == Keep(cloudIds, robotIds, ipToId, usePrivateIP)
    requires Removing(cloud, p, from, ids, ips, numberOfTargets, changed, pending, usePrivateIP)
    requires pending != [] && target == pending[0] && target !in pending[1..]
    modifies cloud
    ensures Running(cloud, p, from) && cloud.refused == from.refused
    ensures failed ==> StoppedAfter(cloud, p, from, from.log, changed')
    ensures !failed ==>
              Removing(cloud, p, from, ids', ips', numberOfTargets', changed', pending[1..], usePrivateIP)
  {
    numberOfTargets', changed', failed := numberOfTargets, changed, false;
    var keeps;
    keeps, ids', ips' := LookAt(
      target, ids, ips, cloudIds, robotIds, ipToId, usePrivateIP, cloud.lbs[lb.id].targets, pending, p);
    if keeps {
      return;
    }
    failed := RemoveOne(cloud, lb.id, target, p, from);
    if !failed {
      changed', numberOfTargets' := true, numberOfTargets - 1;
    }
  }

  /** Removes a target that is there and is not to be kept; the API never has to refuse that. */
  method RemoveOne(cloud: Cloud, id: int, target: Target, ghost p: Plan, ghost from: Origin) returns (failed: bool)
    requires p.lb == id && Running(cloud, p, from) && Unhindered(cloud, from)
    requires AllRemovals(Since(from.log, cloud.log))
    requires target in Own(cloud.lbs[id].targets) && target !in p.keep
    modifies cloud
    ensures Running(cloud, p, from) && cloud.refused == from.refused
    ensures failed ==> Stopped(cloud, p, from) && |cloud.asked| == |old(cloud.asked)| + 1
    ensures !failed ==>
              && Unhindered(cloud, from) && AllRemovals(Since(from.log, cloud.log))
              && cloud.lbs[id].targets == old(cloud.lbs[id].targets) - {target}
              && cloud.log == old(cloud.log) + [Call(id, RemoveTarget(target))]
  {
    SinceMore(from.log, cloud.log, Call(id, RemoveTarget(target)));
    var o := ChangeTarget(cloud, id, RemoveTarget(target), p, from);
    failed := o != Done;
  }

  /** A run that has removed what is not to be kept. */
  ghost predicate Removed(
    cloud: Cloud, p: Plan, from: Origin, ids: map<int, bool>, ips: map<string, bool>, numberOfTargets: int,
    changed: bool, usePrivateIP: bool)
    reads cloud
  {
    && Running(cloud, p, from) && Unhindered(cloud, from) && AllRemovals(Since(from.log, cloud.log))
    && numberOfTargets == |cloud.lbs[p.lb].targets| && (changed <==> cloud.log != from.log)
    && Own(cloud.lbs[p.lb].targets) <= p.keep
    && ServersAreNoted(ids, cloud.lbs[p.lb].targets, usePrivateIP)
    && AddressesAreNoted(ips, cloud.lbs[p.lb].targets)
  }

  /** Nothing is pending any more. */
  lemma RemovedAll(
    cloud: Cloud, p: Plan, from: Origin, ids: map<int, bool>, ips: map<string, bool>, numberOfTargets: int,
    changed: bool, usePrivateIP: bool, cloudIds: set<int>, robotIds: set<int>, ipToId: map<string, int>)
    requires Removing(cloud, p, from, ids, ips, numberOfTargets, changed, [], usePrivateIP)
    requires p.keep == Keep(cloudIds, robotIds, ipToId, usePrivateIP)
    ensures Removed(cloud, p, from, ids, ips, numberOfTargets, changed, usePrivateIP)
  {
    assert forall t <- Own(cloud.lbs[p.lb].targets) :: t in p.keep;
    KeptAreOfOneKind(cloudIds, robotIds, ipToId, usePrivateIP, cloud.lbs[p.lb].targets);
  }

  lemma {:induction false} ListingSize<T>(list: seq<T>, elements: set<T>)
    requires IsListing(list, elements)
    ensures |list| == |elements|
  {
    if list != [] {
      var last := list[|list| - 1];
      var init := list[..|list| - 1];
      forall x | x in elements - {last}
        ensures x in init
      {
        var i :| 0 <= i < |list| && list[i] == x;
        assert init[i] == x;
      }
      ListingSize(init, elements - {last});
    }
  }

  // ---------- Adding ----------

  /** How a step ends: it goes on, or the whole run stops. */
  datatype Step = GoesOn | HitsQuota | Fails

  /** Each of `these` is there, or the load balancer is full. */
  ghost predicate AddedUnlessFull(p: Plan, these: set<Target>, targets: set<Target>) {
    these <= targets || IsFull(p, targets)
  }

  lemma StillAdded(p: Plan, these: set<Target>, targets: set<Target>, more: set<Target>)
    requires AddedUnlessFull(p, these, targets) && targets <= more
    ensures AddedUnlessFull(p, these, more)
  {
    R.SubsetSize(targets, more);
  }

  /** The API allows to add the target, or the run has added it already. */
  ghost predicate IsNewOrRepeated(cloud: Cloud, p: Plan, from: Origin, target: Target)
    requires p.lb in cloud.lbs && from.log <= cloud.log
    reads cloud
  {
    Allowed(cloud.lbs[p.lb], AddTarget(target)) || Call(p.lb, AddTarget(target)) in Since(from.log, cloud.log)
  }

  /** Adds one target, unless the type of the load balancer allows no more. */
  method AddUnlessFull(
    cloud: Cloud, lb: LoadBalancer, target: Target, numberOfTargets: int, ghost p: Plan, ghost from: Origin)
    returns (added: bool, step: Step)
    requires p.lb == lb.id && p.cap == CapOf(lb.state.lbType)
    requires Running(cloud, p, from) && Unhindered(cloud, from)
    requires target in p.add && numberOfTargets == |cloud.lbs[lb.id].targets|
    requires IsNewOrRepeated(cloud, p, from, target)
    modifies cloud
    ensures Running(cloud, p, from)
    ensures Allowed(old(cloud.lbs)[lb.id], AddTarget(target)) ==> cloud.refused == from.refused
    ensures !step.GoesOn? ==> !added && Stopped(cloud, p, from) && |cloud.asked| == |old(cloud.asked)| + 1
    ensures step.GoesOn? ==>
              && Unhindered(cloud, from)
              && cloud.lbs[lb.id].targets == old(cloud.lbs[lb.id].targets) + (if added then {target} else {})
              && |cloud.lbs[lb.id].targets| == numberOfTargets + (if added then 1 else 0)
              && (target in cloud.lbs[lb.id].targets || IsFull(p, cloud.lbs[lb.id].targets))
              && cloud.log == old(cloud.log) + (if added then [Call(lb.id, AddTarget(target))] else [])
  {
    added, step := false, GoesOn;
    if lb.state.lbType != "" && MaxTargetsReached(numberOfTargets, lb.state.lbType) {
      return;
    }
    ghost var before := cloud.lbs[lb.id].targets;
    assert Allowed(cloud.lbs[lb.id], AddTarget(target)) ==> target !in before;
    var o := ChangeTarget(cloud, lb.id, AddTarget(target), p, from);
    if o.Rejected? && o.code == ResourceLimitExceeded {
      step := HitsQuota;
      return;
    }
    if o != Done {
      step := Fails;
      return;
    }
    added := true;
  }

  /**
   * How far a series of additions got: all of `these` were added, or the load balancer is full, and
   * nothing else was.
   */
  ghost predicate Advanced(
    cloud: Cloud, p: Plan, from: Origin, before: set<Target>, log: seq<Call>, these: set<Target>, added: bool)
    reads cloud
  {
    && Running(cloud, p, from) && Unhindered(cloud, from)
    && before <= cloud.lbs[p.lb].targets && cloud.lbs[p.lb].targets <= before + these
    && AddedUnlessFull(p, these, cloud.lbs[p.lb].targets)
    && from.log <= log <= cloud.log && (added <==> cloud.log != log)
  }

  /** Adds one more target, unless the load balancer is full. */
  method AddNext(
    cloud: Cloud, lb: LoadBalancer, target: Target, numberOfTargets: int, added: bool,
    ghost p: Plan, ghost from: Origin, ghost start: set<Target>, ghost log: seq<Call>, ghost these: set<Target>)
    returns (numberOfTargets': int, added': bool, step: Step)
    requires p.lb == lb.id && p.cap == CapOf(lb.state.lbType) && target in p.add
    requires Advanced(cloud, p, from, start, log, these, added) && numberOfTargets == |cloud.lbs[lb.id].targets|
    requires IsNewOrRepeated(cloud, p, from, target)
    modifies cloud
    ensures Allowed(old(cloud.lbs)[lb.id], AddTarget(target)) ==> cloud.refused == from.refused
    ensures !step.GoesOn? ==> StoppedAfter(cloud, p, from, log, added')
    ensures step.GoesOn? ==>
              && Advanced(cloud, p, from, start, log, these + {target}, added')
              && numberOfTargets' == |cloud.lbs[lb.id].targets|
  {
    ghost var before := cloud.lbs[lb.id].targets;
    var one;
    one, step := AddUnlessFull(cloud, lb, target, numberOfTargets, p, from);
    added', numberOfTargets' := added || one, if one then numberOfTargets + 1 else numberOfTargets;
    if step.GoesOn? {
      StillAdded(p, these, before, cloud.lbs[lb.id].targets);
    }
  }

  /** What came to be there while targets were added was added by the run. */
  lemma AddedByRun(
    cloud: Cloud, p: Plan, from: Origin, start: set<Target>, log: seq<Call>, these: set<Target>, added: bool,
    target: Target)
    requires Advanced(cloud, p, from, start, log, these, added)
    requires After(from.lbs[p.lb].targets, Since(from.log, log)) == start
    requires target !in start && target in cloud.lbs[p.lb].targets
    ensures Call(p.lb, AddTarget(target)) in Since(from.log, cloud.log)
  {
    var run, k := Since(from.log, cloud.log), |log| - |from.log|;
    assert run[..k] == Since(from.log, log);
    BackWasAdded(p, from.lbs[p.lb].targets, run, k, target);
  }

  /** A target that is there already, or that is no target at all, needs no addition. */
  lemma Skipped(
    cloud: Cloud, p: Plan, from: Origin, start: set<Target>, log: seq<Call>, these: set<Target>, added: bool,
    more: set<Target>)
    requires Advanced(cloud, p, from, start, log, these, added) && more <= cloud.lbs[p.lb].targets
    ensures Advanced(cloud, p, from, start, log, these + more, added)
  {
  }

  /** Every server target is reached the configured way. */
  ghost predicate OneKind(targets: set<Target>, usePrivateIP: bool) {
    forall t <- targets :: t.ServerTarget? ==> t.usePrivateIP == usePrivateIP
  }

  /** The flags are exactly the servers that are targets, over the configured kind of address. */
  ghost predicate ServersAreNoted(flags: map<int, bool>, targets: set<Target>, usePrivateIP: bool) {
    OneKind(targets, usePrivateIP) && forall id :: Flag(flags, id) <==> ServerTarget(id, usePrivateIP) in targets
  }

  /** The flags are exactly the addresses that are targets. */
  ghost predicate AddressesAreNoted(flags: map<string, bool>, targets: set<Target>) {
    forall ip :: Flag(flags, ip) <==> IPTarget(ip) in targets
  }

  /** A server that was not noted, and is not among those added since, may be added. */
  lemma NextIsAllowed(
    done: set<int>, id: int, flags: map<int, bool>, usePrivateIP: bool, start: set<Target>, targets: set<Target>)
    requires ServersAreNoted(flags, start, usePrivateIP) && targets <= start + ServersToAdd(done, usePrivateIP)
    requires id !in done && !Flag(flags, id)
    ensures !HasServer(targets, id)
  {
  }

  /** Adds the servers of the cluster, in any order; the API never has to refuse one. */
  method AddServers(
    cloud: Cloud, lb: LoadBalancer, cloudIds: set<int>, hclbTargetIDs: map<int, bool>, usePrivateIP: bool,
    numberOfTargets0: int, ghost p: Plan, ghost from: Origin)
    returns (numberOfTargets: int, added: bool, step: Step)
    requires p.lb == lb.id && p.cap == CapOf(lb.state.lbType)
    requires Running(cloud, p, from) && Unhindered(cloud, from)
    requires ServersToAdd(cloudIds, usePrivateIP) <= p.add
    requires numberOfTargets0 == |cloud.lbs[lb.id].targets|
    requires ServersAreNoted(hclbTargetIDs, cloud.lbs[lb.id].targets, usePrivateIP)
    modifies cloud
    ensures cloud.refused == from.refused
    ensures !step.GoesOn? ==>
              && StoppedAfter(cloud, p, from, old(cloud.log), added)
              && !(ServersToAdd(cloudIds, usePrivateIP) <= old(cloud.lbs[lb.id].targets))
    ensures step.GoesOn? ==>
              && Advanced(cloud, p, from, old(cloud.lbs[lb.id].targets), old(cloud.log),
                          ServersToAdd(cloudIds, usePrivateIP), added)
              && numberOfTargets == |cloud.lbs[lb.id].targets|
  {
    numberOfTargets, added, step := numberOfTargets0, false, GoesOn;
    ghost var start, log := cloud.lbs[lb.id].targets, cloud.log;
    var rest := cloudIds;
    while rest != {}
      invariant rest <= cloudIds && step.GoesOn?
      invariant Advanced(cloud, p, from, start, log, ServersToAdd(cloudIds - rest, usePrivateIP), added)
      invariant numberOfTargets == |cloud.lbs[lb.id].targets|
      decreases rest
    {
      var id := AnyOf(rest);
      ghost var done := cloudIds - rest;
      rest := rest - {id};
      assert cloudIds - rest == done + {id};
      OneMoreCloudServer(done, id, usePrivateIP);
      if Flag(hclbTargetIDs, id) {
        Skipped(cloud, p, from, start, log, ServersToAdd(done, usePrivateIP), added, {ServerTarget(id, usePrivateIP)});
        continue;
      }
      CloudServerIsToAdd(cloudIds, id, usePrivateIP);
      NextIsAllowed(done, id, hclbTargetIDs, usePrivateIP, start, cloud.lbs[lb.id].targets);
      numberOfTargets, added, step := AddNext(
        cloud, lb, ServerTarget(id, usePrivateIP), numberOfTargets, added, p, from, start, log,
        ServersToAdd(done, usePrivateIP));
      if !step.GoesOn? {
        assert ServerTarget(id, usePrivateIP) !in start;
        return;
      }
    }
    assert cloudIds - rest == cloudIds;
  }

  lemma OneMoreCloudServer(done: set<int>, id: int, usePrivateIP: bool)
    ensures ServersToAdd(done + {id}, usePrivateIP)
            == ServersToAdd(done, usePrivateIP) + {ServerTarget(id, usePrivateIP)}
  {
  }

  lemma CloudServerIsToAdd(cloudIds: set<int>, id: int, usePrivateIP: bool)
    requires id in cloudIds
    ensures ServerTarget(id, usePrivateIP) in ServersToAdd(cloudIds, usePrivateIP)
  {
  }

  /** An address of the list is a target only if that was noted. */
  ghost predicate Unclaimed(flags: map<string, bool>, ips: seq<string>, targets: set<Target>) {
    forall ip <- ips :: IPTarget(ip) in targets ==> Flag(flags, ip)
  }

  /** An address that is a target, although that was not noted, was added by the run itself. */
  ghost predicate UnnotedWereAdded(cloud: Cloud, p: Plan, from: Origin, flags: map<string, bool>)
    requires p.lb in cloud.lbs && from.log <= cloud.log
    reads cloud
  {
    forall ip :: IPTarget(ip) in cloud.lbs[p.lb].targets ==>
                   Flag(flags, ip) || Call(p.lb, AddTarget(IPTarget(ip))) in Since(from.log, cloud.log)
  }

  /** What was noted before some additions tells them from the others. */
  lemma UnnotedSince(
    cloud: Cloud, p: Plan, from: Origin, start: set<Target>, log: seq<Call>, these: set<Target>, added: bool,
    flags: map<string, bool>)
    requires Advanced(cloud, p, from, start, log, these, added)
    requires After(from.lbs[p.lb].targets, Since(from.log, log)) == start
    requires forall ip :: IPTarget(ip) in start ==>
                            Flag(flags, ip) || Call(p.lb, AddTarget(IPTarget(ip))) in Since(from.log, log)
    ensures UnnotedWereAdded(cloud, p, from, flags)
  {
    forall ip | IPTarget(ip) in cloud.lbs[p.lb].targets
      ensures Flag(flags, ip) || Call(p.lb, AddTarget(IPTarget(ip))) in Since(from.log, cloud.log)
    {
      if IPTarget(ip) in start {
        assert Since(from.log, log) <= Since(from.log, cloud.log);
      } else {
        AddedByRun(cloud, p, from, start, log, these, added, IPTarget(ip));
      }
    }
  }

  /** The addresses of one dedicated server. */
  method AddIPsOf(
    cloud: Cloud, lb: LoadBalancer, ips: seq<string>, hclbTargetIPs: map<string, bool>,
    numberOfTargets0: int, ghost p: Plan, ghost from: Origin)
    returns (numberOfTargets: int, added: bool, step: Step)
    requires p.lb == lb.id && p.cap == CapOf(lb.state.lbType)
    requires Running(cloud, p, from) && Unhindered(cloud, from)
    requires TargetsOf(ips) <= p.add
    requires numberOfTargets0 == |cloud.lbs[lb.id].targets|
    requires forall ip :: Flag(hclbTargetIPs, ip) ==> IPTarget(ip) in cloud.lbs[lb.id].targets
    requires UnnotedWereAdded(cloud, p, from, hclbTargetIPs)
    modifies cloud
    ensures NoRepeats(ips) && Unclaimed(hclbTargetIPs, ips, old(cloud.lbs[lb.id].targets)) ==>
              cloud.refused == from.refused
    ensures !step.GoesOn? ==>
              && StoppedAfter(cloud, p, from, old(cloud.log), added)
              && exists ip <- ips :: IsIP(ip) && !Flag(hclbTargetIPs, ip)
    ensures step.GoesOn? ==>
              && Advanced(cloud, p, from, old(cloud.lbs[lb.id].targets), old(cloud.log), TargetsOf(ips), added)
              && numberOfTargets == |cloud.lbs[lb.id].targets|
  {
    numberOfTargets, added, step := numberOfTargets0, false, GoesOn;
    ghost var start, log := cloud.lbs[lb.id].targets, cloud.log;
    for i := 0 to |ips|
      invariant step.GoesOn?
      invariant Advanced(cloud, p, from, start, log, TargetsOf(ips[..i]), added)
      invariant numberOfTargets == |cloud.lbs[lb.id].targets|
    {
      var ip := ips[i];
      OneMoreIP(ips, i);
      if Flag(hclbTargetIPs, ip) {
        Skipped(cloud, p, from, start, log, TargetsOf(ips[..i]), added, if IsIP(ip) then {IPTarget(ip)} else {});
        continue;
      }
      if !IsIP(ip) {
        continue;
      }
      NextIPIsAllowed(ips, i, hclbTargetIPs, start, cloud.lbs[lb.id].targets);
      UnnotedSince(cloud, p, from, start, log, TargetsOf(ips[..i]), added, hclbTargetIPs);
      numberOfTargets, added, step := AddNext(
        cloud, lb, IPTarget(ip), numberOfTargets, added, p, from, start, log, TargetsOf(ips[..i]));
      if !step.GoesOn? {
        return;
      }
    }
    assert ips[..|ips|] == ips;
  }

  ghost function TargetsOf(ips: seq<string>): set<Target> {
    set ip | ip in ips && IsIP(ip) :: IPTarget(ip)
  }

  lemma OneMoreIP(ips: seq<string>, i: nat)
    requires i < |ips|
    ensures TargetsOf(ips[..i + 1]) == TargetsOf(ips[..i]) + if IsIP(ips[i]) then {IPTarget(ips[i])} else {}
    ensures IsIP(ips[i]) ==> IPTarget(ips[i]) in TargetsOf(ips)
  {
    assert ips[..i + 1] == ips[..i] + [ips[i]];
  }

  /** An address that was not noted, and does not repeat an earlier one, may be added. */
  lemma NextIPIsAllowed(ips: seq<string>, i: nat, flags: map<string, bool>, start: set<Target>, targets: set<Target>)
    requires i < |ips| && !Flag(flags, ips[i]) && targets <= start + TargetsOf(ips[..i])
    ensures NoRepeats(ips) && Unclaimed(flags, ips, start) ==> IPTarget(ips[i]) !in targets
  {
  }

  /** What was added for other servers does not claim an address of the next one. */
  lemma NextIsUnclaimed(
    done: set<int>, id: int, robotIds: set<int>, idToIPs: map<int, seq<string>>, flags: map<string, bool>,
    start: set<Target>, targets: set<Target>)
    requires DistinctNodeIPs(robotIds, idToIPs) && done <= robotIds && id in robotIds && id !in done
    requires forall ip :: IPTarget(ip) in start ==> Flag(flags, ip)
    requires targets <= start + IPsToAdd(done, idToIPs)
    ensures NoRepeats(ListedIPs(idToIPs, id)) && Unclaimed(flags, ListedIPs(idToIPs, id), targets)
  {
  }

  /** Adds the addresses of the dedicated servers of the cluster, in any order of the servers. */
  method AddRobotServers(
    cloud: Cloud, lb: LoadBalancer, robotIds: set<int>, idToIPs: map<int, seq<string>>,
    hclbTargetIPs: map<string, bool>, numberOfTargets0: int, ghost p: Plan, ghost from: Origin)
    returns (added: bool, step: Step)
    requires p.lb == lb.id && p.cap == CapOf(lb.state.lbType)
    requires Running(cloud, p, from) && Unhindered(cloud, from)
    requires IPsToAdd(robotIds, idToIPs) <= p.add
    requires numberOfTargets0 == |cloud.lbs[lb.id].targets|
    requires AddressesAreNoted(hclbTargetIPs, cloud.lbs[lb.id].targets)
    modifies cloud
    ensures DistinctNodeIPs(robotIds, idToIPs) ==> cloud.refused == from.refused
    ensures !step.GoesOn? ==>
              && StoppedAfter(cloud, p, from, old(cloud.log), added)
              && !(IPsToAdd(robotIds, idToIPs) <= old(cloud.lbs[lb.id].targets))
    ensures step.GoesOn? ==>
              Advanced(
                cloud, p, from, old(cloud.lbs[lb.id].targets), old(cloud.log), IPsToAdd(robotIds, idToIPs), added)
  {
    var numberOfTargets := numberOfTargets0;
    added, step := false, GoesOn;
    ghost var start, log := cloud.lbs[lb.id].targets, cloud.log;
    var rest := robotIds;
    while rest != {}
      invariant rest <= robotIds && step.GoesOn?
      invariant Advanced(cloud, p, from, start, log, IPsToAdd(robotIds - rest, idToIPs), added)
      invariant numberOfTargets == |cloud.lbs[lb.id].targets|
      decreases rest
    {
      var id := AnyOf(rest);
      ghost var done := robotIds - rest;
      rest := rest - {id};
      assert robotIds - rest == done + {id};
      numberOfTargets, added, step := AddRobotServer(
        cloud, lb, id, idToIPs, hclbTargetIPs, numberOfTargets, added, p, from, start, log, done, robotIds);
      if !step.GoesOn? {
        return;
      }
    }
    assert robotIds - rest == robotIds;
  }

  /** Adds the addresses of one more dedicated server. */
  method AddRobotServer(
    cloud: Cloud, lb: LoadBalancer, id: int, idToIPs: map<int, seq<string>>, hclbTargetIPs: map<string, bool>,
    numberOfTargets: int, added: bool, ghost p: Plan, ghost from: Origin, ghost start: set<Target>,
    ghost log: seq<Call>, ghost done: set<int>, ghost robotIds: set<int>)
    returns (numberOfTargets': int, added': bool, step: Step)
    requires p.lb == lb.id && p.cap == CapOf(lb.state.lbType)
    requires id in robotIds && id !in done && done <= robotIds && IPsToAdd(robotIds, idToIPs) <= p.add
    requires Advanced(cloud, p, from, start, log, IPsToAdd(done, idToIPs), added)
    requires AddressesAreNoted(hclbTargetIPs, start) && numberOfTargets == |cloud.lbs[lb.id].targets|
    requires After(from.lbs[p.lb].targets, Since(from.log, log)) == start
    modifies cloud
    ensures DistinctNodeIPs(robotIds, idToIPs) ==> cloud.refused == from.refused
    ensures !step.GoesOn? ==> StoppedAfter(cloud, p, from, log, added') && !(IPsToAdd(robotIds, idToIPs) <= start)
    ensures step.GoesOn? ==>
              && Advanced(cloud, p, from, start, log, IPsToAdd(done + {id}, idToIPs), added')
              && numberOfTargets' == |cloud.lbs[lb.id].targets|
  {
    numberOfTargets', added', step := numberOfTargets, added, GoesOn;
    var ips := ListedIPs(idToIPs, id);
    OneMoreServer(done, id, idToIPs);
    assert TargetsOf(ips) <= IPsToAdd(robotIds, idToIPs);
    if |ips| == 0 {
      return;
    }
    ghost var before, reached := cloud.lbs[lb.id].targets, cloud.log;
    if DistinctNodeIPs(robotIds, idToIPs) {
      NextIsUnclaimed(done, id, robotIds, idToIPs, hclbTargetIPs, start, before);
    }
    UnnotedSince(cloud, p, from, start, log, IPsToAdd(done, idToIPs), added, hclbTargetIPs);
    var some;
    numberOfTargets', some, step := AddIPsOf(cloud, lb, ips, hclbTargetIPs, numberOfTargets, p, from);
    added' := added || some;
    if step.GoesOn? {
      StillAdded(p, IPsToAdd(done, idToIPs), before, cloud.lbs[lb.id].targets);
    } else {
      MissingIP(ips, hclbTargetIPs, start);
      StoppedOn(cloud, p, from, log, reached, added, some);
    }
  }

  /** An address that was not noted was not a target. */
  lemma MissingIP(ips: seq<string>, flags: map<string, bool>, targets: set<Target>)
    requires AddressesAreNoted(flags, targets) && exists ip <- ips :: IsIP(ip) && !Flag(flags, ip)
    ensures !(TargetsOf(ips) <= targets)
  {
    var ip :| ip in ips && IsIP(ip) && !Flag(flags, ip);
    assert IPTarget(ip) in TargetsOf(ips);
  }

  lemma OneMoreServer(done: set<int>, id: int, idToIPs: map<int, seq<string>>)
    ensures IPsToAdd(done + {id}, idToIPs) == IPsToAdd(done, idToIPs) + TargetsOf(ListedIPs(idToIPs, id))
  {
  }

  // ---------- Reading the inputs ----------

  /** The server IDs of the nodes; none if a provider ID cannot be read. */
  method ReadNodes(nodes: seq<Node>) returns (readable: bool, cloudIds: set<int>, robotIds: set<int>)
    ensures readable <==> AllReadable(nodes)
    ensures readable ==> cloudIds == CloudIds(nodes) && robotIds == RobotIds(nodes)
  {
    readable, cloudIds, robotIds := true, {}, {};
    for i := 0 to |nodes|
      invariant readable && AllReadable(nodes[..i])
      invariant cloudIds == CloudIds(nodes[..i]) && robotIds == RobotIds(nodes[..i])
    {
      assert nodes[..i + 1] == nodes[..i] + [nodes[i]];
      var parsed := ToServerId(nodes[i].providerId);
      OneMoreNode(nodes[..i], nodes[i]);
      if parsed.Err? {
        if parsed.error == UnknownPrefix {
          continue;
        }
        assert nodes[i] in nodes;
        readable := false;
        return;
      }
      if parsed.value.isCloudServer {
        cloudIds := cloudIds + {parsed.value.id};
      } else {
        robotIds := robotIds + {parsed.value.id};
      }
    }
    assert nodes[..|nodes|] == nodes;
  }

  lemma OneMoreNode(nodes: seq<Node>, n: Node)
    ensures var parsed := ToServerId(n.providerId);
            && CloudIds(nodes + [n]) ==
               CloudIds(nodes) + (if parsed.Ok? && parsed.value.isCloudServer then {parsed.value.id as int} else {})
            && RobotIds(nodes + [n]) ==
               RobotIds(nodes) + (if parsed.Ok? && !parsed.value.isCloudServer then {parsed.value.id as int} else {})
            && (AllReadable(nodes + [n]) <==> AllReadable(nodes) && (parsed.Ok? || parsed.error == UnknownPrefix))
  {
    forall m | m in nodes + [n]
      ensures m in nodes || m == n
    {
    }
    assert n in nodes + [n] && forall m <- nodes :: m in nodes + [n];
  }

  /** The addresses of each dedicated server, and the server of each address. */
  method ReadRobotServers(family: AddressFamily, servers: seq<R.RobotServer>)
    returns (robotIDToIPs: map<int, seq<string>>, robotIPsToIDs: map<string, int>)
    ensures robotIDToIPs == IdToIPs(family, servers) && robotIPsToIDs == IpToId(family, servers)
  {
    robotIDToIPs, robotIPsToIDs := map[], map[];
    for i := 0 to |servers|
      invariant robotIDToIPs == IdToIPs(family, servers[..i]) && robotIPsToIDs == IpToId(family, servers[..i])
    {
      var s := servers[i];
      OneMoreRobotServer(family, servers, i);
      var ips := RobotTargetIPs(family, s);
      robotIDToIPs := robotIDToIPs[s.number := ips];
      robotIPsToIDs := NoteAddresses(robotIPsToIDs, ips, s.number);
    }
    assert servers[..|servers|] == servers;
  }

  lemma OneMoreRobotServer(family: AddressFamily, servers: seq<R.RobotServer>, i: nat)
    requires i < |servers|
    ensures IdToIPs(family, servers[..i + 1])
            == IdToIPs(family, servers[..i])[servers[i].number := RobotTargetIPs(family, servers[i])]
    ensures IpToId(family, servers[..i + 1])
            == SetAll(IpToId(family, servers[..i]), RobotTargetIPs(family, servers[i]), servers[i].number)
  {
    assert servers[..i + 1][..i] == servers[..i];
  }

  method NoteAddresses(m: map<string, int>, ips: seq<string>, number: int) returns (m': map<string, int>)
    ensures m' == SetAll(m, ips, number)
  {
    m' := m;
    for j := 0 to |ips|
      invariant m' == SetAll(m, ips[..j], number)
    {
      assert ips[..j + 1][..j] == ips[..j];
      m' := m'[ips[j] := number];
    }
    assert ips[..|ips|] == ips;
  }

  // ---------- The whole run ----------

  datatype TargetsError = InvalidAnnotation | MissingNetwork | InvalidProviderId | RobotFailed | ApiFailed

  /** What Robot answered, if there is a Robot client. */
  type RobotAnswer = Option<Result<seq<R.RobotServer>, R.RobotError>>

  function ServersOf(answer: RobotAnswer): seq<R.RobotServer> {
    if answer.Some? && answer.value.Ok? then answer.value.value else []
  }

  /** The checks before the first change. */
  predicate InputsAreGood(options: TargetOptions, networkId: int, nodes: seq<Node>, answer: RobotAnswer) {
    && options.family.Some? && options.usePrivateIP.Some?
    && !(options.usePrivateIP.value && networkId == 0)
    && AllReadable(nodes)
    && (answer.Some? ==> answer.value.Ok?)
  }

  ghost function InputOf(lb: LoadBalancer, options: TargetOptions, nodes: seq<Node>, answer: RobotAnswer): PlanInput
    requires options.family.Some? && options.usePrivateIP.Some?
    reads lb
  {
    PlanInput(lb.id, lb.state.lbType, options.family.value, options.usePrivateIP.value, nodes, ServersOf(answer))
  }

  /**
   * How a run ends. Without an error and without hitting the quota it is a successful run, and every
   * change that was asked for was made; otherwise a call failed or was refused. The quota is hit only
   * when something was to be added. A run without an error reports its changes, unless it hit the
   * quota; a run with an error reports the changes before the one that failed.
   */
  ghost predicate Ended(
    cloud: Cloud, p: Plan, from: Origin, changed: bool, err: Option<TargetsError>, quota: bool)
    reads cloud
  {
    && Running(cloud, p, from)
    && (err.None? && !quota ==>
          Unhindered(cloud, from) && Succeeds(p, from.lbs[p.lb].targets, Since(from.log, cloud.log)))
    && (err.Some? || quota ==> Stopped(cloud, p, from))
    && (quota ==> err.None? && !(p.add <= from.lbs[p.lb].targets * p.keep))
    && (err.None? ==> (changed <==> !quota && cloud.log != from.log))
    && (err.Some? ==> StoppedAfter(cloud, p, from, from.log, changed))
  }

  /** However a run ended, the targets are safe; and if it ended well, they are as a complete run leaves them. */
  lemma EndedSafely(cloud: Cloud, p: Plan, from: Origin, changed: bool, err: Option<TargetsError>, quota: bool)
    requires ValidPlan(p) && Ended(cloud, p, from, changed, err, quota)
    ensures Between(p, from.lbs[p.lb].targets, cloud.lbs[p.lb].targets)
    ensures err.None? && !quota ==> Complete(p, from.lbs[p.lb].targets, cloud.lbs[p.lb].targets)
  {
    RunIsSafe(p, from.lbs[p.lb].targets, Since(from.log, cloud.log));
  }

  /**
   * When every target to add is there and may stay, a run without an error reports exactly whether it
   * changed something.
   */
  lemma ReportIsExact(cloud: Cloud, p: Plan, from: Origin, changed: bool, err: Option<TargetsError>, quota: bool)
    requires Ended(cloud, p, from, changed, err, quota) && err.None?
    requires p.add <= from.lbs[p.lb].targets * p.keep
    ensures changed <==> cloud.log != from.log
  {
  }

  /** From a steady state a run does not even ask for a change, and does not fail. */
  lemma SteadyAsksNothing(cloud: Cloud, p: Plan, from: Origin, changed: bool, err: Option<TargetsError>, quota: bool)
    requires Ended(cloud, p, from, changed, err, quota) && Steady(p, from.lbs[p.lb].targets)
    ensures err.None? && !quota && !changed && Here(cloud) == from
  {
    SteadyRunAsksNothing(p, from.lbs[p.lb].targets, Since(from.asked, cloud.asked));
    SteadyRunIsEmpty(p, from.lbs[p.lb].targets, Since(from.log, cloud.log));
    assert cloud.lbs == from.lbs[p.lb := from.lbs[p.lb].(targets := cloud.lbs[p.lb].targets)];
  }

  /** A run that ended well changed something exactly when it did not start from a steady state. */
  lemma ChangesExactly(cloud: Cloud, p: Plan, from: Origin, changed: bool)
    requires Ended(cloud, p, from, changed, None, false)
    ensures changed <==> !Steady(p, from.lbs[p.lb].targets)
  {
    QuietExactly(p, from.lbs[p.lb].targets, Since(from.log, cloud.log));
    assert Since(from.log, cloud.log) == [] <==> cloud.log == from.log;
  }

  /** A known prefix with something after it that is no number, or with nothing. */
  ghost predicate IsBadProviderId(n: Node) {
    var parsed := ToServerId(n.providerId);
    parsed == Err(MissingServerId) || parsed == Err(InvalidServerId)
  }

  /** Why a run stops before its first change. */
  ghost predicate IsInputError(
    options: TargetOptions, networkId: int, nodes: seq<Node>, answer: RobotAnswer, e: TargetsError)
  {
    match e
    case InvalidAnnotation => options.family.None? || options.usePrivateIP.None?
    case MissingNetwork => options.usePrivateIP == Some(true) && networkId == 0
    case InvalidProviderId => exists n <- nodes :: IsBadProviderId(n)
    case RobotFailed => answer.Some? && answer.value.Err?
    case ApiFailed => false
  }

  /** There is such a reason exactly when the inputs are not good. */
  lemma InputErrorExactly(options: TargetOptions, networkId: int, nodes: seq<Node>, answer: RobotAnswer)
    ensures InputsAreGood(options, networkId, nodes, answer) <==>
            forall e :: !IsInputError(options, networkId, nodes, answer, e)
  {
    assert forall n <- nodes :: IsBadProviderId(n) <==>
                                !(ToServerId(n.providerId).Ok? || ToServerId(n.providerId).error == UnknownPrefix);
    if !InputsAreGood(options, networkId, nodes, answer) {
      assert || IsInputError(options, networkId, nodes, answer, InvalidAnnotation)
             || IsInputError(options, networkId, nodes, answer, MissingNetwork)
             || IsInputError(options, networkId, nodes, answer, InvalidProviderId)
             || IsInputError(options, networkId, nodes, answer, RobotFailed);
    }
  }

  /**
   * A failed Robot call, an unreadable annotation or provider ID, or a missing network, fails the run
   * before it asks for any change. Otherwise it is a run of the plan for the nodes and the servers that
   * Robot listed.
   */
  method ReconcileTargets(
    cloud: Cloud, lb: LoadBalancer, options: TargetOptions, networkId: int, nodes: seq<Node>, answer: RobotAnswer)
    returns (changed: bool, err: Option<TargetsError>, ghost quota: bool)
    requires cloud.Valid() && lb.id in cloud.lbs && IsListing(lb.targets, cloud.lbs[lb.id].targets)
    modifies cloud
    ensures cloud.Valid()
    ensures (exists e :: IsInputError(options, networkId, nodes, answer, e)) ==>
              && err.Some? && IsInputError(options, networkId, nodes, answer, err.value)
              && !changed && !quota && Here(cloud) == old(Here(cloud))
    ensures && options.family.Some? && options.usePrivateIP.Some? && !(options.usePrivateIP.value && networkId == 0)
            && (forall n <- nodes :: !IsBadProviderId(n)) && (answer.Some? ==> answer.value.Ok?) ==>
              var servers := if answer.Some? then answer.value.value else [];
              var i := PlanInput(
                         lb.id, lb.state.lbType, options.family.value, options.usePrivateIP.value, nodes, servers);
              && Ended(cloud, PlanFor(i), old(Here(cloud)), changed, err, quota)
              && (DistinctNodeIPs(RobotIds(nodes), IdToIPs(i.family, servers)) ==> cloud.refused == old(cloud.refused))
              && (err.None? && !quota && RobotListIsSound(i.family, servers) ==>
                    IsReached(i, old(cloud.lbs[lb.id].targets), cloud.lbs[lb.id].targets))
  {
    changed, quota := false, false;
    ghost var from := Here(cloud);
    InputErrorExactly(options, networkId, nodes, answer);
    var cloudIds, robotIds, idToIPs, ipToId;
    err, cloudIds, robotIds, idToIPs, ipToId := ReadInputs(options, networkId, nodes, answer);
    if err.Some? {
      return;
    }
    ghost var i := InputOf(lb, options, nodes, answer);
    changed, err, quota :=
      RunPlan(cloud, lb, cloudIds, robotIds, idToIPs, ipToId, options.usePrivateIP.value, PlanFor(i));
    SoundRunArrives(cloud, i, from, changed, err, quota);
  }

  /** A run that ended well arrives at what is wanted, if the Robot list is sound. */
  lemma SoundRunArrives(
    cloud: Cloud, i: PlanInput, from: Origin, changed: bool, err: Option<TargetsError>, quota: bool)
    requires Ended(cloud, PlanFor(i), from, changed, err, quota)
    ensures err.None? && !quota && RobotListIsSound(i.family, i.servers) ==>
              IsReached(i, from.lbs[i.lb].targets, cloud.lbs[i.lb].targets)
  {
    PlanIsValid(i);
    EndedSafely(cloud, PlanFor(i), from, changed, err, quota);
    if err.None? && !quota && RobotListIsSound(i.family, i.servers) {
      ConvergesOrFillsUp(i, from.lbs[i.lb].targets, cloud.lbs[i.lb].targets);
    }
  }

  /** The checks before the first change, and the sets and indexes a run works with. */
  method ReadInputs(options: TargetOptions, networkId: int, nodes: seq<Node>, answer: RobotAnswer)
    returns (err: Option<TargetsError>, cloudIds: set<int>, robotIds: set<int>, idToIPs: map<int, seq<string>>,
             ipToId: map<string, int>)
    ensures err.None? <==> InputsAreGood(options, networkId, nodes, answer)
    ensures err.Some? ==> IsInputError(options, networkId, nodes, answer, err.value)
    ensures err.None? ==>
              && cloudIds == CloudIds(nodes) && robotIds == RobotIds(nodes)
              && idToIPs == IdToIPs(options.family.value, ServersOf(answer))
              && ipToId == IpToId(options.family.value, ServersOf(answer))
  {
    err, cloudIds, robotIds, idToIPs, ipToId := None, {}, {}, map[], map[];
    if options.family.None? || options.usePrivateIP.None? {
      err := Some(InvalidAnnotation);
      return;
    }
    if options.usePrivateIP.value && networkId == 0 {
      err := Some(MissingNetwork);
      return;
    }
    var readable;
    readable, cloudIds, robotIds := ReadNodes(nodes);
    if !readable {
      err := Some(InvalidProviderId);
      return;
    }
    if answer.Some? && answer.value.Err? {
      err := Some(RobotFailed);
      return;
    }
    idToIPs, ipToId := ReadRobotServers(options.family.value, ServersOf(answer));
  }

  /** No two addresses of dedicated nodes are the same. */
  ghost predicate NodeIPsAreDistinct(family: AddressFamily, nodes: seq<Node>, answer: RobotAnswer) {
    DistinctNodeIPs(RobotIds(nodes), IdToIPs(family, ServersOf(answer)))
  }

  /** Removes, then adds servers, then adds addresses. */
  method RunPlan(
    cloud: Cloud, lb: LoadBalancer, cloudIds: set<int>, robotIds: set<int>, idToIPs: map<int, seq<string>>,
    ipToId: map<string, int>, usePrivateIP: bool, ghost p: Plan)
    returns (changed: bool, err: Option<TargetsError>, ghost quota: bool)
    requires cloud.Valid() && lb.id in cloud.lbs && IsListing(lb.targets, cloud.lbs[lb.id].targets)
    requires p == PlanOfParts(lb.id, cloudIds, robotIds, ipToId, idToIPs, usePrivateIP, lb.state.lbType)
    modifies cloud
    ensures Ended(cloud, p, old(Here(cloud)), changed, err, quota)
    ensures DistinctNodeIPs(robotIds, idToIPs) ==> cloud.refused == old(cloud.refused)
  {
    changed, err, quota := false, None, false;
    ghost var from := Here(cloud);
    PlanOfPartsIsValid(lb.id, cloudIds, robotIds, ipToId, idToIPs, usePrivateIP, lb.state.lbType);
    var ids, ips, numberOfTargets, failed;
    ids, ips, numberOfTargets, changed, failed :=
      RemoveUnwanted(cloud, lb, p, cloudIds, robotIds, ipToId, usePrivateIP);
    if failed {
      err := Some(ApiFailed);
      return;
    }
    ghost var kept, log := cloud.lbs[lb.id].targets, cloud.log;
    WantedAreKept(cloud, p, from);
    var added, step := AddMissing(
      cloud, lb, cloudIds, robotIds, idToIPs, ids, ips, usePrivateIP, numberOfTargets, p, from);
    match step {
      case GoesOn =>
        RunSucceeds(cloud, p, from, kept, log, changed, added);
        changed := changed || added;
      case HitsQuota =>
        // The quota is not an error, and what was changed before is not reported.
        changed, quota := false, true;
      case Fails =>
        StoppedOn(cloud, p, from, from.log, log, changed, added);
        changed, err := changed || added, Some(ApiFailed);
    }
  }

  /** At any point of a run the targets that were there and may stay are there. */
  lemma WantedAreKept(cloud: Cloud, p: Plan, from: Origin)
    requires ValidPlan(p) && Running(cloud, p, from)
    ensures from.lbs[p.lb].targets * p.keep <= cloud.lbs[p.lb].targets
  {
    RunIsSafe(p, from.lbs[p.lb].targets, Since(from.log, cloud.log));
  }

  /** Servers that are kept are reached the configured way. */
  lemma KeptAreOfOneKind(
    cloudIds: set<int>, robotIds: set<int>, ipToId: map<string, int>, usePrivateIP: bool, targets: set<Target>)
    requires Own(targets) <= Keep(cloudIds, robotIds, ipToId, usePrivateIP)
    ensures OneKind(targets, usePrivateIP)
  {
    forall t | t in targets && t.ServerTarget?
      ensures t.usePrivateIP == usePrivateIP
    {
      assert t in Own(targets);
    }
  }

  /** Adds servers, then addresses; stops only when something was missing. */
  method AddMissing(
    cloud: Cloud, lb: LoadBalancer, cloudIds: set<int>, robotIds: set<int>, idToIPs: map<int, seq<string>>,
    ids: map<int, bool>, ips: map<string, bool>, usePrivateIP: bool, numberOfTargets0: int,
    ghost p: Plan, ghost from: Origin)
    returns (added: bool, step: Step)
    requires p.lb == lb.id && p.cap == CapOf(lb.state.lbType)
    requires Running(cloud, p, from) && Unhindered(cloud, from)
    requires p.add == ServersToAdd(cloudIds, usePrivateIP) + IPsToAdd(robotIds, idToIPs)
    requires numberOfTargets0 == |cloud.lbs[lb.id].targets|
    requires ServersAreNoted(ids, cloud.lbs[lb.id].targets, usePrivateIP)
    requires AddressesAreNoted(ips, cloud.lbs[lb.id].targets)
    modifies cloud
    ensures DistinctNodeIPs(robotIds, idToIPs) ==> cloud.refused == from.refused
    ensures !step.GoesOn? ==>
              StoppedAfter(cloud, p, from, old(cloud.log), added) && !(p.add <= old(cloud.lbs[lb.id].targets))
    ensures step.GoesOn? ==>
              Advanced(cloud, p, from, old(cloud.lbs[lb.id].targets), old(cloud.log), p.add, added)
  {
    ghost var log := cloud.log;
    var numberOfTargets;
    numberOfTargets, added, step :=
      AddServers(cloud, lb, cloudIds, ids, usePrivateIP, numberOfTargets0, p, from);
    if !step.GoesOn? {
      return;
    }
    ghost var between, reached := cloud.lbs[lb.id].targets, cloud.log;
    var some;
    some, step := AddRobotServers(cloud, lb, robotIds, idToIPs, ips, numberOfTargets, p, from);
    if step.GoesOn? {
      StillAdded(p, ServersToAdd(cloudIds, usePrivateIP), between, cloud.lbs[lb.id].targets);
    } else {
      StoppedOn(cloud, p, from, log, reached, added, some);
    }
    added := added || some;
  }

  /** A run that removed and then added everything it could is a successful one. */
  lemma RunSucceeds(
    cloud: Cloud, p: Plan, from: Origin, kept: set<Target>, log: seq<Call>, changed: bool, added: bool)
    requires ValidPlan(p) && Own(kept) <= p.keep
    requires Advanced(cloud, p, from, kept, log, p.add, added) && (changed <==> log != from.log)
    requires AllRemovals(Since(from.log, log)) && After(from.lbs[p.lb].targets, Since(from.log, log)) == kept
    ensures Succeeds(p, from.lbs[p.lb].targets, Since(from.log, cloud.log))
    ensures changed || added <==> cloud.log != from.log
  {
    var start, run, k := from.lbs[p.lb].targets, Since(from.log, cloud.log), |log| - |from.log|;
    RunIsSafe(p, start, run);
    assert Own(cloud.lbs[p.lb].targets) <= Own(kept) + p.add;
    assert run[..k] == Since(from.log, log);
  }
}

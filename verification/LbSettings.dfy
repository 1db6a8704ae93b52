/**
 * Bringing name, labels, reverse DNS, algorithm, type, networks and public interface of a load
 * balancer in line with the Service (internal/hcops/load_balancer.go, ReconcileHCLB).
 */
module LbSettings {
  import opened Basics
  import opened HCloud

  /** An annotation with a typed value. */
  datatype Parsed<+T> = NotSet | Invalid | Set(value: T)

  /** What the Service says about these settings. */
  datatype ServiceSettings = ServiceSettings(
    uid: string,
    lbName: Option<string>,
    rdns4: Option<string>,
    rdns6: Option<string>,
    algorithm: Parsed<string>,
    lbType: Option<string>,
    disablePublicNetwork: Parsed<bool>)

  // ---------- What a run changes ----------

  /** The service UID label; a missing label reads as an empty text. */
  function UidLabel(labels: map<string, string>): string {
    if LABEL_SERVICE_UID in labels then labels[LABEL_SERVICE_UID] else ""
  }

  /** The labels with the UID added; labels that exist already win. */
  function WithUid(labels: map<string, string>, uid: string): map<string, string> {
    map[LABEL_SERVICE_UID := uid] + labels
  }

  predicate InfoIsRight(s: LbState, svc: ServiceSettings) {
    UidLabel(s.labels) == svc.uid && (svc.lbName.Some? ==> svc.lbName.value == s.name)
  }

  /** The update of name and labels that is asked for. */
  function InfoUpdate(s: LbState, svc: ServiceSettings): Setting {
    Info(if svc.lbName.Some? && svc.lbName.value != s.name then svc.lbName else None,
         if UidLabel(s.labels) != svc.uid then Some(WithUid(s.labels, svc.uid)) else None)
  }

  predicate IsAttachedRight(networks: set<int>, networkId: int) {
    (forall n <- networks :: n == networkId) && (networkId != 0 ==> networkId in networks)
  }

  predicate PublicIsRight(s: LbState, svc: ServiceSettings) {
    svc.disablePublicNetwork.Set? ==> svc.disablePublicNetwork.value == !s.publicEnabled
  }

  predicate RdnsIsRight(s: LbState, svc: ServiceSettings) {
    (svc.rdns4.Some? ==> svc.rdns4.value == s.rdns4) && (svc.rdns6.Some? ==> svc.rdns6.value == s.rdns6)
  }

  /** An entry that differs is set; setting it to an empty text resets it. */
  function RdnsAfter(current: string, wanted: Option<string>): string {
    if wanted.Some? && wanted.value != current then RdnsOf(wanted.value) else current
  }

  predicate AlgorithmIsRight(s: LbState, svc: ServiceSettings) {
    svc.algorithm.Set? ==> svc.algorithm.value == s.algorithm
  }

  predicate TypeIsRight(s: LbState, svc: ServiceSettings) {
    svc.lbType.Some? ==> svc.lbType.value == s.lbType
  }

  /** Nothing is to be changed. */
  predicate NothingToDo(s: LbState, svc: ServiceSettings, networkId: int) {
    && InfoIsRight(s, svc)
    && RdnsIsRight(s, svc) && AlgorithmIsRight(s, svc) && TypeIsRight(s, svc)
    && IsAttachedRight(s.networks, networkId)
    && PublicIsRight(s, svc)
  }

  function NetworksAfter(networks: set<int>, networkId: int): set<int> {
    if networkId != 0 then {networkId} else networks * {0}
  }

  function PublicAfter(s: LbState, svc: ServiceSettings): bool {
    if svc.disablePublicNetwork.Set? then !svc.disablePublicNetwork.value else s.publicEnabled
  }

  /** The state after a run that succeeds. */
  function Reconciled(s: LbState, svc: ServiceSettings, networkId: int): LbState {
    var s1 := if InfoIsRight(s, svc) then s else Configured(s, InfoUpdate(s, svc));
    s1.(rdns4 := RdnsAfter(s.rdns4, svc.rdns4),
        rdns6 := RdnsAfter(s.rdns6, svc.rdns6),
        algorithm := if svc.algorithm.Set? then svc.algorithm.value else s.algorithm,
        lbType := svc.lbType.GetOr(s.lbType),
        networks := NetworksAfter(s.networks, networkId),
        publicEnabled := PublicAfter(s, svc))
  }

  /**
   * When a second run has nothing to do: there was no UID label of another Service, and no annotation
   * asks for an empty name or an empty reverse DNS entry that is not there.
   */
  predicate CanSettle(s: LbState, svc: ServiceSettings) {
    && (LABEL_SERVICE_UID in s.labels ==> s.labels[LABEL_SERVICE_UID] == svc.uid)
    && (svc.lbName == Some("") ==> s.name == "")
    && (svc.rdns4 == Some("") ==> s.rdns4 == "")
    && (svc.rdns6 == Some("") ==> s.rdns6 == "")
  }

  /** After a successful run a second one asks for nothing, exactly under `CanSettle`. */
  lemma SecondRunHasNothingToDo(s: LbState, svc: ServiceSettings, networkId: int)
    ensures NothingToDo(Reconciled(s, svc, networkId), svc, networkId) <==> CanSettle(s, svc)
  {
    var s' := Reconciled(s, svc, networkId);
    if InfoIsRight(s, svc) {
      assert s'.labels == s.labels && s'.name == s.name;
    } else {
      assert UidLabel(s'.labels) == if LABEL_SERVICE_UID in s.labels then s.labels[LABEL_SERVICE_UID] else svc.uid;
    }
  }

  /** Reconciling what was reconciled changes nothing, also when the second run still asks for something. */
  lemma ReconciledIsFinal(s: LbState, svc: ServiceSettings, networkId: int)
    ensures var once := Reconciled(s, svc, networkId);
            Reconciled(once, svc, networkId) == once
  {
    var once := Reconciled(s, svc, networkId);
    if LABEL_SERVICE_UID in once.labels {
      assert WithUid(once.labels, svc.uid) == once.labels;
    }
    assert NetworksAfter(once.networks, networkId) == once.networks;
  }

  /** A run that has nothing to do leaves the state as it is. */
  lemma NothingToDoIsFixpoint(s: LbState, svc: ServiceSettings, networkId: int)
    requires NothingToDo(s, svc, networkId)
    ensures Reconciled(s, svc, networkId) == s
  {
    forall n
      ensures n in NetworksAfter(s.networks, networkId) <==> n in s.networks
    {
      assert n in s.networks ==> n == networkId;
    }
  }

  /** After a successful run the load balancer is in the one configured network, or in none. */
  lemma NetworksAreExact(s: LbState, svc: ServiceSettings, networkId: int)
    requires 0 !in s.networks
    ensures Reconciled(s, svc, networkId).networks == if networkId == 0 then {} else {networkId}
  {
  }

  /** A UID label that is there is never changed, and no other Service's UID is ever written. */
  lemma UidLabelIsSticky(s: LbState, svc: ServiceSettings)
    ensures var labels := Configured(s, InfoUpdate(s, svc)).labels;
            && (LABEL_SERVICE_UID in s.labels ==> labels == s.labels)
            && (LABEL_SERVICE_UID !in s.labels && LABEL_SERVICE_UID in labels ==> labels[LABEL_SERVICE_UID] == svc.uid)
            && (forall k :: k != LABEL_SERVICE_UID ==> (k in labels <==> k in s.labels))
  {
    if LABEL_SERVICE_UID in s.labels {
      assert WithUid(s.labels, svc.uid) == s.labels;
    }
  }

  // ---------- What the annotations ask for ----------

  /** A reverse DNS entry is as it was without an annotation, and reset by an empty one. */
  ghost predicate IsRdnsAsAsked(before: string, now: string, annotation: Option<string>) {
    match annotation
    case None => now == before
    case Some(value) => now == if value != "" then value else if before == "" then "" else DEFAULT_RDNS
  }

  /** Every setting is what its annotation says, and as it was without one; a UID label that was there wins. */
  ghost predicate IsAsAsked(before: LbState, now: LbState, svc: ServiceSettings, networkId: int) {
    && now.name == (if svc.lbName.Some? && svc.lbName.value != "" then svc.lbName.value else before.name)
    && now.labels == (if LABEL_SERVICE_UID in before.labels || svc.uid == "" then before.labels
                      else before.labels[LABEL_SERVICE_UID := svc.uid])
    && IsRdnsAsAsked(before.rdns4, now.rdns4, svc.rdns4) && IsRdnsAsAsked(before.rdns6, now.rdns6, svc.rdns6)
    && now.algorithm == (match svc.algorithm case Set(value) => value case _ => before.algorithm)
    && now.lbType == (match svc.lbType case Some(value) => value case None => before.lbType)
    && now.networks == (if networkId == 0 then before.networks * {0} else {networkId})
    && now.publicEnabled
       == (match svc.disablePublicNetwork case Set(disable) => !disable case _ => before.publicEnabled)
    && now.deleteProtected == before.deleteProtected
  }

  /** The state after a successful run is what the annotations ask for. */
  lemma ReconciledIsAsAsked(s: LbState, svc: ServiceSettings, networkId: int)
    ensures IsAsAsked(s, Reconciled(s, svc, networkId), svc, networkId)
  {
    UidLabelGrows(s, svc);
    if LABEL_SERVICE_UID !in s.labels {
      assert WithUid(s.labels, svc.uid) == s.labels[LABEL_SERVICE_UID := svc.uid];
    }
  }

  /** A run has nothing to do exactly when the state is as asked, and nothing stands in the way of settling. */
  lemma NothingToDoExactly(s: LbState, svc: ServiceSettings, networkId: int)
    ensures NothingToDo(s, svc, networkId) <==> IsAsAsked(s, s, svc, networkId) && CanSettle(s, svc)
  {
    var next := Reconciled(s, svc, networkId);
    ReconciledIsAsAsked(s, svc, networkId);
    SecondRunHasNothingToDo(s, svc, networkId);
    if NothingToDo(s, svc, networkId) {
      NothingToDoIsFixpoint(s, svc, networkId);
    }
    if IsAsAsked(s, s, svc, networkId) {
      assert next == s;
    }
  }

  // ---------- Frames ----------

  /** Only the settings of one load balancer changed, and its UID label only from missing to `uid`. */
  ghost predicate OnlySettings(before: map<int, LbState>, after: map<int, LbState>, id: int, uid: string) {
    && id in before && id in after
    && after == before[id := after[id]]
    && after[id].targets == before[id].targets && after[id].services == before[id].services
    && after[id].deleteProtected == before[id].deleteProtected
    && LabelsGrow(before[id].labels, after[id].labels, uid)
  }

  ghost predicate LabelsGrow(before: map<string, string>, after: map<string, string>, uid: string) {
    if LABEL_SERVICE_UID in before then after == before
    else after == before || after == before[LABEL_SERVICE_UID := uid]
  }

  lemma OnlySettingsTransitive(a: map<int, LbState>, b: map<int, LbState>, c: map<int, LbState>, id: int, uid: string)
    requires OnlySettings(a, b, id, uid) && OnlySettings(b, c, id, uid)
    ensures OnlySettings(a, c, id, uid)
  {
    assert c == a[id := c[id]];
  }

  // ---------- The steps ----------

  /** One change of a setting. */
  method ChangeSetting(cloud: Cloud, id: int, setting: Setting, ghost uid: string) returns (o: Outcome)
    requires cloud.Valid() && id in cloud.lbs && Allowed(cloud.lbs[id], Configure(setting))
    requires setting.Info? ==> LabelsGrow(cloud.lbs[id].labels, setting.labels.GetOr(cloud.lbs[id].labels), uid)
    modifies cloud
    ensures cloud.Valid() && OnlySettings(old(cloud.lbs), cloud.lbs, id, uid)
    ensures o.Done? ==> cloud.lbs[id] == Configured(old(cloud.lbs)[id], setting)
    ensures o.Rejected? ==> cloud.lbs == old(cloud.lbs)
    ensures cloud.asked == old(cloud.asked) + [Call(id, Configure(setting))]
    ensures old(cloud.faults) <= cloud.faults && (cloud.faults == old(cloud.faults) ==> o.Done?)
  {
    ghost var before := cloud.lbs;
    o := cloud.Apply(id, Configure(setting));
    assert cloud.lbs == before[id := cloud.lbs[id]];
  }

  /** What every step promises: its part of the state, one more question only when something is to be done. */
  ghost predicate Did(
    before: map<int, LbState>, after: map<int, LbState>, id: int, uid: string, asked0: seq<Call>, asked: seq<Call>,
    needed: bool, changed: bool, failed: bool, next: LbState)
  {
    && OnlySettings(before, after, id, uid) && asked0 <= asked
    && (!needed ==> !failed && after == before && asked == asked0)
    && (!failed ==> after[id] == next && (changed <==> needed) && (needed ==> asked0 < asked))
  }

  /** Name and UID label, in one update; the object gets what the API answers. */
  method ChangeHCLBInfo(cloud: Cloud, lb: LoadBalancer, svc: ServiceSettings) returns (changed: bool, failed: bool)
    requires cloud.Valid() && lb.id in cloud.lbs && lb.state == cloud.lbs[lb.id]
    modifies cloud, lb
    ensures cloud.Valid()
    ensures var s := old(cloud.lbs)[lb.id];
            Did(old(cloud.lbs), cloud.lbs, lb.id, svc.uid, old(cloud.asked), cloud.asked,
                !InfoIsRight(s, svc), changed, failed,
                if InfoIsRight(s, svc) then s else Configured(s, InfoUpdate(s, svc)))
    ensures !failed ==> lb.state == cloud.lbs[lb.id]
    ensures var s := old(cloud.lbs)[lb.id];
            cloud.asked == old(cloud.asked)
                           + if InfoIsRight(s, svc) then [] else [Call(lb.id, Configure(InfoUpdate(s, svc)))]
    ensures old(cloud.faults) <= cloud.faults && (cloud.faults == old(cloud.faults) ==> !failed)
  {
    if InfoIsRight(lb.state, svc) {
      return false, false;
    }
    var update := InfoUpdate(lb.state, svc);
    UidLabelGrows(lb.state, svc);
    var o := ChangeSetting(cloud, lb.id, update, svc.uid);
    if o != Done {
      return false, true;
    }
    lb.state := lb.state.(name := cloud.lbs[lb.id].name, labels := cloud.lbs[lb.id].labels);
    return true, false;
  }

  lemma UidLabelGrows(s: LbState, svc: ServiceSettings)
    ensures LabelsGrow(s.labels, InfoUpdate(s, svc).labels.GetOr(s.labels), svc.uid)
  {
    if LABEL_SERVICE_UID in s.labels {
      assert WithUid(s.labels, svc.uid) == s.labels;
    } else {
      assert WithUid(s.labels, svc.uid) == s.labels[LABEL_SERVICE_UID := svc.uid];
    }
  }

  /** Changes a setting when it differs: reverse DNS, algorithm, type and public interface. */
  method ChangeIfNeeded(cloud: Cloud, id: int, needed: bool, setting: Setting, ghost uid: string)
    returns (changed: bool, failed: bool)
    requires cloud.Valid() && id in cloud.lbs
    requires setting.Rdns4? || setting.Rdns6? || setting.Algorithm? || setting.LbType? || setting.PublicInterface?
    modifies cloud
    ensures cloud.Valid()
    ensures var s := old(cloud.lbs)[id];
            Did(old(cloud.lbs), cloud.lbs, id, uid, old(cloud.asked), cloud.asked, needed, changed, failed,
                if needed then Configured(s, setting) else s)
    ensures old(cloud.faults) <= cloud.faults && (cloud.faults == old(cloud.faults) ==> !failed)
  {
    if !needed {
      return false, false;
    }
    var o := ChangeSetting(cloud, id, setting, uid);
    return o == Done, o != Done;
  }

  /** The networks in a list other than the configured one. */
  ghost function OtherNetworks(list: seq<int>, networkId: int): set<int> {
    set n | n in list && n != networkId
  }

  lemma OneMoreNetwork(list: seq<int>, networkId: int, i: nat)
    requires i < |list|
    ensures OtherNetworks(list[..i + 1], networkId)
            == OtherNetworks(list[..i], networkId) + (if list[i] == networkId then {} else {list[i]})
  {
    assert list[..i + 1] == list[..i] + [list[i]];
  }

  /** Leaves every network but the configured one. */
  method DetachFromNetwork(cloud: Cloud, lb: LoadBalancer, networkId: int, ghost uid: string)
    returns (changed: bool, failed: bool)
    requires cloud.Valid() && lb.id in cloud.lbs && IsListing(lb.privateNet, cloud.lbs[lb.id].networks)
    modifies cloud
    ensures cloud.Valid()
    ensures var s := old(cloud.lbs)[lb.id];
            Did(old(cloud.lbs), cloud.lbs, lb.id, uid, old(cloud.asked), cloud.asked,
                s.networks - {networkId} != {}, changed, failed, s.(networks := s.networks * {networkId}))
    ensures old(cloud.faults) <= cloud.faults && (cloud.faults == old(cloud.faults) ==> !failed)
  {
    changed, failed := false, false;
    ghost var lbs0, s0, asked0 := cloud.lbs, cloud.lbs[lb.id], cloud.asked;
    assert OnlySettings(lbs0, lbs0, lb.id, uid) by {
      assert lbs0 == lbs0[lb.id := lbs0[lb.id]];
    }
    for i := 0 to |lb.privateNet|
      invariant cloud.Valid() && OnlySettings(lbs0, cloud.lbs, lb.id, uid)
      invariant cloud.lbs[lb.id] == s0.(networks := s0.networks - OtherNetworks(lb.privateNet[..i], networkId))
      invariant changed <==> OtherNetworks(lb.privateNet[..i], networkId) != {}
      invariant if changed then asked0 < cloud.asked else cloud.lbs == lbs0 && cloud.asked == asked0
      invariant old(cloud.faults) <= cloud.faults
    {
      var n := lb.privateNet[i];
      OneMoreNetwork(lb.privateNet, networkId, i);
      if networkId == n {
        continue;
      }
      assert n !in lb.privateNet[..i];
      ghost var lbs := cloud.lbs;
      var o := ChangeSetting(cloud, lb.id, Detach(n), uid);
      OnlySettingsTransitive(lbs0, lbs, cloud.lbs, lb.id, uid);
      if o != Done {
        failed := true;
        assert n in s0.networks - {networkId};
        return;
      }
      changed := true;
    }
    assert lb.privateNet[..|lb.privateNet|] == lb.privateNet;
    assert OtherNetworks(lb.privateNet, networkId) == s0.networks - {networkId};
    assert s0.networks - (s0.networks - {networkId}) == s0.networks * {networkId};
  }

  predicate LbAttached(privateNet: seq<int>, networkId: int) {
    networkId in privateNet
  }

  /** A rejection after which joining a network is tried once more. */
  predicate IsContention(o: Outcome) {
    o == Rejected(Conflict) || o == Rejected(Locked)
  }

  /** How joining a network went: nothing is tried twice but an attempt that met a conflict or a lock. */
  ghost predicate TriedToJoin(
    id: int, networkId: int, asked0: seq<Call>, asked: seq<Call>, attempts: seq<Outcome>, failed: bool)
  {
    && |attempts| <= 2
    && asked == asked0 + seq(|attempts|, _ => Call(id, Configure(Attach(networkId))))
    && (attempts != [] ==> (|attempts| == 2 <==> attempts[0].Rejected? && attempts[0].code in {Conflict, Locked}))
    && (failed <==> attempts == [] || attempts[|attempts| - 1] != Done)
  }

  /** Joins the configured network; a conflict or a lock is tried once more. */
  method AttachToNetwork(cloud: Cloud, lb: LoadBalancer, networkId: int, ghost uid: string)
    returns (changed: bool, failed: bool, ghost attempts: seq<Outcome>)
    requires cloud.Valid() && lb.id in cloud.lbs
    modifies cloud
    ensures cloud.Valid()
    ensures var s := old(cloud.lbs)[lb.id];
            var needed := networkId != 0 && networkId !in lb.privateNet;
            && Did(old(cloud.lbs), cloud.lbs, lb.id, uid, old(cloud.asked), cloud.asked, needed, changed, failed,
                   if needed then s.(networks := s.networks + {networkId}) else s)
            && (needed ==> TriedToJoin(lb.id, networkId, old(cloud.asked), cloud.asked, attempts, failed))
    ensures old(cloud.faults) <= cloud.faults && (cloud.faults == old(cloud.faults) ==> !failed)
  {
    assert cloud.lbs == cloud.lbs[lb.id := cloud.lbs[lb.id]];
    if networkId == 0 || LbAttached(lb.privateNet, networkId) {
      return false, false, [];
    }
    var found := cloud.Read();
    if !found {
      return false, true, [];
    }
    ghost var lbs0 := cloud.lbs;
    var o := ChangeSetting(cloud, lb.id, Attach(networkId), uid);
    attempts := [o];
    if IsContention(o) {
      ghost var lbs := cloud.lbs;
      o := ChangeSetting(cloud, lb.id, Attach(networkId), uid);
      attempts := attempts + [o];
      OnlySettingsTransitive(lbs0, lbs, cloud.lbs, lb.id, uid);
      if o == Done {
        assert cloud.lbs[lb.id].networks == lbs0[lb.id].networks + {networkId};
      }
    }
    return o == Done, o != Done, attempts;
  }

  /** A step after other steps. */
  lemma DidThen(
    a: map<int, LbState>, b: map<int, LbState>, c: map<int, LbState>, id: int, uid: string,
    asked0: seq<Call>, asked1: seq<Call>, asked2: seq<Call>,
    needed: bool, changed: bool, next: LbState, needed': bool, changed': bool, failed': bool, next': LbState)
    requires Did(a, b, id, uid, asked0, asked1, needed, changed, false, next)
    requires Did(b, c, id, uid, asked1, asked2, needed', changed', failed', next')
    ensures Did(a, c, id, uid, asked0, asked2, needed || needed', changed || changed', failed', next')
  {
    OnlySettingsTransitive(a, b, c, id, uid);
  }

  predicate AnnotationsAreReadable(svc: ServiceSettings) {
    !svc.algorithm.Invalid? && !svc.disablePublicNetwork.Invalid?
  }

  /** The settings that one update call each takes care of, with what the Service wants. */
  function DnsAndKind(s: LbState, svc: ServiceSettings): LbState {
    var r := Reconciled(s, svc, 0);
    s.(name := r.name, labels := r.labels, rdns4 := r.rdns4, rdns6 := r.rdns6,
       algorithm := r.algorithm, lbType := r.lbType)
  }

  predicate DnsAndKindAreRight(s: LbState, svc: ServiceSettings) {
    && InfoIsRight(s, svc)
    && RdnsIsRight(s, svc)
    && AlgorithmIsRight(s, svc) && TypeIsRight(s, svc)
  }

  method ReconcileHCLB(cloud: Cloud, lb: LoadBalancer, svc: ServiceSettings, networkId: int)
    returns (changed: bool, failed: bool)
    requires cloud.Valid() && lb.id in cloud.lbs && lb.state == cloud.lbs[lb.id] && lb.Listed()
    modifies cloud, lb
    ensures cloud.Valid() && OnlySettings(old(cloud.lbs), cloud.lbs, lb.id, svc.uid)
    ensures !failed ==>
              && AnnotationsAreReadable(svc)
              && cloud.lbs[lb.id] == Reconciled(old(cloud.lbs)[lb.id], svc, networkId)
              && IsAsAsked(old(cloud.lbs)[lb.id], cloud.lbs[lb.id], svc, networkId)
              && (changed <==> !NothingToDo(old(cloud.lbs)[lb.id], svc, networkId))
              && (changed <==> cloud.asked != old(cloud.asked))
              && lb.state == old(cloud.lbs)[lb.id].(name := cloud.lbs[lb.id].name, labels := cloud.lbs[lb.id].labels)
    ensures svc.algorithm.Invalid? || svc.disablePublicNetwork.Invalid? ==> failed
    ensures NothingToDo(old(cloud.lbs)[lb.id], svc, networkId) ==>
              cloud.lbs == old(cloud.lbs) && cloud.asked == old(cloud.asked)
    ensures old(cloud.faults) <= cloud.faults
    ensures cloud.faults == old(cloud.faults) ==> (!failed <==> AnnotationsAreReadable(svc))
  {
    ghost var lbs0, asked0, s := cloud.lbs, cloud.asked, cloud.lbs[lb.id];
    changed, failed := ChangeDnsAndKind(cloud, lb, svc);
    if failed {
      return;
    }
    changed, failed :=
      ChangeConnections(cloud, lb, svc, networkId, lbs0, asked0, !DnsAndKindAreRight(s, svc), changed);
    ReconciledIsAsAsked(s, svc, networkId);
  }

  /** Networks and public interface. */
  method ChangeConnections(
    cloud: Cloud, lb: LoadBalancer, svc: ServiceSettings, networkId: int,
    ghost lbs0: map<int, LbState>, ghost asked0: seq<Call>, ghost needed: bool, changed0: bool)
    returns (changed: bool, failed: bool)
    requires cloud.Valid() && lb.id in cloud.lbs && IsListing(lb.privateNet, cloud.lbs[lb.id].networks)
    requires lb.state.publicEnabled == cloud.lbs[lb.id].publicEnabled
    requires Did(lbs0, cloud.lbs, lb.id, svc.uid, asked0, cloud.asked, needed, changed0, false, cloud.lbs[lb.id])
    modifies cloud
    ensures cloud.Valid() && OnlySettings(lbs0, cloud.lbs, lb.id, svc.uid)
    ensures var s := old(cloud.lbs)[lb.id];
            var right := IsAttachedRight(s.networks, networkId) && PublicIsRight(s, svc);
            && (!failed ==>
                  && !svc.disablePublicNetwork.Invalid?
                  && Did(lbs0, cloud.lbs, lb.id, svc.uid, asked0, cloud.asked, needed || !right, changed, false,
                         s.(networks := NetworksAfter(s.networks, networkId), publicEnabled := PublicAfter(s, svc))))
            && (!needed && right ==> cloud.lbs == lbs0 && cloud.asked == asked0)
    ensures old(cloud.faults) <= cloud.faults
    ensures cloud.faults == old(cloud.faults) ==> (!failed <==> !svc.disablePublicNetwork.Invalid?)
  {
    ghost var lbs1, asked1, s := cloud.lbs, cloud.asked, cloud.lbs[lb.id];
    var some;
    some, failed := ChangeNetworks(cloud, lb, networkId, svc.uid);
    ghost var neededN := !IsAttachedRight(s.networks, networkId);
    DidThen(lbs0, lbs1, cloud.lbs, lb.id, svc.uid, asked0, asked1, cloud.asked, needed, changed0, lbs1[lb.id],
            neededN, some, failed, s.(networks := NetworksAfter(s.networks, networkId)));
    changed := changed0 || some;
    if failed {
      return;
    }
    if svc.disablePublicNetwork.Invalid? {
      failed := true;
      return;
    }
    var disable := svc.disablePublicNetwork.Set? && svc.disablePublicNetwork.value;
    changed, failed := AlsoChange(
      cloud, lb.id, !PublicIsRight(lb.state, svc), PublicInterface(!disable), svc.uid,
      lbs0, asked0, needed || neededN, changed);
  }

  /** Name, labels, reverse DNS, algorithm and type. */
  method ChangeDnsAndKind(cloud: Cloud, lb: LoadBalancer, svc: ServiceSettings) returns (changed: bool, failed: bool)
    requires cloud.Valid() && lb.id in cloud.lbs && lb.state == cloud.lbs[lb.id]
    modifies cloud, lb
    ensures cloud.Valid() && OnlySettings(old(cloud.lbs), cloud.lbs, lb.id, svc.uid)
    ensures !failed ==>
              && !svc.algorithm.Invalid?
              && Did(old(cloud.lbs), cloud.lbs, lb.id, svc.uid, old(cloud.asked), cloud.asked,
                     !DnsAndKindAreRight(old(cloud.lbs)[lb.id], svc), changed, false,
                     DnsAndKind(old(cloud.lbs)[lb.id], svc))
              && lb.state == old(cloud.lbs)[lb.id].(name := cloud.lbs[lb.id].name, labels := cloud.lbs[lb.id].labels)
    ensures DnsAndKindAreRight(old(cloud.lbs)[lb.id], svc) ==>
              cloud.lbs == old(cloud.lbs) && cloud.asked == old(cloud.asked)
    ensures old(cloud.faults) <= cloud.faults
    ensures cloud.faults == old(cloud.faults) ==> (!failed <==> !svc.algorithm.Invalid?)
  {
    ghost var lbs0, asked0, s := cloud.lbs, cloud.asked, cloud.lbs[lb.id];
    changed, failed := ChangeHCLBInfo(cloud, lb, svc);
    if failed {
      return;
    }
    ghost var needed := !InfoIsRight(s, svc);
    changed, failed := ChangeRdns(cloud, lb, svc, lbs0, asked0, needed, changed);
    if failed {
      return;
    }
    changed, failed := ChangeKind(cloud, lb, svc, lbs0, asked0, needed || !RdnsIsRight(s, svc), changed);
  }

  /** Reverse DNS of both addresses. */
  method ChangeRdns(
    cloud: Cloud, lb: LoadBalancer, svc: ServiceSettings,
    ghost lbs0: map<int, LbState>, ghost asked0: seq<Call>, ghost needed: bool, changed0: bool)
    returns (changed: bool, failed: bool)
    requires cloud.Valid() && lb.id in cloud.lbs
    requires lb.state.rdns4 == cloud.lbs[lb.id].rdns4 && lb.state.rdns6 == cloud.lbs[lb.id].rdns6
    requires Did(lbs0, cloud.lbs, lb.id, svc.uid, asked0, cloud.asked, needed, changed0, false, cloud.lbs[lb.id])
    modifies cloud
    ensures cloud.Valid() && OnlySettings(lbs0, cloud.lbs, lb.id, svc.uid)
    ensures var s := old(cloud.lbs)[lb.id];
            && (!failed ==>
                  Did(lbs0, cloud.lbs, lb.id, svc.uid, asked0, cloud.asked,
                      needed || !RdnsIsRight(s, svc), changed, false,
                      s.(rdns4 := RdnsAfter(s.rdns4, svc.rdns4), rdns6 := RdnsAfter(s.rdns6, svc.rdns6))))
            && (!needed && RdnsIsRight(s, svc) ==> cloud.lbs == lbs0 && cloud.asked == asked0)
    ensures old(cloud.faults) <= cloud.faults && (cloud.faults == old(cloud.faults) ==> !failed)
  {
    var needed4 := svc.rdns4.Some? && svc.rdns4.value != lb.state.rdns4;
    changed, failed :=
      AlsoChange(cloud, lb.id, needed4, Rdns4(svc.rdns4.GetOr("")), svc.uid, lbs0, asked0, needed, changed0);
    if failed {
      return;
    }
    var needed6 := svc.rdns6.Some? && svc.rdns6.value != lb.state.rdns6;
    changed, failed :=
      AlsoChange(cloud, lb.id, needed6, Rdns6(svc.rdns6.GetOr("")), svc.uid, lbs0, asked0, needed || needed4, changed);
  }

  /** Algorithm and type. */
  method ChangeKind(
    cloud: Cloud, lb: LoadBalancer, svc: ServiceSettings,
    ghost lbs0: map<int, LbState>, ghost asked0: seq<Call>, ghost needed: bool, changed0: bool)
    returns (changed: bool, failed: bool)
    requires cloud.Valid() && lb.id in cloud.lbs
    requires lb.state.algorithm == cloud.lbs[lb.id].algorithm && lb.state.lbType == cloud.lbs[lb.id].lbType
    requires Did(lbs0, cloud.lbs, lb.id, svc.uid, asked0, cloud.asked, needed, changed0, false, cloud.lbs[lb.id])
    modifies cloud
    ensures cloud.Valid() && OnlySettings(lbs0, cloud.lbs, lb.id, svc.uid)
    ensures var s := old(cloud.lbs)[lb.id];
            var neededA, neededT := !AlgorithmIsRight(s, svc), !TypeIsRight(s, svc);
            && (!failed ==>
                  && !svc.algorithm.Invalid?
                  && Did(lbs0, cloud.lbs, lb.id, svc.uid, asked0, cloud.asked,
                         needed || neededA || neededT, changed, false,
                         s.(algorithm := if svc.algorithm.Set? then svc.algorithm.value else s.algorithm,
                            lbType := svc.lbType.GetOr(s.lbType))))
            && (!needed && !neededA && !neededT ==> cloud.lbs == lbs0 && cloud.asked == asked0)
    ensures old(cloud.faults) <= cloud.faults
    ensures cloud.faults == old(cloud.faults) ==> (!failed <==> !svc.algorithm.Invalid?)
  {
    changed, failed := changed0, svc.algorithm.Invalid?;
    if failed {
      return;
    }
    var neededA := svc.algorithm.Set? && svc.algorithm.value != lb.state.algorithm;
    var algorithm := if svc.algorithm.Set? then svc.algorithm.value else "";
    changed, failed := AlsoChange(cloud, lb.id, neededA, Algorithm(algorithm), svc.uid, lbs0, asked0, needed, changed);
    if failed {
      return;
    }
    var neededT := svc.lbType.Some? && svc.lbType.value != lb.state.lbType;
    changed, failed := AlsoChange(
      cloud, lb.id, neededT, LbType(svc.lbType.GetOr("")), svc.uid, lbs0, asked0, needed || neededA, changed);
  }

  /** One more setting after others. */
  method AlsoChange(
    cloud: Cloud, id: int, needed': bool, setting: Setting, ghost uid: string,
    ghost lbs0: map<int, LbState>, ghost asked0: seq<Call>, ghost needed: bool, changed: bool)
    returns (changed': bool, failed: bool)
    requires cloud.Valid() && id in cloud.lbs
    requires setting.Rdns4? || setting.Rdns6? || setting.Algorithm? || setting.LbType? || setting.PublicInterface?
    requires Did(lbs0, cloud.lbs, id, uid, asked0, cloud.asked, needed, changed, false, cloud.lbs[id])
    modifies cloud
    ensures cloud.Valid()
    ensures Did(lbs0, cloud.lbs, id, uid, asked0, cloud.asked, needed || needed', changed', failed,
                if needed' then Configured(old(cloud.lbs)[id], setting) else old(cloud.lbs)[id])
    ensures old(cloud.faults) <= cloud.faults && (cloud.faults == old(cloud.faults) ==> !failed)
  {
    ghost var lbs1, asked1 := cloud.lbs, cloud.asked;
    var some;
    some, failed := ChangeIfNeeded(cloud, id, needed', setting, uid);
    DidThen(lbs0, lbs1, cloud.lbs, id, uid, asked0, asked1, cloud.asked, needed, changed, lbs1[id],
            needed', some, failed, if needed' then Configured(lbs1[id], setting) else lbs1[id]);
    changed' := changed || some;
  }

  lemma AttachedRightMeans(networks: set<int>, networkId: int)
    ensures IsAttachedRight(networks, networkId) <==>
            networks - {networkId} == {} && (networkId != 0 ==> networkId in networks)
  {
    if networks - {networkId} == {} {
      forall n | n in networks
        ensures n == networkId
      {
        assert n !in networks - {networkId};
      }
    }
    if forall n <- networks :: n == networkId {
      assert forall n :: n !in networks - {networkId};
    }
  }

  /** Leaves the wrong networks and joins the right one. */
  method ChangeNetworks(cloud: Cloud, lb: LoadBalancer, networkId: int, ghost uid: string)
    returns (changed: bool, failed: bool)
    requires cloud.Valid() && lb.id in cloud.lbs && IsListing(lb.privateNet, cloud.lbs[lb.id].networks)
    modifies cloud
    ensures cloud.Valid()
    ensures var s := old(cloud.lbs)[lb.id];
            Did(old(cloud.lbs), cloud.lbs, lb.id, uid, old(cloud.asked), cloud.asked,
                !IsAttachedRight(s.networks, networkId), changed, failed,
                s.(networks := NetworksAfter(s.networks, networkId)))
    ensures old(cloud.faults) <= cloud.faults && (cloud.faults == old(cloud.faults) ==> !failed)
  {
    ghost var lbs0, asked0, s := cloud.lbs, cloud.asked, cloud.lbs[lb.id];
    changed, failed := DetachFromNetwork(cloud, lb, networkId, uid);
    AttachedRightMeans(s.networks, networkId);
    if failed {
      return;
    }
    ghost var lbs1, asked1 := cloud.lbs, cloud.asked;
    var some;
    ghost var attempts;
    some, failed, attempts := AttachToNetwork(cloud, lb, networkId, uid);
    ghost var next := s.(networks := NetworksAfter(s.networks, networkId));
    DidThen(lbs0, lbs1, cloud.lbs, lb.id, uid, asked0, asked1, cloud.asked,
            s.networks - {networkId} != {}, changed, lbs1[lb.id],
            networkId != 0 && networkId !in lb.privateNet, some, failed, next);
    changed := changed || some;
  }
}

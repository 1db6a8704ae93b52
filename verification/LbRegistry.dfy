/**
 * Which load balancer belongs to which Service, over whole runs of the controller: every run of
 * Ensure, Update and Delete is one step, however early it stops
 * (hcloud/load_balancers.go, internal/hcops/load_balancer.go).
 */
module LbRegistry {
  import opened HCloud
  import opened LbSettings

  // ---------- Steps ----------

  /** Only one load balancer changed; its UID label at most came to be, and its protection stayed. */
  ghost predicate OnlyOne(before: map<int, LbState>, after: map<int, LbState>, id: int, uid: string) {
    && id in before && id in after && after == before[id := after[id]]
    && after[id].deleteProtected == before[id].deleteProtected
    && LabelsGrow(before[id].labels, after[id].labels, uid)
  }

  lemma OnlyOneTransitive(a: map<int, LbState>, b: map<int, LbState>, c: map<int, LbState>, id: int, uid: string)
    requires OnlyOne(a, b, id, uid) && OnlyOne(b, c, id, uid)
    ensures OnlyOne(a, c, id, uid)
  {
    assert c == a[id := c[id]];
  }

  /** A run of Ensure or Update for a Service worked on nothing, or on one load balancer. */
  datatype Used = Nothing | Existing(id: int) | Created(id: int)

  /**
   * An existing load balancer is used when it is the only one with the UID, or when none has the UID and
   * it has the name; a new one is made, with the UID, only when none has it.
   */
  ghost predicate EnsureStep(
    before: map<int, LbState>, after: map<int, LbState>, uid: string, name: string, used: Used)
  {
    match used
    case Nothing => after == before
    case Existing(id) =>
      && OnlyOne(before, after, id, uid)
      && (Labelled(before, uid) == {id} || (Labelled(before, uid) == {} && before[id].name == name))
    case Created(id) =>
      && Labelled(before, uid) == {} && id !in before
      && id in after && after == before[id := after[id]] && HasUid(after[id], uid)
  }

  /** A run of Delete removes nothing, or the one load balancer with the UID, if it is not protected. */
  ghost predicate DeleteStep(before: map<int, LbState>, after: map<int, LbState>, uid: string) {
    after == before
    || exists id :: id in before && IsDeletable(before, uid, id) && after == before - {id}
  }

  ghost predicate IsDeletable(lbs: map<int, LbState>, uid: string, id: int) {
    id in lbs && Labelled(lbs, uid) == {id} && !lbs[id].deleteProtected
  }

  /** Others may do anything but write UID labels. */
  ghost predicate OthersStep(before: map<int, LbState>, after: map<int, LbState>) {
    forall id <- after :: LABEL_SERVICE_UID in after[id].labels ==>
      id in before && LABEL_SERVICE_UID in before[id].labels
      && after[id].labels[LABEL_SERVICE_UID] == before[id].labels[LABEL_SERVICE_UID]
  }

  datatype Event = Ensured(uid: string, name: string, used: Used) | Deleted(uid: string) | ByOthers

  ghost predicate IsStep(before: map<int, LbState>, after: map<int, LbState>, e: Event) {
    match e
    case Ensured(uid, name, used) => EnsureStep(before, after, uid, name, used)
    case Deleted(uid) => DeleteStep(before, after, uid)
    case ByOthers => OthersStep(before, after)
  }

  ghost predicate IsRun(states: seq<map<int, LbState>>, events: seq<Event>) {
    |states| == |events| + 1 && forall i :: 0 <= i < |events| ==> IsStep(states[i], states[i + 1], events[i])
  }

  // ---------- At most one load balancer per Service ----------

  ghost predicate AtMostOnePerService(lbs: map<int, LbState>) {
    forall uid, a, b :: a in Labelled(lbs, uid) && b in Labelled(lbs, uid) ==> a == b
  }

  lemma StepKeepsUniqueness(before: map<int, LbState>, after: map<int, LbState>, e: Event)
    requires AtMostOnePerService(before) && IsStep(before, after, e)
    ensures AtMostOnePerService(after)
  {
    forall uid, a, b | a in Labelled(after, uid) && b in Labelled(after, uid)
      ensures a == b
    {
      LabelOrigin(before, after, e, uid, a);
      LabelOrigin(before, after, e, uid, b);
    }
  }

  /** A load balancer with a UID had it before, or is the one that an Ensure for that UID used while there was none. */
  lemma LabelOrigin(before: map<int, LbState>, after: map<int, LbState>, e: Event, uid: string, id: int)
    requires IsStep(before, after, e) && id in Labelled(after, uid)
    ensures id in Labelled(before, uid)
            || (e.Ensured? && e.uid == uid && !e.used.Nothing? && e.used.id == id && Labelled(before, uid) == {})
  {
  }

  /** At most one load balancer carries a given UID, after any run that starts so. */
  lemma {:induction false} AtMostOneAlways(states: seq<map<int, LbState>>, events: seq<Event>, k: nat)
    requires IsRun(states, events) && k < |states| && AtMostOnePerService(states[0])
    ensures AtMostOnePerService(states[k])
    decreases k
  {
    if k > 0 {
      AtMostOneAlways(states, events, k - 1);
      StepKeepsUniqueness(states[k - 1], states[k], events[k - 1]);
    }
  }

  /** In the first `k` steps no run of Delete removes the load balancer, and others leave its label alone. */
  ghost predicate KeepsLabel(
    states: seq<map<int, LbState>>, events: seq<Event>, uid: string, id: int, k: nat)
    requires k < |states| == |events| + 1
  {
    forall i :: 0 <= i < k ==>
      match events[i]
      case Ensured(_, _, _) => true
      case Deleted(_) => id in states[i + 1]
      case ByOthers => id in Labelled(states[i + 1], uid)
  }

  /** A labelled load balancer stays the one that every later Ensure for the Service uses, until it is deleted. */
  lemma {:induction false} LabelledStaysInUse(
    states: seq<map<int, LbState>>, events: seq<Event>, uid: string, id: int, k: nat)
    requires IsRun(states, events) && k < |states|
    requires id in Labelled(states[0], uid) && KeepsLabel(states, events, uid, id, k)
    ensures id in Labelled(states[k], uid)
    ensures k < |events| && events[k].Ensured? && events[k].uid == uid ==>
              events[k].used == Nothing || events[k].used == Existing(id)
    decreases k
  {
    if k > 0 {
      LabelledStaysInUse(states, events, uid, id, k - 1);
      if id !in Labelled(states[k], uid) {
        LabelGoesOnlyBy(states[k - 1], states[k], events[k - 1], uid, id);
      }
    }
    if k < |events| && events[k].Ensured? && events[k].uid == uid {
      UsesTheLabelled(states[k], states[k + 1], uid, events[k].name, events[k].used, id);
    }
  }

  /** A label goes away only because others take it, or because a Delete for its UID removes the load balancer. */
  lemma LabelGoesOnlyBy(before: map<int, LbState>, after: map<int, LbState>, e: Event, uid: string, id: int)
    requires IsStep(before, after, e) && id in Labelled(before, uid) && id !in Labelled(after, uid)
    ensures e.ByOthers? || (e == Deleted(uid) && after == before - {id} && IsDeletable(before, uid, id))
  {
    if e.Deleted? {
      var gone :| gone in before && IsDeletable(before, e.uid, gone) && after == before - {gone};
      assert gone in Labelled(before, e.uid);
    }
  }

  /** Ensure for a Service with a labelled load balancer uses that one, or none. */
  lemma UsesTheLabelled(
    before: map<int, LbState>, after: map<int, LbState>, uid: string, name: string, used: Used, id: int)
    requires EnsureStep(before, after, uid, name, used) && id in Labelled(before, uid)
    ensures used == Nothing || (used == Existing(id) && Labelled(before, uid) == {id})
  {
  }

  /** With more than one load balancer that carries the UID, neither Ensure nor Delete touches anything. */
  lemma AmbiguousIsLeftAlone(
    before: map<int, LbState>, after: map<int, LbState>, e: Event, uid: string, a: int, b: int)
    requires IsStep(before, after, e) && !e.ByOthers? && e.uid == uid
    requires a in Labelled(before, uid) && b in Labelled(before, uid) && a != b
    ensures after == before && (e.Ensured? ==> e.used == Nothing)
  {
    if e.Ensured? {
      UsesTheLabelled(before, after, uid, e.name, e.used, a);
    }
  }

  // ---------- Load balancers of other Services ----------

  /** The UID label of a load balancer names another Service. */
  predicate CarriesOther(s: LbState, uid: string) {
    LABEL_SERVICE_UID in s.labels && s.labels[LABEL_SERVICE_UID] != uid
  }

  /** A lookup finds a load balancer exactly when one carries the UID or has the name. */
  ghost predicate FindsExactly(lbs: map<int, LbState>, uid: string, name: string, used: Used) {
    used.Existing? <==> Labelled(lbs, uid) != {} || exists id <- lbs :: lbs[id].name == name
  }

  /** The provider allows a name only once. */
  ghost predicate DistinctNames(lbs: map<int, LbState>) {
    forall a, b :: a in lbs && b in lbs && lbs[a].name == lbs[b].name ==> a == b
  }

  /**
   * Ensure works on a load balancer that carries another Service's UID exactly when none carries its
   * own and that one has the name it looks for.
   */
  lemma UsesOthersExactly(
    before: map<int, LbState>, after: map<int, LbState>, uid: string, name: string, used: Used, id: int)
    requires EnsureStep(before, after, uid, name, used) && FindsExactly(before, uid, name, used)
    requires DistinctNames(before) && id in before && CarriesOther(before[id], uid)
    ensures used == Existing(id) <==> Labelled(before, uid) == {} && before[id].name == name
  {
    if Labelled(before, uid) == {} && before[id].name == name {
      assert used.Existing? && used.id !in Labelled(before, uid);
    }
    if used == Existing(id) {
      assert !HasUid(before[id], uid);
    }
  }

  /**
   * No other load balancer of another Service is touched; and one that is keeps its label, so that
   * the Service still has none of its own, and both Services go on with the same one.
   */
  lemma OthersStayOthers(
    before: map<int, LbState>, after: map<int, LbState>, uid: string, name: string, used: Used, id: int)
    requires EnsureStep(before, after, uid, name, used) && id in before && CarriesOther(before[id], uid)
    ensures id in after && after[id].labels == before[id].labels
    ensures after[id] != before[id] ==>
              used == Existing(id) && before[id].name == name && Labelled(before, uid) == Labelled(after, uid) == {}
  {
    if after[id] != before[id] {
      assert used == Existing(id);
      forall other | other in after
        ensures !HasUid(after[other], uid)
      {
        assert other !in Labelled(before, uid);
      }
    }
  }

  /** Deleting never removes a protected load balancer, nor one that belongs to another Service. */
  lemma DeleteIsSelective(before: map<int, LbState>, after: map<int, LbState>, uid: string, id: int)
    requires DeleteStep(before, after, uid) && id in before && id !in after
    ensures HasUid(before[id], uid) && !before[id].deleteProtected
    ensures after == before - {id}
  {
    var gone :| gone in before && IsDeletable(before, uid, gone) && after == before - {gone};
    assert gone in Labelled(before, uid);
  }
}

/**
 * The load balancers of a Hetzner Cloud project, and the API calls that read and change them. Every
 * call may fail; a change whose action fails later may or may not have taken effect.
 */
module HCloud {
  import opened Basics

  const LABEL_SERVICE_UID := "hcloud-ccm/service-uid"

  // ---------- State ----------

  /** A label-selector target is counted, but never touched. */
  datatype Target =
    | ServerTarget(id: int, usePrivateIP: bool)
    | IPTarget(ip: string)
    | LabelTarget(selector: string)

  datatype LbState = LbState(
    name: string,
    labels: map<string, string>,
    deleteProtected: bool,
    lbType: string,
    algorithm: string,
    rdns4: string,
    rdns6: string,
    publicEnabled: bool,
    networks: set<int>,
    services: map<int, int>,
    targets: set<Target>)

  /** A server is a target at most once, over its public or its private address. */
  ghost predicate UniqueServers(targets: set<Target>) {
    forall id :: !(ServerTarget(id, true) in targets && ServerTarget(id, false) in targets)
  }

  // ---------- Changes ----------

  /** The settings of a load balancer that one call changes. */
  datatype Setting =
    | Info(name: Option<string>, labels: Option<map<string, string>>)
    | Rdns4(value: string)
    | Rdns6(value: string)
    | Algorithm(value: string)
    | LbType(value: string)
    | Detach(network: int)
    | Attach(network: int)
    | PublicInterface(enabled: bool)

  datatype Change =
    | AddTarget(target: Target)
    | RemoveTarget(target: Target)
    | AddService(port: int, destination: int)
    | UpdateService(port: int, destination: int)
    | DeleteService(port: int)
    | Configure(setting: Setting)

  datatype Call = Call(lb: int, change: Change)

  /** The value the provider gives a reverse DNS entry that is reset with an empty text. */
  const DEFAULT_RDNS := "default"

  function RdnsOf(value: string): string {
    if value == "" then DEFAULT_RDNS else value
  }

  /** An update leaves out an empty name and missing labels. */
  function Configured(s: LbState, setting: Setting): LbState {
    match setting
    case Info(name, labels) =>
      s.(name := if name.GetOr("") == "" then s.name else name.value,
         labels := labels.GetOr(s.labels))
    case Rdns4(value) => s.(rdns4 := RdnsOf(value))
    case Rdns6(value) => s.(rdns6 := RdnsOf(value))
    case Algorithm(value) => s.(algorithm := value)
    case LbType(value) => s.(lbType := value)
    case Detach(network) => s.(networks := s.networks - {network})
    case Attach(network) => s.(networks := s.networks + {network})
    case PublicInterface(enabled) => s.(publicEnabled := enabled)
  }

  /** What an accepted change does. */
  function Changed(s: LbState, change: Change): LbState {
    match change
    case AddTarget(t) => s.(targets := s.targets + {t})
    case RemoveTarget(t) => s.(targets := s.targets - {t})
    case AddService(port, destination) => s.(services := s.services[port := destination])
    case UpdateService(port, destination) => s.(services := s.services[port := destination])
    case DeleteService(port) => s.(services := s.services - {port})
    case Configure(setting) => Configured(s, setting)
  }

  predicate HasServer(targets: set<Target>, id: int) {
    ServerTarget(id, true) in targets || ServerTarget(id, false) in targets
  }

  /** What the API insists on before it accepts a change. */
  predicate Allowed(s: LbState, change: Change) {
    match change
    case AddTarget(t) => if t.ServerTarget? then !HasServer(s.targets, t.id) else t !in s.targets
    case RemoveTarget(t) => t in s.targets
    case AddService(port, _) => port !in s.services
    case UpdateService(port, _) => port in s.services
    case DeleteService(port) => port in s.services
    case Configure(setting) => setting.Detach? ==> setting.network in s.networks
  }

  datatype ErrorCode = NotFound | NonUnique | ResourceLimitExceeded | Conflict | Locked | OtherCode

  /** How a change ends: done, rejected without effect, or accepted but with a failed action. */
  datatype Outcome = Done | Rejected(code: ErrorCode) | ActionFailed

  // ---------- The project ----------

  /** The object a caller works on: a copy of the state at the time of reading. */
  class LoadBalancer {
    const id: int
    var state: LbState
    /** The lists of the copy, in the order the API gave them. */
    const targets: seq<Target>
    const listenPorts: seq<int>
    const privateNet: seq<int>

    constructor (id: int, state: LbState, targets: seq<Target>, listenPorts: seq<int>, privateNet: seq<int>)
      ensures this.id == id && this.state == state
      ensures this.targets == targets && this.listenPorts == listenPorts && this.privateNet == privateNet
    {
      this.id, this.state := id, state;
      this.targets, this.listenPorts, this.privateNet := targets, listenPorts, privateNet;
    }

    /** The lists hold each element of the state once. */
    ghost predicate Listed()
      reads this
    {
      IsListing(targets, state.targets) && IsListing(listenPorts, state.services.Keys)
      && IsListing(privateNet, state.networks)
    }
  }

  ghost predicate IsListing<T>(list: seq<T>, elements: set<T>) {
    && (forall x <- list :: x in elements)
    && (forall x <- elements :: x in list)
    && (forall i, j :: 0 <= i < j < |list| ==> list[i] != list[j])
  }

  /** The next key of a map iteration, whose order is not fixed. */
  method AnyOf<T(==)>(rest: set<T>) returns (x: T)
    requires rest != {}
    ensures x in rest
  {
    x :| x in rest;
  }

  method ListOf<T(==)>(elements: set<T>) returns (list: seq<T>)
    ensures IsListing(list, elements)
  {
    list := [];
    var rest := elements;
    while rest != {}
      invariant rest <= elements && IsListing(list, elements - rest)
      decreases rest
    {
      var x := AnyOf(rest);
      list, rest := list + [x], rest - {x};
    }
  }

  /** The UID label of a load balancer names the Service. */
  predicate HasUid(s: LbState, uid: string) {
    LABEL_SERVICE_UID in s.labels && s.labels[LABEL_SERVICE_UID] == uid
  }

  /** The load balancers that carry a UID. */
  function Labelled(lbs: map<int, LbState>, uid: string): set<int> {
    set id | id in lbs && HasUid(lbs[id], uid)
  }

  /**
   * All load balancers of the project. `log` holds every change of a load balancer that took effect,
   * and `asked` every one that was asked for.
   */
  class Cloud {
    var lbs: map<int, LbState>
    var nextId: int
    ghost var log: seq<Call>
    ghost var asked: seq<Call>
    /** The changes that were asked for although the state does not allow them. */
    ghost var refused: seq<Call>
    /** How often a call failed although it could have succeeded. */
    ghost var faults: nat

    constructor ()
      ensures Valid() && lbs == map[] && log == [] && asked == [] && refused == [] && faults == 0
    {
      lbs, nextId, log, asked, refused, faults := map[], 1, [], [], [], 0;
    }

    ghost predicate Valid()
      reads this
    {
      forall id <- lbs :: UniqueServers(lbs[id].targets) && id < nextId
    }

    /** One change and the wait for its action. */
    method Apply(id: int, change: Change) returns (o: Outcome)
      requires Valid()
      modifies this
      ensures Valid()
      ensures asked == old(asked) + [Call(id, change)]
      ensures var allowed := id in old(lbs) && Allowed(old(lbs)[id], change);
              refused == old(refused) + (if allowed then [] else [Call(id, change)])
      ensures o.Done? ==>
                && id in old(lbs) && Allowed(old(lbs)[id], change)
                && lbs == old(lbs)[id := Changed(old(lbs)[id], change)]
                && log == old(log) + [Call(id, change)]
      ensures o.Done? ==> faults == old(faults)
      ensures o.Rejected? ==> lbs == old(lbs) && log == old(log)
      ensures o.ActionFailed? ==>
                (lbs == old(lbs) && log == old(log))
                || (id in old(lbs) && Allowed(old(lbs)[id], change)
                    && lbs == old(lbs)[id := Changed(old(lbs)[id], change)] && log == old(log) + [Call(id, change)])
      ensures old(faults) <= faults
      ensures faults == old(faults) ==> (o.Done? <==> id in old(lbs) && Allowed(old(lbs)[id], change))
    {
      asked := asked + [Call(id, change)];
      if id !in lbs || !Allowed(lbs[id], change) {
        refused := refused + [Call(id, change)];
        return Rejected(if id in lbs then OtherCode else NotFound);
      }
      var rejects: bool, actionFails: bool, takesEffect: bool := *, *, *;
      if rejects {
        faults := faults + 1;
        var code: ErrorCode := *;
        return Rejected(code);
      }
      if !actionFails || takesEffect {
        lbs := lbs[id := Changed(lbs[id], change)];
        log := log + [Call(id, change)];
      }
      if actionFails {
        faults := faults + 1;
        return ActionFailed;
      }
      return Done;
    }

    /** A call that changes nothing, and may fail. */
    method Read() returns (ok: bool)
      modifies this`faults
      ensures old(faults) <= faults
      ensures faults == old(faults) ==> ok
    {
      ok := *;
      if !ok {
        faults := faults + 1;
      }
    }

    /** Lists the load balancers with a UID label. */
    method AllWithUid(uid: string) returns (r: Result<seq<int>, ErrorCode>)
      modifies this`faults
      ensures r.Ok? ==> IsListing(r.value, Labelled(lbs, uid))
      ensures old(faults) <= faults && (faults == old(faults) ==> r.Ok?)
    {
      var ok := Read();
      if !ok {
        return Err(OtherCode);
      }
      var ids := ListOf(Labelled(lbs, uid));
      return Ok(ids);
    }

    /** Looks for a load balancer by name. */
    method GetByName(name: string) returns (r: Result<Option<int>, ErrorCode>)
      modifies this`faults
      ensures r.Ok? && r.value.Some? ==> r.value.value in lbs && lbs[r.value.value].name == name
      ensures r == Ok(None) ==> forall id <- lbs :: lbs[id].name != name
      ensures old(faults) <= faults && (faults == old(faults) ==> r.Ok?)
    {
      var ok := Read();
      if !ok {
        return Err(OtherCode);
      }
      var found := set id | id in lbs && lbs[id].name == name;
      if found == {} {
        assert forall id <- lbs :: id !in found;
        return Ok(None);
      }
      var id := AnyOf(found);
      return Ok(Some(id));
    }

    /** Creates a load balancer. */
    method Create(s: LbState) returns (o: Outcome, id: int)
      requires Valid() && UniqueServers(s.targets)
      modifies this
      ensures Valid() && id == old(nextId) && id !in old(lbs)
      ensures o.Done? ==> lbs == old(lbs)[id := s]
      ensures o.Rejected? ==> lbs == old(lbs)
      ensures o.ActionFailed? ==> lbs == old(lbs) || lbs == old(lbs)[id := s]
      ensures old(faults) <= faults && (faults == old(faults) ==> o.Done?)
      ensures log == old(log)
    {
      var rejects: bool, actionFails: bool, takesEffect: bool := *, *, *;
      id := nextId;
      nextId := nextId + 1;
      if rejects {
        faults := faults + 1;
        return Rejected(OtherCode), id;
      }
      if !actionFails || takesEffect {
        lbs := lbs[id := s];
      }
      if actionFails {
        faults := faults + 1;
        return ActionFailed, id;
      }
      return Done, id;
    }

    /** Deletes a load balancer; a failure may hide a deletion that took place. */
    method Delete(id: int) returns (err: Option<ErrorCode>)
      requires Valid()
      modifies this
      ensures Valid() && (lbs == old(lbs) || lbs == old(lbs) - {id})
      ensures err.None? || err == Some(NotFound) ==> id !in lbs
      ensures old(faults) <= faults && (faults == old(faults) ==> err.None? || err == Some(NotFound))
      ensures log == old(log)
    {
      if id !in lbs {
        return Some(NotFound);
      }
      var fails: bool, takesEffect: bool := *, *;
      if !fails || takesEffect {
        lbs := lbs - {id};
      }
      if fails {
        faults := faults + 1;
        return Some(OtherCode);
      }
      return None;
    }

    /** Reads a copy of a load balancer. */
    method Snapshot(id: int) returns (lb: LoadBalancer)
      requires id in lbs
      ensures fresh(lb) && lb.id == id && lb.state == lbs[id] && lb.Listed()
    {
      var targets := ListOf(lbs[id].targets);
      var ports := ListOf(lbs[id].services.Keys);
      var nets := ListOf(lbs[id].networks);
      lb := new LoadBalancer(id, lbs[id], targets, ports, nets);
    }
  }
}

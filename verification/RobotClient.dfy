/**
 * The Robot client with its cache (internal/robot/client/cache/client.go) as an object, proved
 * against the state machine of `RobotCache`, and the lookup of a node by name on top of it
 * (hcloud/util.go).
 */
module RobotClient {
  import opened Basics
  import opened Clocks
  import opened RobotCache

  // ---------- The surroundings ----------

  /** The Robot API; every call may fail, and every list is a new one. */
  class RobotApi {
    /** How often the list was asked for, and how often that failed. */
    ghost var calls: nat
    ghost var failures: nat

    method ServerGetList() returns (r: Result<array<RobotServer>, RobotError>)
      modifies this
      ensures r.Ok? ==> fresh(r.value)
      ensures calls == old(calls) + 1 && failures == old(failures) + if r.Ok? then 0 else 1
    {
      calls := calls + 1;
      var fails: bool := *;
      if fails {
        failures := failures + 1;
        return Err(ApiError);
      }
      var n :| 0 <= n;
      var list := new RobotServer[n];
      return Ok(list);
    }

    method SetCredentials(username: string, password: string) returns (err: Option<RobotError>)
    {
      var fails: bool := *;
      return if fails then Some(ApiError) else None;
    }
  }

  /** A pointer to an element of a list. */
  datatype ServerRef = ServerRef(list: array<RobotServer>, i: nat)

  /** What an index of pointers into `list` maps to. */
  ghost function Pointees(list: seq<RobotServer>, refs: map<int, ServerRef>): map<int, RobotServer> {
    map id | id in refs && refs[id].i < |list| :: list[refs[id].i]
  }

  lemma PointeesAre(list: seq<RobotServer>, refs: map<int, ServerRef>, target: map<int, RobotServer>)
    requires refs.Keys == target.Keys
    requires forall id <- refs :: refs[id].i < |list| && list[refs[id].i] == target[id]
    ensures Pointees(list, refs) == target
  {
    forall id | id in refs
      ensures id in Pointees(list, refs) && Pointees(list, refs)[id] == target[id]
    {
      assert refs[id].i < |list|;
    }
  }

  // ---------- The cache ----------

  class CacheRobotClient {
    const robotClient: RobotApi
    const clock: Clock
    const timeout: int

    var lastUpdate: int
    var l: array<RobotServer>
    var m: Option<map<int, ServerRef>>
    var forcedRefreshServerNames: map<string, int>

    ghost var forced: map<string, Forced>
    ghost var epoch: nat
    ghost var serial: nat
    ghost var listEpoch: nat

    ghost predicate Valid()
      reads this, l
    {
      Wired() && Coherent(Value())
    }

    /** The index points into the list, and the bookkeeping follows the fields. */
    ghost predicate Wired()
      reads this
    {
      && (m.Some? ==> forall id <- m.value :: m.value[id].list == l && m.value[id].i < l.Length)
      && forced.Keys == forcedRefreshServerNames.Keys
      && (forall n <- forced :: forced[n].at == forcedRefreshServerNames[n])
    }

    /** The cache as a value of the state machine. */
    ghost function Value(): Cache
      reads this, l
    {
      Cache(l[..], if m.None? then None else Some(Pointees(l[..], m.value)),
            lastUpdate, forced, epoch, serial, listEpoch)
    }

    constructor (robotClient: RobotApi, clock: Clock, cacheTimeout: int)
      ensures Valid() && Value() == EMPTY_CACHE
      ensures timeout == if cacheTimeout == 0 then DEFAULT_TIMEOUT else cacheTimeout
    {
      this.robotClient := robotClient;
      this.clock := clock;
      timeout := if cacheTimeout == 0 then DEFAULT_TIMEOUT else cacheTimeout;
      lastUpdate := 0;
      l := new RobotServer[0];
      m := None;
      forcedRefreshServerNames := map[];
      forced, epoch, serial, listEpoch := map[], 0, 0, 0;
    }

    /**
     * What every operation promises: one step of the state machine, a call of the Robot API exactly
     * when that step asks for one, and lists are replaced, never modified.
     */
    twostate predicate Performs(op: Op)
      reads this, l, clock, robotClient
    {
      && old(Valid()) && Valid()
      && Value() == Next(old(Value()), timeout, op)
      && WellTimed(op) && old(clock.now) <= Start(op) && End(op) <= clock.now
      && (l == old(l) || fresh(l))
      && robotClient.calls == old(robotClient.calls) + (if Asks(old(Value()), timeout, op) then 1 else 0)
      && robotClient.failures == old(robotClient.failures) + (if AsksAndFails(old(Value()), timeout, op) then 1 else 0)
    }

    /** Robot is asked exactly when there is no list, or when it is older than the timeout. */
    twostate predicate AsksExactly(checked: int)
      reads this, robotClient
    {
      robotClient.calls > old(robotClient.calls) <==> old(m).None? || checked > old(lastUpdate) + timeout
    }

    /** The name forced a refresh before, no longer than the timeout ago. */
    predicate HasForced(name: string, lookedUp: int)
      reads this
    {
      name in forcedRefreshServerNames && lookedUp <= forcedRefreshServerNames[name] + timeout
    }

    /** The entry of a name is the one that was there. */
    twostate predicate IsForceKept(name: string)
      reads this
    {
      && name in forcedRefreshServerNames && name in old(forcedRefreshServerNames)
      && forcedRefreshServerNames[name] == old(forcedRefreshServerNames)[name]
    }

    /** The entries of all other names are as they were. */
    twostate predicate OtherForcesAreKept(name: string)
      reads this
    {
      forall n :: n != name && (n in forcedRefreshServerNames || n in old(forcedRefreshServerNames)) ==> IsForceKept(n)
    }

    /** The list does not have the name, and the name did not force a refresh within the timeout. */
    predicate MayAsk(name: string)
      reads this, l, clock
    {
      (forall s <- l[..] :: s.name != name) && !HasForced(name, clock.now)
    }

    method ServerGet(id: int) returns (r: Result<ServerRef, RobotError>, ghost op: Op)
      requires Valid()
      modifies this, clock, robotClient
      ensures op.Read? && Performs(op)
      ensures r.Ok? ==> Answers(old(Value()), timeout, op)
      ensures r.Ok? ==> r.value.list == l && r.value.i < l.Length
                        && Some(l[r.value.i]) == LastWithNumber(l[..], id)
      ensures r == Err(ApiError) <==> !Answers(old(Value()), timeout, op)
      ensures r == Err(ServerNotFound) ==>
                Answers(old(Value()), timeout, op) && LastWithNumber(l[..], id).None?
      ensures r.Ok? ==> exists k: nat :: IsLastWithNumber(l[..], k, id) && l[k] == l[r.value.i]
      ensures r == Err(ServerNotFound) ==> forall s <- l[..] :: s.number != id
      ensures AsksExactly(op.checked)
    {
      var err;
      ghost var checked, answer, answered;
      err, checked, answer, answered := SyncIfNeeded();
      op := Read(checked, answer, answered);
      NextIsCoherent(old(Value()), timeout, op);
      if err.Some? {
        return Err(ApiError), op;
      }
      var last := LastWithNumberIs(l[..], id);
      assert (if id in Value().index.value then Some(Value().index.value[id]) else None)
             == LastWithNumber(l[..], id);
      if id !in m.value {
        return Err(ServerNotFound), op;
      }
      return Ok(m.value[id]), op;
    }

    method ServerGetList() returns (r: Result<array<RobotServer>, RobotError>, ghost op: Op)
      requires Valid()
      modifies this, clock, robotClient
      ensures op.Read? && Performs(op)
      ensures r.Ok? <==> Answers(old(Value()), timeout, op)
      ensures r.Ok? ==> r.value == l
      ensures AsksExactly(op.checked)
      ensures forcedRefreshServerNames == old(forcedRefreshServerNames)
      ensures robotClient.calls == old(robotClient.calls) ==> l == old(l)
    {
      var err;
      ghost var checked, answer, answered;
      err, checked, answer, answered := SyncIfNeeded();
      op := Read(checked, answer, answered);
      NextIsCoherent(old(Value()), timeout, op);
      if err.Some? {
        return Err(err.value), op;
      }
      return Ok(l), op;
    }

    /**
     * Reloads the list, unless this name already forced a refresh within the timeout. Only a refresh that
     * succeeded is on record, and after one that failed there is no list.
     */
    method ServerGetListForceRefresh(nodeName: string)
      returns (r: Result<array<RobotServer>, RobotError>, ghost op: Op)
      requires Valid()
      modifies this, clock, robotClient
      ensures op.ForceRefresh? && op.name == nodeName && Performs(op)
      ensures r.Ok? <==> Answers(old(Value()), timeout, op)
      ensures r.Ok? ==> r.value == l
      ensures timeout > 0 ==>
                (robotClient.calls > old(robotClient.calls) <==>
                 || nodeName == "" || !old(HasForced(nodeName, op.lookedUp))
                 || old(m).None? || op.checked > old(lastUpdate) + timeout)
      ensures robotClient.calls == old(robotClient.calls) ==> l == old(l)
      ensures OtherForcesAreKept(nodeName)
      ensures r.Ok? && nodeName != "" ==> nodeName in forcedRefreshServerNames
      ensures nodeName in forcedRefreshServerNames ==>
                || IsForceKept(nodeName)
                || (r.Ok? && old(clock.now) <= forcedRefreshServerNames[nodeName] <= clock.now)
      ensures timeout > 0 && r.Err? && (nodeName == "" || !old(HasForced(nodeName, op.lookedUp))) ==> m.None?
    {
      var err, force;
      err, force, op := ForceSync(nodeName);
      if err.Some? {
        return Err(err.value), op;
      }
      if force && nodeName != "" {
        ghost var recorded := RecordForcedRefresh(nodeName);
        op := op.(recorded := recorded);
      }
      return Ok(l), op;
    }

    /** Drops the list unless the name did so already, and loads it when it is missing or expired. */
    method ForceSync(nodeName: string) returns (err: Option<RobotError>, force: bool, ghost op: Op)
      requires Valid()
      modifies this, clock, robotClient
      ensures Valid() && (l == old(l) || fresh(l))
      ensures op.ForceRefresh? && op.name == nodeName && op.recorded == op.answered && WellTimed(op)
      ensures old(clock.now) <= Start(op) && End(op) <= clock.now
      ensures force <==> Forces(old(Value()), timeout, nodeName, op.lookedUp)
      ensures err.Some? <==> AsksAndFails(old(Value()), timeout, op)
      ensures force && err.None? ==> op.answer.Lists?
      ensures Value() == var c1 := Prepared(old(Value()), timeout, op);
                         if AsksAndLoads(old(Value()), timeout, op)
                         then Loaded(c1, op.answer.servers, IndexOf(op.answer.servers), op.answered) else c1
      ensures robotClient.calls == old(robotClient.calls) + (if Asks(old(Value()), timeout, op) then 1 else 0)
      ensures robotClient.failures == old(robotClient.failures) + (if err.Some? then 1 else 0)
      ensures robotClient.calls == old(robotClient.calls) ==> l == old(l)
      ensures timeout > 0 ==>
                (robotClient.calls > old(robotClient.calls) <==>
                 || nodeName == "" || !old(HasForced(nodeName, op.lookedUp))
                 || old(m).None? || op.checked > old(lastUpdate) + timeout)
      ensures OtherForcesAreKept(nodeName)
      ensures !force && nodeName != "" ==> nodeName in forcedRefreshServerNames
      ensures nodeName in forcedRefreshServerNames ==> IsForceKept(nodeName)
      ensures timeout > 0 && err.Some? && (nodeName == "" || !old(HasForced(nodeName, op.lookedUp))) ==> m.None?
    {
      ghost var c := Value();
      ghost var lookedUp;
      force, lookedUp := DropListUnlessForced(nodeName);
      ghost var prepared := Value();
      ghost var checked, answer, answered;
      err, checked, answer, answered := SyncIfNeeded();
      op := ForceRefresh(nodeName, lookedUp, checked, answer, answered, answered);
      assert prepared == Prepared(c, timeout, op);
    }

    /** Drops the cached list, so that the next sync calls the Robot API, unless the name did so already. */
    method DropListUnlessForced(nodeName: string) returns (force: bool, ghost lookedUp: int)
      requires Valid()
      modifies this`m, this`forcedRefreshServerNames, this`forced, clock
      ensures Valid() && old(clock.now) <= lookedUp == clock.now
      ensures force <==> Forces(old(Value()), timeout, nodeName, lookedUp)
      ensures Value() == if !force then old(Value())
                         else if nodeName == "" then old(Value()).(index := None)
                         else old(Value()).(index := None, forced := old(Value()).forced - {nodeName})
    {
      force, lookedUp := nodeName == "", clock.now;
      if !force {
        var already;
        already, lookedUp := NodeHasAlreadyForcedRefresh(nodeName);
        force := !already;
      }
      if force {
        m := None;
      }
    }

    method RecordForcedRefresh(nodeName: string) returns (ghost recorded: int)
      requires Valid()
      modifies this`forcedRefreshServerNames, this`forced, clock
      ensures Valid() && old(clock.now) <= recorded == clock.now
      ensures Value() == old(Value()).(forced := old(Value()).forced[nodeName := Forced(recorded, serial, epoch)])
    {
      var now := clock.Read();
      forcedRefreshServerNames := forcedRefreshServerNames[nodeName := now];
      forced := forced[nodeName := Forced(now, serial, epoch)];
      recorded := now;
    }

    method SetCredentials(username: string, password: string) returns (err: Option<RobotError>, ghost op: Op)
      requires Valid()
      modifies this, clock, robotClient
      ensures op.SetCredentials? && Performs(op)
      ensures op.accepted <==> err.None?
      ensures if err.None? then m.None? && forcedRefreshServerNames == map[]
              else m == old(m) && forcedRefreshServerNames == old(forcedRefreshServerNames)
    {
      err := robotClient.SetCredentials(username, password);
      op := RobotCache.Op.SetCredentials(clock.now, err.None?);
      NextIsCoherent(Value(), timeout, op);
      if err.Some? {
        return;
      }
      m := None;
      forcedRefreshServerNames := map[];
      forced, epoch := map[], epoch + 1;
    }

    /** Loads the list when it is missing or expired. */
    method SyncIfNeeded()
      returns (err: Option<RobotError>, ghost checked: int, ghost answer: Answer, ghost answered: int)
      requires Valid()
      modifies this, clock, robotClient
      ensures Valid() && forced == old(forced) && forcedRefreshServerNames == old(forcedRefreshServerNames)
      ensures old(clock.now) <= checked <= answered <= clock.now
      ensures err.Some? <==> ShouldSync(old(Value()), timeout, checked) && answer.Fails?
      ensures Value() == if ShouldSync(old(Value()), timeout, checked) && answer.Lists?
                         then Loaded(old(Value()), answer.servers, IndexOf(answer.servers), answered)
                         else old(Value())
      ensures !ShouldSync(old(Value()), timeout, checked) ==> answer.Lists?
      ensures l == old(l) || fresh(l)
      ensures robotClient.calls == old(robotClient.calls) ==> l == old(l)
      ensures robotClient.calls
              == old(robotClient.calls) + (if ShouldSync(old(Value()), timeout, checked) then 1 else 0)
      ensures robotClient.failures == old(robotClient.failures) + (if err.Some? then 1 else 0)
    {
      var should;
      should, checked := ShouldSyncNow();
      err, answer, answered := None, Lists([]), clock.now;
      if should {
        err, answer, answered := LoadList();
      }
    }

    /** Asks Robot for the list, and replaces list and index by what it answers. */
    method LoadList() returns (err: Option<RobotError>, ghost answer: Answer, ghost answered: int)
      requires Valid()
      modifies this, clock, robotClient
      ensures Valid() && forced == old(forced) && forcedRefreshServerNames == old(forcedRefreshServerNames)
      ensures old(clock.now) <= answered <= clock.now
      ensures err.Some? <==> answer.Fails?
      ensures Value() == if answer.Lists?
                         then Loaded(old(Value()), answer.servers, IndexOf(answer.servers), answered) else old(Value())
      ensures l == old(l) || fresh(l)
      ensures robotClient.calls == old(robotClient.calls) + 1
      ensures robotClient.failures == old(robotClient.failures) + (if err.Some? then 1 else 0)
    {
      answered := clock.now;
      var list := robotClient.ServerGetList();
      if list.Err? {
        return Some(list.error), Fails, answered;
      }
      var servers := list.value;
      var index := BuildIndex(servers);
      Install(servers, index);
      return None, Lists(servers[..]), lastUpdate;
    }

    /** Replaces list and index, and dates them. */
    method Install(servers: array<RobotServer>, index: map<int, ServerRef>)
      requires Valid() && Pointees(servers[..], index) == IndexOf(servers[..])
      requires forall id <- index :: index[id].list == servers && index[id].i < servers.Length
      modifies this, clock
      ensures Valid() && l == servers && old(clock.now) <= lastUpdate == clock.now
      ensures forced == old(forced) && forcedRefreshServerNames == old(forcedRefreshServerNames)
      ensures Value() == Loaded(old(Value()), servers[..], IndexOf(servers[..]), lastUpdate)
    {
      IndexRefinesScan(servers[..]);
      l := servers;
      m := Some(index);
      lastUpdate := clock.Read();
      serial, listEpoch := serial + 1, epoch;
    }

    /** Maps every number to the last entry with it. */
    static method BuildIndex(servers: array<RobotServer>) returns (index: map<int, ServerRef>)
      ensures index.Keys == IndexOf(servers[..]).Keys
      ensures forall id <- index :: index[id].list == servers && index[id].i < servers.Length
      ensures Pointees(servers[..], index) == IndexOf(servers[..])
    {
      index := map[];
      for i := 0 to servers.Length
        invariant index.Keys == IndexOf(servers[..i]).Keys
        invariant forall id <- index :: index[id].list == servers && index[id].i < servers.Length
        invariant forall id <- index :: servers[index[id].i] == IndexOf(servers[..i])[id]
      {
        assert servers[..i + 1][..i] == servers[..i];
        index := index[servers[i].number := ServerRef(servers, i)];
      }
      assert servers[..servers.Length] == servers[..];
      PointeesAre(servers[..], index, IndexOf(servers[..]));
    }

    method ShouldSyncNow() returns (should: bool, ghost checked: int)
      requires Valid()
      modifies clock
      ensures old(clock.now) <= checked == clock.now
      ensures should <==> ShouldSync(Value(), timeout, checked)
    {
      checked := clock.now;
      if m.None? {
        return true, checked;
      }
      var now := clock.Read();
      return now > lastUpdate + timeout, now;
    }

    /** Whether the name forced a refresh within the timeout; an expired entry is removed. */
    method NodeHasAlreadyForcedRefresh(nodeName: string) returns (already: bool, ghost lookedUp: int)
      requires Valid()
      modifies this`forcedRefreshServerNames, this`forced, clock
      ensures old(clock.now) <= lookedUp == clock.now
      ensures already <==> AlreadyForced(old(Value()), timeout, nodeName, lookedUp)
      ensures timeout > 0 ==> (already <==> old(HasForced(nodeName, lookedUp)))
      ensures Valid()
      ensures Value() == if already then old(Value())
                         else old(Value()).(forced := old(Value()).forced - {nodeName})
    {
      lookedUp := clock.now;
      if nodeName !in forcedRefreshServerNames {
        assert forced - {nodeName} == forced;
        return false, lookedUp;
      }
      var now := clock.Read();
      lookedUp := now;
      var forceRefreshTimeout := if timeout == 0 then DEFAULT_TIMEOUT else timeout;
      if now > forcedRefreshServerNames[nodeName] + forceRefreshTimeout {
        forcedRefreshServerNames := forcedRefreshServerNames - {nodeName};
        forced := forced - {nodeName};
        return false, lookedUp;
      }
      return true, lookedUp;
    }
  }

  // ---------- Looking up a node by name ----------

  datatype LookupError = MissingCredentials | RateLimited | Failed(error: RobotError)

  method FindNamed(list: array<RobotServer>, name: string) returns (found: Option<ServerRef>)
    ensures found.None? ==> forall s <- list[..] :: s.name != name
    ensures found.Some? ==> found.value.list == list && found.value.i < list.Length
                            && list[found.value.i].name == name
                            && forall j :: 0 <= j < found.value.i ==> list[j].name != name
  {
    for i := 0 to list.Length
      invariant forall j :: 0 <= j < i ==> list[j].name != name
    {
      if list[i].name == name {
        return Some(ServerRef(list, i));
      }
    }
    return None;
  }

  /** A server that was found is in the current list, and that list belongs to the current credentials. */
  ghost predicate IsFoundIn(client: CacheRobotClient, found: ServerRef, name: string)
    reads client, client.l
  {
    found.list == client.l && found.i < client.l.Length && client.l[found.i].name == name
    && (forall j :: 0 <= j < found.i ==> client.l[j].name != name)
    && client.listEpoch == client.epoch
  }

  /** A denial: the current list does not have the name, and may deny it. */
  ghost predicate IsDeniedBy(client: CacheRobotClient, start: Cache, ops: seq<Op>, name: string)
    reads client, client.l
  {
    && |ops| == 2 && ops[1].ForceRefresh?
    && (forall s <- client.l[..] :: s.name != name)
    && DenialIsJustified(start, client.Value(), client.timeout, name, ops[1].lookedUp)
  }

  /** A lookup in the cached list, and for a missing name one in a list that was forced for that name. */
  method GetRobotServerByName(client: CacheRobotClient?, rateLimited: bool, name: string)
    returns (r: Result<Option<ServerRef>, LookupError>, ghost ops: seq<Op>)
    requires client != null ==> client.Valid()
    modifies client, if client == null then {} else {client.clock, client.robotClient}
    ensures client == null <==> r == Err(MissingCredentials)
    ensures client != null ==> (rateLimited <==> r == Err(RateLimited))
    ensures client != null ==> client.Valid() && client.Value() == After(old(client.Value()), client.timeout, ops)
    ensures |ops| <= 2 && (client == null || rateLimited ==> ops == [])
    ensures client != null ==>
              InOrder(ops) && forall op <- ops :: old(client.clock.now) <= Start(op) && End(op) <= client.clock.now
    ensures r.Ok? && r.value.Some? ==> IsFoundIn(client, r.value.value, name)
    ensures r == Ok(None) ==> IsDeniedBy(client, old(client.Value()), ops, name)
    ensures client != null && !rateLimited && client.timeout > 0 ==>
              AsksForMissing(client, name, r == Ok(None), if r == Ok(None) then ops[1].lookedUp else 0)
    ensures client != null && r.Err? && r.error.Failed? ==>
              client.robotClient.failures > old(client.robotClient.failures)
  {
    if client == null {
      return Err(MissingCredentials), [];
    }
    if rateLimited {
      return Err(RateLimited), [];
    }
    r, ops := FindByName(client, name);
  }

  /**
   * What a lookup promises about its calls: without one, a name is denied only within the timeout after
   * it forced a refresh; and a missing name that did not do so makes the lookup call.
   */
  twostate predicate AsksForMissing(client: CacheRobotClient, name: string, denied: bool, lookedUp: int)
    reads client, client.l, client.clock, client.robotClient
  {
    var asked := client.robotClient.calls > old(client.robotClient.calls);
    && (denied && !asked ==> old(client.HasForced(name, lookedUp)) && client.l == old(client.l))
    && (old(client.MayAsk(name)) ==> asked)
  }

  method FindByName(client: CacheRobotClient, name: string)
    returns (r: Result<Option<ServerRef>, LookupError>, ghost ops: seq<Op>)
    requires client.Valid()
    modifies client, client.clock, client.robotClient
    ensures client.Valid() && client.Value() == After(old(client.Value()), client.timeout, ops)
    ensures |ops| <= 2 && InOrder(ops)
    ensures forall op <- ops :: old(client.clock.now) <= Start(op) && End(op) <= client.clock.now
    ensures r.Ok? && r.value.Some? ==> IsFoundIn(client, r.value.value, name)
    ensures r == Ok(None) ==> IsDeniedBy(client, old(client.Value()), ops, name)
    ensures client.timeout > 0 ==>
              AsksForMissing(client, name, r == Ok(None), if r == Ok(None) then ops[1].lookedUp else 0)
    ensures r.Err? ==> r.error.Failed? && client.robotClient.failures > old(client.robotClient.failures)
  {
    ghost var c0 := client.Value();
    var first;
    ghost var op1;
    first, op1 := client.ServerGetList();
    ghost var c1 := client.Value();
    ops := [op1];
    assert ops[..0] == [];
    if first.Err? {
      return Err(Failed(first.error)), ops;
    }
    AnswerIsFresh(c0, client.timeout, op1);
    var found := FindNamed(first.value, name);
    if found.Some? {
      return Ok(found), ops;
    }
    // The name may have changed since the list was loaded.
    ghost var op2;
    r, op2 := FindAfterRefresh(client, name);
    ops := [op1, op2];
    assert ops[..1] == [op1];
    assert After(c0, client.timeout, [op1]) == c1;
    if r == Ok(None) {
      TwoStageLookupIsJustified(c0, client.timeout, op1, op2);
    }
  }

  /** Looks in a list that was forced for the name. */
  method FindAfterRefresh(client: CacheRobotClient, name: string)
    returns (r: Result<Option<ServerRef>, LookupError>, ghost op: Op)
    requires client.Valid()
    modifies client, client.clock, client.robotClient
    ensures op.ForceRefresh? && op.name == name && client.Performs(op)
    ensures r.Ok? <==> Answers(old(client.Value()), client.timeout, op)
    ensures r.Ok? && r.value.Some? ==> IsFoundIn(client, r.value.value, name)
    ensures r == Ok(None) ==> forall s <- client.l[..] :: s.name != name
    ensures client.robotClient.calls == old(client.robotClient.calls) ==> client.l == old(client.l)
    ensures client.timeout > 0 && !old(client.HasForced(name, op.lookedUp)) ==>
              client.robotClient.calls > old(client.robotClient.calls)
    ensures r.Err? ==> r.error.Failed? && client.robotClient.failures > old(client.robotClient.failures)
  {
    ghost var c := client.Value();
    var list;
    list, op := client.ServerGetListForceRefresh(name);
    if list.Err? {
      return Err(Failed(list.error)), op;
    }
    AnswerIsFresh(c, client.timeout, op);
    var found := FindNamed(list.value, name);
    return Ok(found), op;
  }
}

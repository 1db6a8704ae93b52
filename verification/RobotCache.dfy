/**
 * The state machine of the Robot client cache (internal/robot/client/cache/client.go) on values:
 * what each operation does to the cache, given the clock readings it took and what Robot answered.
 */
module RobotCache {
  import opened Basics

  /** A dedicated server as the Robot API reports it. */
  datatype RobotServer = RobotServer(number: int, name: string, ip: string, ipv6Net: string)

  datatype RobotError = ServerNotFound | ApiError

  /** Five minutes, in nanoseconds. */
  const DEFAULT_TIMEOUT := 300_000_000_000

  // ---------- State ----------

  /** When a name last forced a refresh, and which load and which credentials that refresh used. */
  datatype Forced = Forced(at: int, serial: nat, epoch: nat)

  /**
   * The fields of the cache, and three numbers that only the proofs look at: `epoch` counts the
   * successful changes of credentials, `serial` the successful loads, and `listEpoch` is the epoch
   * of the last load.
   */
  datatype Cache = Cache(
    list: seq<RobotServer>,
    index: Option<map<int, RobotServer>>,
    lastUpdate: int,
    forced: map<string, Forced>,
    epoch: nat,
    serial: nat,
    listEpoch: nat)

  /** A linear scan for the last server with a number. */
  function LastWithNumber(list: seq<RobotServer>, number: int): Option<RobotServer> {
    if list == [] then None
    else if list[|list| - 1].number == number then Some(list[|list| - 1])
    else LastWithNumber(list[..|list| - 1], number)
  }

  /** The index answers every lookup as the scan does. */
  ghost predicate IsIndexOf(index: map<int, RobotServer>, list: seq<RobotServer>) {
    forall id :: (if id in index then Some(index[id]) else None) == LastWithNumber(list, id)
  }

  ghost predicate IsLastWithNumber(list: seq<RobotServer>, k: nat, number: int) {
    k < |list| && list[k].number == number && forall j :: k < j < |list| ==> list[j].number != number
  }

  /** The scan finds the last server with the number. */
  lemma {:induction false} LastWithNumberIs(list: seq<RobotServer>, number: int) returns (k: nat)
    ensures k <= |list|
    ensures if k < |list| then IsLastWithNumber(list, k, number) && LastWithNumber(list, number) == Some(list[k])
            else LastWithNumber(list, number).None? && forall s <- list :: s.number != number
  {
    k := |list|;
    if list != [] {
      var init, last := list[..|list| - 1], list[|list| - 1];
      assert list == init + [last];
      if last.number == number {
        k := |list| - 1;
      } else {
        k := LastWithNumberIs(init, number);
        k := if k < |init| then k else |list|;
      }
    }
  }

  /** What holds in every reachable state. */
  ghost predicate Coherent(c: Cache) {
    && (c.index.Some? ==> IsIndexOf(c.index.value, c.list) && c.listEpoch == c.epoch)
    && (forall n <- c.forced :: c.forced[n].serial <= c.serial && c.forced[n].epoch == c.epoch)
  }

  const EMPTY_CACHE := Cache([], None, 0, map[], 0, 0, 0)

  // ---------- Operations ----------

  /** What Robot answers, if it is asked. */
  datatype Answer = Fails | Lists(servers: seq<RobotServer>)

  /**
   * A call, with the clock readings it took in order: for the forced-refresh entry, for the expiry
   * of the list, when Robot answered, and for a new forced-refresh entry.
   */
  datatype Op =
    | Read(checked: int, answer: Answer, answered: int)
    | ForceRefresh(name: string, lookedUp: int, checked: int, answer: Answer, answered: int, recorded: int)
    | SetCredentials(at: int, accepted: bool)

  function Start(op: Op): int {
    match op
    case Read(checked, _, _) => checked
    case ForceRefresh(_, lookedUp, _, _, _, _) => lookedUp
    case SetCredentials(at, _) => at
  }

  function End(op: Op): int {
    match op
    case Read(_, _, answered) => answered
    case ForceRefresh(_, _, _, _, _, recorded) => recorded
    case SetCredentials(at, _) => at
  }

  predicate WellTimed(op: Op) {
    match op
    case Read(checked, _, answered) => checked <= answered
    case ForceRefresh(_, lookedUp, checked, _, answered, recorded) => lookedUp <= checked <= answered <= recorded
    case SetCredentials(_, _) => true
  }

  function ForceTimeout(timeout: int): int {
    if timeout == 0 then DEFAULT_TIMEOUT else timeout
  }

  /** `shouldSync`. */
  predicate ShouldSync(c: Cache, timeout: int, checked: int) {
    c.index.None? || checked > c.lastUpdate + timeout
  }

  /** `nodeHasAlreadyForcedRefresh`, without its clean-up of an expired entry. */
  predicate AlreadyForced(c: Cache, timeout: int, name: string, lookedUp: int) {
    name in c.forced && lookedUp <= c.forced[name].at + ForceTimeout(timeout)
  }

  predicate Forces(c: Cache, timeout: int, name: string, lookedUp: int) {
    name == "" || !AlreadyForced(c, timeout, name, lookedUp)
  }

  /** The cache as the expiry check of a call sees it. */
  function Prepared(c: Cache, timeout: int, op: Op): Cache {
    match op
    case ForceRefresh(name, lookedUp, _, _, _, _) =>
      if !Forces(c, timeout, name, lookedUp) then c
      else if name == "" then c.(index := None)
      else c.(index := None, forced := c.forced - {name})
    case _ => c
  }

  /** Whether the call asks Robot for the list. */
  predicate Asks(c: Cache, timeout: int, op: Op) {
    !op.SetCredentials? && ShouldSync(Prepared(c, timeout, op), timeout, op.checked)
  }

  predicate AsksAndLoads(c: Cache, timeout: int, op: Op) {
    Asks(c, timeout, op) && op.answer.Lists?
  }

  predicate AsksAndFails(c: Cache, timeout: int, op: Op) {
    Asks(c, timeout, op) && op.answer.Fails?
  }

  /** `syncIfNeeded` when Robot answered with a list. */
  function Loaded(c: Cache, servers: seq<RobotServer>, index: map<int, RobotServer>, answered: int): Cache {
    c.(list := servers, index := Some(index), lastUpdate := answered, serial := c.serial + 1, listEpoch := c.epoch)
  }

  function IndexOf(list: seq<RobotServer>): map<int, RobotServer> {
    if list == [] then map[]
    else IndexOf(list[..|list| - 1])[list[|list| - 1].number := list[|list| - 1]]
  }

  function Next(c: Cache, timeout: int, op: Op): Cache {
    match op
    case SetCredentials(_, accepted) =>
      if accepted then c.(index := None, forced := map[], epoch := c.epoch + 1) else c
    case _ =>
      var c1 := Prepared(c, timeout, op);
      var c2 := if AsksAndLoads(c, timeout, op)
                then Loaded(c1, op.answer.servers, IndexOf(op.answer.servers), op.answered) else c1;
      if op.ForceRefresh? && op.name != "" && Forces(c, timeout, op.name, op.lookedUp) && op.answer.Lists?
      then c2.(forced := c2.forced[op.name := Forced(op.recorded, c2.serial, c2.epoch)])
      else c2
  }

  /** The call hands out the list, and is not an error. */
  predicate Answers(c: Cache, timeout: int, op: Op) {
    !op.SetCredentials? && !AsksAndFails(c, timeout, op)
  }

  // ---------- Coherence ----------

  lemma {:induction false} IndexRefinesScan(list: seq<RobotServer>)
    ensures IsIndexOf(IndexOf(list), list)
  {
    if list != [] {
      IndexRefinesScan(list[..|list| - 1]);
      forall id
        ensures (if id in IndexOf(list) then Some(IndexOf(list)[id]) else None) == LastWithNumber(list, id)
      {
        var init := list[..|list| - 1];
        assert (if id in IndexOf(init) then Some(IndexOf(init)[id]) else None) == LastWithNumber(init, id);
      }
    }
  }

  lemma NextIsCoherent(c: Cache, timeout: int, op: Op)
    requires Coherent(c)
    ensures Coherent(Next(c, timeout, op))
  {
    if !op.SetCredentials? && op.answer.Lists? {
      IndexRefinesScan(op.answer.servers);
    }
  }

  /** Every answer comes from a list that the current credentials loaded and that is not past the timeout. */
  lemma AnswerIsFresh(c: Cache, timeout: int, op: Op)
    requires Coherent(c) && Answers(c, timeout, op)
    ensures var c' := Next(c, timeout, op);
            && c'.index.Some? && IsIndexOf(c'.index.value, c'.list)
            && c'.listEpoch == c'.epoch == c.epoch
            && (if Asks(c, timeout, op)
                then c'.serial == c.serial + 1 && op.answer == Lists(c'.list) && c'.lastUpdate == op.answered
                else c'.serial == c.serial && c'.list == c.list && op.checked <= c'.lastUpdate + timeout)
  {
    NextIsCoherent(c, timeout, op);
  }

  /**
   * The current list may deny a server name to a caller that started at `start`: it was loaded since,
   * or no earlier than a forced refresh for that very name that was within the timeout at `at` and
   * used the credentials that are still current.
   */
  predicate DenialIsJustified(start: Cache, now: Cache, timeout: int, name: string, at: int) {
    && now.listEpoch == now.epoch
    && (|| now.serial > start.serial
        || (&& name in now.forced
            && now.forced[name].serial <= now.serial
            && now.forced[name].epoch == now.epoch
            && at <= now.forced[name].at + ForceTimeout(timeout)))
  }

  /** After a plain read and a forced refresh for the name, a denial is always justified. */
  lemma TwoStageLookupIsJustified(c: Cache, timeout: int, op1: Op, op2: Op)
    requires Coherent(c) && op1.Read? && op2.ForceRefresh?
    requires Answers(c, timeout, op1) && Answers(Next(c, timeout, op1), timeout, op2)
    ensures DenialIsJustified(c, Next(Next(c, timeout, op1), timeout, op2), timeout, op2.name, op2.lookedUp)
  {
    var c1 := Next(c, timeout, op1);
    NextIsCoherent(c, timeout, op1);
    NextIsCoherent(c1, timeout, op2);
  }

  // ---------- Runs ----------

  function After(c: Cache, timeout: int, ops: seq<Op>): Cache {
    if ops == [] then c else Next(After(c, timeout, ops[..|ops| - 1]), timeout, ops[|ops| - 1])
  }

  /** The calls run one after another, and the clock never goes back. */
  predicate InOrder(ops: seq<Op>) {
    && (forall i :: 0 <= i < |ops| ==> WellTimed(ops[i]))
    && (forall i, j :: 0 <= i < j < |ops| ==> End(ops[i]) <= Start(ops[j]))
  }

  lemma {:induction false} RunIsCoherent(c: Cache, timeout: int, ops: seq<Op>)
    requires Coherent(c)
    ensures Coherent(After(c, timeout, ops))
  {
    if ops != [] {
      RunIsCoherent(c, timeout, ops[..|ops| - 1]);
      NextIsCoherent(After(c, timeout, ops[..|ops| - 1]), timeout, ops[|ops| - 1]);
    }
  }

  // ---------- The budget of Robot calls ----------

  /** A closed window that is as long as the timeout of the cache. */
  predicate InWindow(from: int, timeout: int, t: int) {
    from <= t <= from + timeout
  }

  /** What the calls of a run did inside a window. */
  datatype Tally = Tally(loads: nat, failures: nat, credentialChanges: nat, unnamedForces: nat)

  function TallyOf(c: Cache, timeout: int, from: int, op: Op): Tally {
    match op
    case SetCredentials(at, accepted) => Tally(0, 0, if accepted && InWindow(from, timeout, at) then 1 else 0, 0)
    case _ =>
      if !InWindow(from, timeout, op.answered) then Tally(0, 0, 0, 0)
      else Tally(
        if AsksAndLoads(c, timeout, op) then 1 else 0,
        if AsksAndFails(c, timeout, op) then 1 else 0,
        0,
        if IsUnnamedForce(op) then 1 else 0)
  }

  /** A forced refresh without a node name always asks Robot. */
  predicate IsUnnamedForce(op: Op) {
    match op
    case ForceRefresh(name, _, _, _, _, _) => name == ""
    case _ => false
  }

  /** A forced refresh that the per-name suppression applies to. */
  predicate IsNamedForce(op: Op) {
    match op
    case ForceRefresh(name, _, _, _, _, _) => name != ""
    case _ => false
  }

  function Plus(a: Tally, b: Tally): Tally {
    Tally(a.loads + b.loads, a.failures + b.failures,
          a.credentialChanges + b.credentialChanges, a.unnamedForces + b.unnamedForces)
  }

  function Total(c: Cache, timeout: int, from: int, ops: seq<Op>): Tally {
    if ops == [] then Tally(0, 0, 0, 0)
    else
      var init := ops[..|ops| - 1];
      Plus(Total(c, timeout, from, init), TallyOf(After(c, timeout, init), timeout, from, ops[|ops| - 1]))
  }

  /** `names` covers the non-empty names that force a refresh in the window. */
  predicate CoversForced(names: set<string>, timeout: int, from: int, ops: seq<Op>) {
    forall i :: 0 <= i < |ops| && IsNamedForce(ops[i]) && InWindow(from, timeout, ops[i].answered) ==>
                  ops[i].name in names
  }

  /** The names whose forced refresh was recorded in the window. */
  ghost function UsedUp(c: Cache, from: int, names: set<string>): set<string> {
    set n | n in names && n in c.forced && c.forced[n].at >= from
  }

  /** One when the cached list was loaded in the window. */
  ghost function HasList(c: Cache, from: int): nat {
    if c.index.Some? && c.lastUpdate >= from then 1 else 0
  }

  /** What the loads of a run so far are paid from, while the window is open. */
  ghost predicate WithinCredit(c: Cache, timeout: int, from: int, names: set<string>, t: Tally) {
    t.loads <= t.credentialChanges * (1 + |names|) + |UsedUp(c, from, names)| + HasList(c, from)
               + t.unnamedForces + t.failures
  }

  ghost predicate WithinBudget(names: set<string>, t: Tally) {
    t.loads <= (1 + t.credentialChanges) * (1 + |names|) + t.unnamedForces + t.failures
  }

  /** Before the window nothing is counted, inside it the credit holds, after it the budget. */
  ghost predicate Accounted(c: Cache, timeout: int, from: int, names: set<string>, now: int, t: Tally) {
    if now < from then t.loads == 0
    else if now <= from + timeout then WithinCredit(c, timeout, from, names, t)
    else WithinBudget(names, t)
  }

  lemma {:induction false} SubsetSize<T>(a: set<T>, b: set<T>)
    requires a <= b
    ensures |a| <= |b|
  {
    if a != {} {
      var x :| x in a;
      SubsetSize(a - {x}, b - {x});
    }
  }

  /** Credit never exceeds the budget. */
  lemma CreditWithinBudget(c: Cache, timeout: int, from: int, names: set<string>, t: Tally)
    requires WithinCredit(c, timeout, from, names, t)
    ensures WithinBudget(names, t)
  {
    SubsetSize(UsedUp(c, from, names), names);
    ProductIsNat(t.credentialChanges, 1 + |names|);
  }

  /** A list that was loaded in the window does not expire in it, and a name does not force twice in it. */
  lemma LoadInWindowIsPaid(c: Cache, timeout: int, from: int, names: set<string>, op: Op)
    requires WellTimed(op) && AsksAndLoads(c, timeout, op) && InWindow(from, timeout, op.answered)
    requires IsNamedForce(op) ==> op.name in names
    ensures IsNamedForce(op) && Forces(c, timeout, op.name, op.lookedUp) ==>
              op.name !in UsedUp(c, from, names)
    ensures !(op.ForceRefresh? && Forces(c, timeout, op.name, op.lookedUp)) ==> HasList(c, from) == 0
  {
  }

  lemma CreditStep(c: Cache, timeout: int, from: int, names: set<string>, t: Tally, op: Op)
    requires WithinCredit(c, timeout, from, names, t)
    requires WellTimed(op) && from <= Start(op) && End(op) <= from + timeout
    requires IsNamedForce(op) ==> op.name in names
    ensures WithinCredit(Next(c, timeout, op), timeout, from, names, Plus(t, TallyOf(c, timeout, from, op)))
  {
    var c' := Next(c, timeout, op);
    var used, used' := UsedUp(c, from, names), UsedUp(c', from, names);
    match op {
      case SetCredentials(_, accepted) =>
        if accepted {
          SubsetSize(used, names);
          assert used' == {};
          ProductIsNat(t.credentialChanges, 1 + |names|);
        }
      case Read(_, _, _) =>
        assert used' == used;
      case ForceRefresh(_, _, _, _, _, _) =>
        UsedUpAfterForce(c, timeout, from, names, op);
    }
  }

  /** A recorded refresh uses up one more name; otherwise no name is used up, and none comes back. */
  lemma UsedUpAfterForce(c: Cache, timeout: int, from: int, names: set<string>, op: Op)
    requires op.ForceRefresh? && WellTimed(op) && from <= Start(op) && End(op) <= from + timeout
    requires op.name != "" ==> op.name in names
    ensures var recorded := op.name != "" && Forces(c, timeout, op.name, op.lookedUp) && op.answer.Lists?;
            |UsedUp(Next(c, timeout, op), from, names)| == |UsedUp(c, from, names)| + if recorded then 1 else 0
  {
    var used, used' := UsedUp(c, from, names), UsedUp(Next(c, timeout, op), from, names);
    if op.name != "" && Forces(c, timeout, op.name, op.lookedUp) {
      assert op.name !in used;
      assert used' == if op.answer.Lists? then used + {op.name} else used;
    } else {
      assert used' == used;
    }
  }

  lemma AccountedStep(c: Cache, timeout: int, from: int, names: set<string>, now: int, t: Tally, op: Op)
    requires Accounted(c, timeout, from, names, now, t)
    requires WellTimed(op) && now <= Start(op)
    requires IsNamedForce(op) && InWindow(from, timeout, op.answered) ==> op.name in names
    ensures Accounted(Next(c, timeout, op), timeout, from, names, End(op), Plus(t, TallyOf(c, timeout, from, op)))
  {
    if now < from {
      StepFromBefore(c, timeout, from, names, t, op);
    } else if now > from + timeout {
      assert TallyOf(c, timeout, from, op) == Tally(0, 0, 0, 0);
    } else if End(op) <= from + timeout {
      CreditStep(c, timeout, from, names, t, op);
    } else {
      StepOutOfWindow(c, timeout, from, names, t, op);
    }
  }

  /** Before the window nothing was loaded in it; one call loads at most once. */
  lemma StepFromBefore(c: Cache, timeout: int, from: int, names: set<string>, t: Tally, op: Op)
    requires t.loads == 0 && WellTimed(op)
    ensures var t' := Plus(t, TallyOf(c, timeout, from, op));
            && (End(op) < from ==> t'.loads == 0)
            && (from <= End(op) <= from + timeout ==> WithinCredit(Next(c, timeout, op), timeout, from, names, t'))
            && (End(op) > from + timeout ==> WithinBudget(names, t'))
  {
    var t' := Plus(t, TallyOf(c, timeout, from, op));
    ProductIsNat(t'.credentialChanges, 1 + |names|);
    assert t'.loads == 1 ==> HasList(Next(c, timeout, op), from) == 1;
  }

  lemma ProductIsNat(k: nat, n: nat)
    ensures k * n >= 0 && (1 + k) * n == k * n + n
  {
  }

  /** The last call of a window may end after it. */
  lemma StepOutOfWindow(c: Cache, timeout: int, from: int, names: set<string>, t: Tally, op: Op)
    requires WithinCredit(c, timeout, from, names, t)
    requires WellTimed(op) && from <= Start(op) && End(op) > from + timeout
    requires IsNamedForce(op) && InWindow(from, timeout, op.answered) ==> op.name in names
    ensures WithinBudget(names, Plus(t, TallyOf(c, timeout, from, op)))
  {
    var tally := TallyOf(c, timeout, from, op);
    CreditWithinBudget(c, timeout, from, names, t);
    if tally.loads == 1 {
      // The same call, ending when Robot answered, stays inside the window.
      LoadInWindowIsPaid(c, timeout, from, names, op);
      SubsetSize(UsedUp(c, from, names), names);
      if IsNamedForce(op) && Forces(c, timeout, op.name, op.lookedUp) {
        SubsetSize(UsedUp(c, from, names) + {op.name}, names);
      }
      ProductIsNat(t.credentialChanges, 1 + |names|);
    }
  }

  function LastEnd(start: int, ops: seq<Op>): int {
    if ops == [] then start else End(ops[|ops| - 1])
  }

  lemma {:induction false} RunIsAccounted(
    c: Cache, timeout: int, from: int, names: set<string>, start: int, ops: seq<Op>)
    requires InOrder(ops) && (forall i :: 0 <= i < |ops| ==> start <= Start(ops[i]))
    requires CoversForced(names, timeout, from, ops)
    ensures Accounted(After(c, timeout, ops), timeout, from, names, LastEnd(start, ops), Total(c, timeout, from, ops))
  {
    if ops != [] {
      var init, last := ops[..|ops| - 1], ops[|ops| - 1];
      RunIsAccounted(c, timeout, from, names, start, init);
      AccountedStep(After(c, timeout, init), timeout, from, names, LastEnd(start, init),
                    Total(c, timeout, from, init), last);
    }
  }

  /**
   * In any closed window as long as the timeout, whatever happened before, and under any sequence of
   * calls: with k changes of credentials and forced lookups of the names in N, Robot lists the
   * servers at most (1 + k)(1 + |N|) times, plus once for every failed call and for every forced
   * refresh without a name.
   */
  lemma RobotCallBudget(c: Cache, timeout: int, from: int, names: set<string>, ops: seq<Op>)
    requires InOrder(ops) && CoversForced(names, timeout, from, ops)
    ensures WithinBudget(names, Total(c, timeout, from, ops))
  {
    var start := if ops == [] then from else Start(ops[0]);
    forall i | 0 <= i < |ops|
      ensures start <= Start(ops[i])
    {
      StartBeforeEnd(ops[0]);
    }
    RunIsAccounted(c, timeout, from, names, start, ops);
    AccountIsWithinBudget(
      After(c, timeout, ops), timeout, from, names, LastEnd(start, ops), Total(c, timeout, from, ops));
  }

  lemma AccountIsWithinBudget(c: Cache, timeout: int, from: int, names: set<string>, now: int, t: Tally)
    requires Accounted(c, timeout, from, names, now, t)
    ensures WithinBudget(names, t)
  {
    if from <= now <= from + timeout {
      CreditWithinBudget(c, timeout, from, names, t);
    }
    ProductIsNat(t.credentialChanges, 1 + |names|);
  }

  lemma StartBeforeEnd(op: Op)
    requires WellTimed(op)
    ensures Start(op) <= End(op)
  {
  }
}

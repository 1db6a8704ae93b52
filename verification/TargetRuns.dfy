/**
 * Series of target changes on one load balancer: what every prefix of a run keeps, how far each
 * change brings it, and where complete runs end (internal/hcops/load_balancer.go, ReconcileHCLBTargets).
 */
module TargetRuns {
  import opened Basics
  import opened HCloud

  /**
   * What a run is after: targets that may stay, targets to add, and the number of targets at which
   * the load balancer is full, if it is known.
   */
  datatype Plan = Plan(lb: int, keep: set<Target>, add: set<Target>, cap: Option<nat>)

  /** The targets the controller looks after. */
  ghost function Own(targets: set<Target>): set<Target> {
    set t | t in targets && !t.LabelTarget?
  }

  ghost predicate ValidPlan(p: Plan) {
    Own(p.keep) == p.keep && Own(p.add) == p.add
  }

  predicate IsFull(p: Plan, targets: set<Target>) {
    p.cap.Some? && |targets| >= p.cap.value
  }

  // ---------- Runs ----------

  ghost function After(targets: set<Target>, run: seq<Call>): set<Target> {
    if run == [] then targets
    else
      var before := After(targets, run[..|run| - 1]);
      match run[|run| - 1].change
      case AddTarget(t) => before + {t}
      case RemoveTarget(t) => before - {t}
      case _ => before
  }

  predicate AllRemovals(run: seq<Call>) {
    forall c <- run :: c.change.RemoveTarget?
  }

  /** A change the controller may make after the changes `done` have led to `targets`. */
  ghost predicate LegalCall(p: Plan, targets: set<Target>, done: seq<Call>, c: Call) {
    c.lb == p.lb &&
    match c.change
    case RemoveTarget(t) => t in Own(targets) && t !in p.keep && AllRemovals(done)
    case AddTarget(t) => t in p.add && t !in targets && !IsFull(p, targets)
    case _ => false
  }

  /** Only unwanted targets are removed, only missing wanted ones are added, and all removals come first. */
  ghost predicate LegalRun(p: Plan, targets: set<Target>, run: seq<Call>) {
    run != [] ==>
      var init := run[..|run| - 1];
      LegalRun(p, targets, init) && LegalCall(p, After(targets, init), init, run[|run| - 1])
  }

  lemma ExtendRun(p: Plan, targets: set<Target>, run: seq<Call>, c: Call)
    requires LegalRun(p, targets, run) && LegalCall(p, After(targets, run), run, c)
    ensures LegalRun(p, targets, run + [c])
    ensures After(targets, run + [c]) ==
            match c.change
            case AddTarget(t) => After(targets, run) + {t}
            case RemoveTarget(t) => After(targets, run) - {t}
            case _ => After(targets, run)
  {
    assert (run + [c])[..|run|] == run;
  }

  lemma {:induction false} PrefixIsLegal(p: Plan, targets: set<Target>, run: seq<Call>, k: nat)
    requires LegalRun(p, targets, run) && k <= |run|
    ensures LegalRun(p, targets, run[..k])
  {
    if k < |run| {
      assert run[..|run| - 1][..k] == run[..k];
      PrefixIsLegal(p, targets, run[..|run| - 1], k);
    } else {
      assert run[..k] == run;
    }
  }

  // ---------- Safety at every prefix ----------

  ghost predicate Between(p: Plan, start: set<Target>, now: set<Target>) {
    && start * p.keep <= now
    && now <= start + p.add
    && start - Own(start) == now - Own(now)
    && (p.cap.Some? ==> |now| <= |start| || |now| <= p.cap.value)
  }

  /**
   * At every prefix of a run, also of one that fails later: wanted targets that were there stay, no
   * others than wanted ones come, label selectors are untouched, nothing is added to a full load
   * balancer, and so no addition takes it over its limit.
   */
  lemma PrefixSafety(p: Plan, targets: set<Target>, run: seq<Call>, k: nat)
    requires ValidPlan(p) && LegalRun(p, targets, run) && k <= |run|
    ensures Between(p, targets, After(targets, run[..k]))
    ensures k < |run| && run[k].change.AddTarget? ==> !IsFull(p, After(targets, run[..k]))
  {
    PrefixIsLegal(p, targets, run, k);
    RunIsSafe(p, targets, run[..k]);
    if k < |run| {
      PrefixIsLegal(p, targets, run, k + 1);
      assert run[..k + 1][..k] == run[..k];
    }
  }

  lemma {:induction false} RunIsSafe(p: Plan, targets: set<Target>, run: seq<Call>)
    requires ValidPlan(p) && LegalRun(p, targets, run)
    ensures Between(p, targets, After(targets, run))
  {
    if run != [] {
      var init, c := run[..|run| - 1], run[|run| - 1];
      RunIsSafe(p, targets, init);
      var before := After(targets, init);
      match c.change
      case AddTarget(t) =>
        assert t in Own(p.add);
        assert (before + {t}) - Own(before + {t}) == before - Own(before);
      case RemoveTarget(t) =>
        assert (before - {t}) - Own(before - {t}) == before - Own(before);
      case _ =>
    }
  }

  /** Removals come before additions. */
  lemma {:induction false} RemovalsFirst(p: Plan, targets: set<Target>, run: seq<Call>, i: nat, j: nat)
    requires LegalRun(p, targets, run) && i < j < |run| && run[j].change.RemoveTarget?
    ensures run[i].change.RemoveTarget?
  {
    if j < |run| - 1 {
      RemovalsFirst(p, targets, run[..|run| - 1], i, j);
    } else {
      assert run[i] in run[..j];
    }
  }

  // ---------- What a run asks for ----------

  /** An addition that the run asks for a second time. */
  ghost predicate IsRepeat(p: Plan, start: set<Target>, done: seq<Call>, c: Call) {
    c in done && c.change.AddTarget? && !IsFull(p, After(start, done))
  }

  /** The calls of a run, made or not: those of a legal run, and after them at most one repeated addition. */
  ghost predicate LegalRequests(p: Plan, start: set<Target>, asked: seq<Call>) {
    || LegalRun(p, start, asked)
    || (asked != [] &&
        var init := asked[..|asked| - 1];
        LegalRun(p, start, init) && IsRepeat(p, start, init, asked[|asked| - 1]))
  }

  lemma {:induction false} RunCallIsLegal(p: Plan, start: set<Target>, run: seq<Call>, k: nat)
    requires LegalRun(p, start, run) && k < |run|
    ensures LegalCall(p, After(start, run[..k]), run[..k], run[k])
  {
    PrefixIsLegal(p, start, run, k + 1);
    assert run[..k + 1][..k] == run[..k];
  }

  /**
   * Whatever a run asks for, made or not: a removal only of a target that is there and may not stay; an
   * addition only of a wanted target that was not there or may not stay, and never on a full load balancer.
   */
  lemma RequestsAreSafe(p: Plan, start: set<Target>, asked: seq<Call>, k: nat)
    requires ValidPlan(p) && LegalRequests(p, start, asked) && k < |asked|
    ensures asked[k].lb == p.lb
    ensures match asked[k].change
            case RemoveTarget(t) => t in Own(After(start, asked[..k])) && t !in p.keep
            case AddTarget(t) => t in p.add && t !in start * p.keep && !IsFull(p, After(start, asked[..k]))
            case _ => false
  {
    if LegalRun(p, start, asked) {
      RunCallIsLegal(p, start, asked, k);
      PrefixSafety(p, start, asked, k);
    } else {
      var init := asked[..|asked| - 1];
      var j := k;
      if k == |init| {
        j :| 0 <= j < |init| && init[j] == asked[k];
      } else {
        assert init[..k] == asked[..k];
      }
      RunCallIsLegal(p, start, init, j);
      PrefixSafety(p, start, init, j);
    }
  }

  // ---------- Progress ----------

  /** What is still to be done: targets to remove and targets to add. */
  ghost function Remaining(p: Plan, targets: set<Target>): nat {
    |Own(targets) - p.keep| + |p.add - targets|
  }

  /** When everything that is added may also stay, every accepted change leaves exactly one less to do. */
  lemma CallMakesProgress(p: Plan, targets: set<Target>, done: seq<Call>, c: Call)
    requires ValidPlan(p) && p.add <= p.keep && LegalCall(p, targets, done, c)
    ensures match c.change
            case AddTarget(t) => Remaining(p, targets + {t}) == Remaining(p, targets) - 1
            case RemoveTarget(t) => Remaining(p, targets - {t}) == Remaining(p, targets) - 1
            case _ => false
  {
    match c.change
    case AddTarget(t) =>
      assert Own(targets + {t}) - p.keep == Own(targets) - p.keep;
      assert p.add - (targets + {t}) == (p.add - targets) - {t};
    case RemoveTarget(t) =>
      assert Own(targets - {t}) - p.keep == (Own(targets) - p.keep) - {t};
      assert p.add - (targets - {t}) == p.add - targets;
  }

  lemma {:induction false} RunMakesProgress(p: Plan, targets: set<Target>, run: seq<Call>)
    requires ValidPlan(p) && p.add <= p.keep && LegalRun(p, targets, run)
    ensures |run| + Remaining(p, After(targets, run)) == Remaining(p, targets)
  {
    if run != [] {
      var init := run[..|run| - 1];
      RunMakesProgress(p, targets, init);
      CallMakesProgress(p, After(targets, init), init, run[|run| - 1]);
    }
  }

  /** With one set of wanted targets, what remains is the symmetric difference to the present ones. */
  lemma RemainingIsDifference(p: Plan, targets: set<Target>)
    requires ValidPlan(p) && p.keep == p.add
    ensures Remaining(p, targets) == |(Own(targets) - p.add) + (p.add - Own(targets))|
  {
    assert p.add - targets == p.add - Own(targets) by {
      assert forall t <- p.add :: t in Own(p.add);
    }
  }

  /** Runs one after another, each cut off anywhere; the next one starts where the last one stopped. */
  ghost predicate IsSeries(p: Plan, targets: set<Target>, runs: seq<seq<Call>>)
    decreases |runs|
  {
    runs != [] ==> LegalRun(p, targets, runs[0]) && IsSeries(p, After(targets, runs[0]), runs[1..])
  }

  ghost function SeriesLength(runs: seq<seq<Call>>): nat {
    if runs == [] then 0 else |runs[0]| + SeriesLength(runs[1..])
  }

  /** Over any series of runs with unchanged inputs there are at most as many changes as were to be made at first. */
  lemma {:induction false} SeriesIsBounded(p: Plan, targets: set<Target>, runs: seq<seq<Call>>)
    requires ValidPlan(p) && p.add <= p.keep && IsSeries(p, targets, runs)
    ensures SeriesLength(runs) <= Remaining(p, targets)
    decreases |runs|
  {
    if runs != [] {
      RunMakesProgress(p, targets, runs[0]);
      SeriesIsBounded(p, After(targets, runs[0]), runs[1..]);
    }
  }

  // ---------- Complete runs ----------

  /** Nothing is left to remove, and nothing to add or no room for it. */
  ghost predicate Finished(p: Plan, now: set<Target>) {
    Own(now) <= p.keep + p.add && (p.add <= now || IsFull(p, now))
  }

  /** Where a run ends that no call failed in and that did not hit the quota. */
  ghost predicate Complete(p: Plan, start: set<Target>, now: set<Target>) {
    Between(p, start, now) && Finished(p, now)
  }

  /** Exactly the wanted targets; or the load balancer is full of wanted targets, those that were there among them. */
  ghost predicate ConvergedOrFull(p: Plan, start: set<Target>, now: set<Target>) {
    || Own(now) == p.add
    || (IsFull(p, now) && Own(now) <= p.add && Own(start) * p.add <= Own(now))
  }

  lemma CompleteIsConvergedOrFull(p: Plan, start: set<Target>, now: set<Target>)
    requires ValidPlan(p) && p.keep == p.add && Complete(p, start, now)
    ensures ConvergedOrFull(p, start, now)
  {
    assert forall t <- p.add :: t in Own(p.add);
  }

  /** Nothing is to be removed, and nothing to be added or there is no room for it. */
  ghost predicate Steady(p: Plan, now: set<Target>) {
    Own(now) <= p.keep && (p.add <= now || IsFull(p, now))
  }

  /** From a steady state no change is legal. */
  lemma {:induction false} SteadyRunIsEmpty(p: Plan, now: set<Target>, run: seq<Call>)
    requires Steady(p, now) && LegalRun(p, now, run)
    ensures run == []
  {
    if run != [] {
      SteadyRunIsEmpty(p, now, run[..|run| - 1]);
    }
  }

  /** From a steady state nothing is asked for. */
  lemma SteadyRunAsksNothing(p: Plan, now: set<Target>, asked: seq<Call>)
    requires Steady(p, now) && LegalRequests(p, now, asked)
    ensures asked == []
  {
    if LegalRun(p, now, asked) {
      SteadyRunIsEmpty(p, now, asked);
    } else {
      SteadyRunIsEmpty(p, now, asked[..|asked| - 1]);
    }
  }

  /** A run after a finished one, with the same inputs, makes no change, even when some nodes are left out. */
  lemma FinishedRunIsFinal(p: Plan, now: set<Target>, run: seq<Call>)
    requires ValidPlan(p) && p.add <= p.keep && Finished(p, now) && LegalRun(p, now, run)
    ensures run == []
  {
    SteadyRunIsEmpty(p, now, run);
  }

  // ---------- Successful runs ----------

  /** The run starts with removals that leave only targets that may stay. */
  ghost predicate ClearsFirst(p: Plan, start: set<Target>, run: seq<Call>) {
    exists k :: 0 <= k <= |run| && AllRemovals(run[..k]) && Own(After(start, run[..k])) <= p.keep
  }

  /** A run that no call failed in and that did not hit the quota. */
  ghost predicate Succeeds(p: Plan, start: set<Target>, run: seq<Call>) {
    LegalRun(p, start, run) && ClearsFirst(p, start, run) && Complete(p, start, After(start, run))
  }

  /** A successful run changes nothing exactly from a steady state. */
  lemma QuietExactly(p: Plan, start: set<Target>, run: seq<Call>)
    requires Succeeds(p, start, run)
    ensures run == [] <==> Steady(p, start)
  {
    if run == [] {
      var k :| 0 <= k <= |run| && AllRemovals(run[..k]) && Own(After(start, run[..k])) <= p.keep;
      assert run[..k] == [];
    }
    if Steady(p, start) {
      SteadyRunIsEmpty(p, start, run);
    }
  }

  /** What is gone after a run was removed by it. */
  lemma {:induction false} GoneWasRemoved(p: Plan, start: set<Target>, run: seq<Call>, t: Target)
    requires LegalRun(p, start, run) && t in start && t !in After(start, run)
    ensures Call(p.lb, RemoveTarget(t)) in run
  {
    var init := run[..|run| - 1];
    assert run == init + [run[|run| - 1]];
    if t !in After(start, init) {
      GoneWasRemoved(p, start, init, t);
    }
  }

  /** What is there after a run, but was not at some point of it, was added by it. */
  lemma {:induction false} BackWasAdded(p: Plan, start: set<Target>, run: seq<Call>, k: nat, t: Target)
    requires LegalRun(p, start, run) && k <= |run|
    requires t !in After(start, run[..k]) && t in After(start, run)
    ensures Call(p.lb, AddTarget(t)) in run
  {
    assert run[..|run|] == run;
    var init := run[..|run| - 1];
    assert run == init + [run[|run| - 1]] && init[..k] == run[..k];
    if t in After(start, init) {
      BackWasAdded(p, start, init, k, t);
    }
  }

  /**
   * Every successful run removes a target that it is to add but that may not stay. At the end the
   * target is back, because the run added it again, or the load balancer is full.
   */
  lemma UnstablePlanFlaps(p: Plan, start: set<Target>, run: seq<Call>, t: Target)
    requires ValidPlan(p) && Succeeds(p, start, run) && t in start && t in p.add && t !in p.keep
    ensures Call(p.lb, RemoveTarget(t)) in run
    ensures t in After(start, run) || IsFull(p, After(start, run))
    ensures t in After(start, run) ==> Call(p.lb, AddTarget(t)) in run
  {
    var k :| 0 <= k <= |run| && AllRemovals(run[..k]) && Own(After(start, run[..k])) <= p.keep;
    assert t in Own(p.add);
    assert t !in After(start, run[..k]) by {
      assert t !in Own(After(start, run[..k]));
    }
    PrefixIsLegal(p, start, run, k);
    GoneWasRemoved(p, start, run[..k], t);
    assert run[..k] <= run;
    if t in After(start, run) {
      BackWasAdded(p, start, run, k, t);
    }
  }

  /** Successful runs one after another, none of which fills the load balancer up. */
  ghost predicate IsRoomySeries(p: Plan, targets: set<Target>, runs: seq<seq<Call>>)
    decreases |runs|
  {
    runs != [] ==>
      && Succeeds(p, targets, runs[0]) && !IsFull(p, After(targets, runs[0]))
      && IsRoomySeries(p, After(targets, runs[0]), runs[1..])
  }

  /** Without the condition of `SeriesIsBounded` there is no bound: every further run makes at least two changes. */
  lemma {:induction false} UnstableSeriesIsUnbounded(p: Plan, targets: set<Target>, runs: seq<seq<Call>>, t: Target)
    requires ValidPlan(p) && IsRoomySeries(p, targets, runs) && t in targets && t in p.add && t !in p.keep
    ensures SeriesLength(runs) >= 2 * |runs|
    decreases |runs|
  {
    if runs != [] {
      var run := runs[0];
      UnstablePlanFlaps(p, targets, run, t);
      var i :| 0 <= i < |run| && run[i] == Call(p.lb, RemoveTarget(t));
      var j :| 0 <= j < |run| && run[j] == Call(p.lb, AddTarget(t));
      assert i != j;
      UnstableSeriesIsUnbounded(p, After(targets, run), runs[1..], t);
    }
  }

  /** A complete run leaves the targets as they were exactly when a run was already finished. */
  lemma FinishedExactly(p: Plan, now: set<Target>, again: set<Target>)
    requires ValidPlan(p) && p.add <= p.keep && Complete(p, now, again)
    ensures again == now <==> Finished(p, now)
  {
    if Finished(p, now) {
      forall t | t in now
        ensures t in again
      {
        assert t in Own(now) || t in now - Own(now);
      }
      if !(p.add <= now) {
        SupersetOfSameSize(now, again);
      }
    }
  }

  lemma SupersetOfSameSize(a: set<Target>, b: set<Target>)
    requires a <= b && |b| <= |a|
    ensures a == b
  {
    assert b == a + (b - a);
  }
}

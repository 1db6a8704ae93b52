/**
 * A Kubernetes Service as the API server stores it: a JSON object with a resource version, which
 * the controller and any number of other writers change.
 */
module ServiceStore {
  import opened Basics
  import opened Text
  import opened JsonMergePatch

  // ---------- Reading a Service ----------

  function Metadata(doc: Json): Json {
    Member(doc, "metadata")
  }

  /** `Name.StringFromService`. */
  function Annotation(doc: Json, name: string): Option<string> {
    match Member(Member(Metadata(doc), "annotations"), name)
    case Str(text) => Some(text)
    case _ => None
  }

  function Version(doc: Json): string {
    match Member(Metadata(doc), "resourceVersion")
    case Str(text) => text
    case _ => ""
  }

  predicate IsDeleting(doc: Json) {
    !Member(Metadata(doc), "deletionTimestamp").Null?
  }

  function SourceRangesOf(doc: Json): seq<string> {
    match Member(Member(doc, "spec"), "loadBalancerSourceRanges")
    case Arr(items) => seq(|items|, i requires 0 <= i < |items| => if items[i].Str? then items[i].text else "")
    case _ => []
  }

  /** The document under a new resource version. */
  function WithVersion(doc: Json, version: string): Json {
    MergePatch(doc, Obj(map["metadata" := Obj(map["resourceVersion" := Str(version)])]))
  }

  // ---------- The store ----------

  datatype StoreError = NotFound | Conflict | Other

  datatype Revision = Revision(doc: Option<Json>, byController: bool)

  /** Every controller revision from index `from` on follows from the revision before it by `step`. */
  ghost predicate StepsFollow(history: seq<Revision>, from: nat, step: (Json, Json) -> bool) {
    forall i :: from <= i < |history| && history[i].byController ==>
                  && i > 0 && history[i - 1].doc.Some? && history[i].doc.Some?
                  && step(history[i - 1].doc.value, history[i].doc.value)
  }

  ghost predicate AtMostOneControllerRevision(history: seq<Revision>, from: nat) {
    forall i, j :: from <= i < j < |history| && history[i].byController ==> !history[j].byController
  }

  ghost predicate NoneByController(history: seq<Revision>, from: nat) {
    forall i :: from <= i < |history| ==> !history[i].byController
  }

  /** What an attempt to make one step promises, however it ends. */
  ghost predicate Tried(
    before: seq<Revision>, faults0: nat, after: seq<Revision>, faults: nat, err: Option<StoreError>,
    step: (Json, Json) -> bool)
  {
    && before <= after && StepsFollow(after, |before|, step) && AtMostOneControllerRevision(after, |before|)
    && (err == Some(Conflict) ==> |after| > |before| && NoneByController(after, |before|))
    && faults0 <= faults && (err == Some(Other) ==> faults > faults0)
  }

  /** An attempt after writes of others only. */
  lemma TriedAfterOthers(
    start: seq<Revision>, faults0: nat, before: seq<Revision>, faults1: nat, after: seq<Revision>, faults: nat,
    err: Option<StoreError>, step: (Json, Json) -> bool)
    requires start <= before && NoneByController(before, |start|) && faults0 <= faults1
    requires Tried(before, faults1, after, faults, err, step)
    ensures Tried(start, faults0, after, faults, err, step)
  {
    forall i | |start| <= i < |before|
      ensures !after[i].byController
    {
      assert after[i] == before[i];
    }
  }

  /** Writes of others, and then at most one step of the controller on the latest state. */
  lemma OneStepAfterOthers(
    start: seq<Revision>, before: seq<Revision>, after: seq<Revision>, step: (Json, Json) -> bool)
    requires start <= before && before <= after && |after| <= |before| + 1
    requires NoneByController(before, |start|)
    requires |after| == |before| + 1 ==>
               && before != [] && before[|before| - 1].doc.Some? && after[|before|].doc.Some?
               && step(before[|before| - 1].doc.value, after[|before|].doc.value)
    ensures StepsFollow(after, |start|, step) && AtMostOneControllerRevision(after, |start|)
  {
    assert before == after[..|before|];
    assert forall i :: 0 <= i < |before| ==> after[i] == before[i];
    if |after| == |before| + 1 {
      assert after[|before| - 1] == before[|before| - 1];
    }
  }

  /** A history of steps stays one when it is continued by steps of a narrower kind. */
  lemma StepsContinue(
    before: seq<Revision>, after: seq<Revision>, step: (Json, Json) -> bool, narrower: (Json, Json) -> bool)
    requires StepsFollow(before, 0, step) && before <= after
    requires StepsFollow(after, |before|, narrower)
    requires forall a, b :: narrower(a, b) ==> step(a, b)
    ensures StepsFollow(after, 0, step)
  {
    forall i | 0 <= i < |after| && after[i].byController
      ensures i > 0 && after[i - 1].doc.Some? && after[i].doc.Some?
              && step(after[i - 1].doc.value, after[i].doc.value)
    {
      if i < |before| {
        assert after[i] == before[i] && (i > 0 ==> after[i - 1] == before[i - 1]);
      }
    }
  }

  /** A reflexive and transitive relation that every step respects. */
  ghost predicate IsKeptBy(rel: (Json, Json) -> bool, step: (Json, Json) -> bool) {
    && (forall a, b :: step(a, b) ==> rel(a, b))
    && (forall a :: rel(a, a))
    && (forall a, b, c :: rel(a, b) && rel(b, c) ==> rel(a, c))
  }

  /** What every step of the controller keeps, a series of such steps keeps. */
  lemma {:induction false} KeptBetween(
    history: seq<Revision>, step: (Json, Json) -> bool, rel: (Json, Json) -> bool, a: nat, b: nat)
    requires StepsFollow(history, 0, step) && IsKeptBy(rel, step)
    requires a <= b < |history| && history[a].doc.Some?
    requires forall i :: a < i <= b ==> history[i].byController
    ensures history[b].doc.Some? && rel(history[a].doc.value, history[b].doc.value)
    decreases b
  {
    if a < b {
      KeptBetween(history, step, rel, a, b - 1);
      assert step(history[b - 1].doc.value, history[b].doc.value);
    }
  }

  class ServiceStore {
    var current: Option<Json>
    var nextVersion: nat
    /** Every state the Service was in, the last one being the current state. */
    ghost var history: seq<Revision>
    /** How often a call failed although it could have succeeded. */
    ghost var faults: nat

    ghost predicate Valid()
      reads this
    {
      && history != []
      && history[|history| - 1].doc == current
      && (forall i :: 0 <= i < |history| && history[i].doc.Some? ==> IsIssued(Version(history[i].doc.value)))
      && (forall i, j :: 0 <= i < j < |history| && history[i].doc.Some? && history[j].doc.Some? ==>
                           Version(history[i].doc.value) != Version(history[j].doc.value))
    }

    /** Version texts are the numbers below the next one. */
    ghost predicate IsIssued(version: string)
      reads this
    {
      exists n :: 0 <= n < nextVersion && version == Decimal(n)
    }

    constructor (doc: Json)
      ensures Valid()
      ensures history == [Revision(Some(WithVersion(doc, Decimal(0))), false)]
    {
      current := Some(WithVersion(doc, Decimal(0)));
      nextVersion := 1;
      history := [Revision(Some(WithVersion(doc, Decimal(0))), false)];
      faults := 0;
      new;
      VersionOfWithVersion(doc, Decimal(0));
      assert IsIssued(Decimal(0));
    }

    /** A read of the latest state; it may fail. */
    method Get() returns (r: Result<Json, StoreError>)
      modifies this`faults
      ensures r.Ok? ==> current == Some(r.value)
      ensures r == Err(NotFound) ==> current.None?
      ensures old(faults) <= faults && (r == Err(Other) ==> faults > old(faults))
      ensures r.Err? ==> r.error != Conflict
    {
      var fails: bool := *;
      if fails {
        faults := faults + 1;
        return Err(Other);
      }
      if current.None? {
        return Err(NotFound);
      }
      return Ok(current.value);
    }

    /** Stores a new document under a fresh version. */
    method Write(doc: Json, ghost byController: bool)
      requires Valid()
      modifies this
      ensures Valid() && faults == old(faults)
      ensures current == Some(WithVersion(doc, Decimal(old(nextVersion))))
      ensures history == old(history) + [Revision(current, byController)]
    {
      var doc' := WithVersion(doc, Decimal(nextVersion));
      VersionOfWithVersion(doc, Decimal(nextVersion));
      FreshVersion(nextVersion);
      current := Some(doc');
      nextVersion := nextVersion + 1;
      history := history + [Revision(current, byController)];
      assert IsIssued(Decimal(nextVersion - 1));
      forall i | 0 <= i < |history| - 1 && history[i].doc.Some?
        ensures IsIssued(Version(history[i].doc.value))
      {
        assert history[i] == old(history)[i];
        var n :| 0 <= n < old(nextVersion) && Version(history[i].doc.value) == Decimal(n);
      }
    }

    /** Any number of writes, deletions and re-creations by others. */
    method Interfere()
      requires Valid()
      modifies this
      ensures Valid() && faults == old(faults)
      ensures old(history) <= history
      ensures NoneByController(history, |old(history)|)
    {
      var writes :| 0 <= writes;
      for n := 0 to writes
        invariant Valid() && faults == old(faults)
        invariant old(history) <= history
        invariant forall i :: |old(history)| <= i < |history| ==> !history[i].byController
      {
        var deletes: bool := *;
        if deletes {
          current := None;
          history := history + [Revision(None, false)];
        } else {
          var doc: Json := *;
          Write(doc, false);
        }
      }
    }

    /**
     * A merge patch by the controller. It is rejected when the version it names is not the current
     * one. A failure may also hide a patch that was accepted.
     */
    method Patch(patch: Json) returns (err: Option<StoreError>)
      requires Valid()
      modifies this
      ensures Valid()
      ensures history == old(history)
              || (&& old(current).Some?
                  && Version(MergePatch(old(current).value, patch)) == Version(old(current).value)
                  && current == Some(WithVersion(MergePatch(old(current).value, patch), Decimal(old(nextVersion))))
                  && history == old(history) + [Revision(current, true)])
      ensures err.None? ==> history != old(history)
      ensures err == Some(Conflict) ==>
                && history == old(history) && old(current).Some?
                && Version(MergePatch(old(current).value, patch)) != Version(old(current).value)
      ensures old(faults) <= faults && (err == Some(Other) ==> faults > old(faults))
    {
      var failsBefore: bool, failsAfter: bool := *, *;
      if failsBefore || failsAfter {
        faults := faults + 1;
      }
      if failsBefore {
        return Some(Other);
      }
      if current.None? {
        return Some(NotFound);
      }
      var patched := MergePatch(current.value, patch);
      if Version(patched) != Version(current.value) {
        return Some(Conflict);
      }
      Write(patched, true);
      return if failsAfter then Some(Other) else None;
    }
  }

  /** Applied to any document, the patch asks for the version of `doc`. */
  ghost predicate NamesVersionOf(doc: Json, patch: Json) {
    forall target :: Version(MergePatch(target, patch)) == Version(doc)
  }

  /** Accepting the patch for `doc` is a step. */
  ghost predicate StepsTo(doc: Json, patch: Json, step: (Json, Json) -> bool) {
    forall version :: step(doc, WithVersion(MergePatch(doc, patch), version))
  }

  /**
   * Sends a patch that was computed from `latest`; other writers may act in between. The patch is
   * accepted only if it replaces the very document it was computed from.
   */
  method SendPatch(store: ServiceStore, ghost latest: Json, patch: Json, ghost step: (Json, Json) -> bool)
    returns (err: Option<StoreError>)
    requires store.Valid() && store.current == Some(latest)
    requires NamesVersionOf(latest, patch) && StepsTo(latest, patch, step)
    modifies store
    ensures store.Valid()
    ensures Tried(old(store.history), old(store.faults), store.history, store.faults, err, step)
    ensures err.None? ==> exists version :: store.current == Some(WithVersion(MergePatch(latest, patch), version))
  {
    ghost var start := store.history;
    store.Interfere();
    ghost var before, replaced, version := store.history, store.current, Decimal(store.nextVersion);
    assert before[|start| - 1] == start[|start| - 1];
    // The version can only differ when someone wrote since.
    assert before == start ==> replaced == Some(latest);
    err := store.Patch(patch);
    if store.history != before {
      // The version that was read is the version that was replaced, so the documents are the same.
      assert replaced.value == latest;
      assert step(latest, WithVersion(MergePatch(latest, patch), version));
    }
    OneStepAfterOthers(start, before, store.history, step);
  }

  lemma VersionOfWithVersion(doc: Json, version: string)
    ensures Version(WithVersion(doc, version)) == version
  {
    var meta := Obj(map["resourceVersion" := Str(version)]);
    MergePatchMember(doc, Obj(map["metadata" := meta]), "metadata");
    MergePatchMember(Metadata(doc), meta, "resourceVersion");
  }

  lemma FreshVersion(next: nat)
    ensures forall n: nat :: n < next ==> Decimal(n) != Decimal(next)
  {
    forall n: nat | n < next
      ensures Decimal(n) != Decimal(next)
    {
      ParseDecimal(n);
      ParseDecimal(next);
    }
  }
}

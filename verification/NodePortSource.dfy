/**
 * Limiting a Service's NodePort to its load balancer (hcloud/node_port_source.go): the decision
 * what to want, and the read-compute-patch loop against the API server.
 */
module NodePortSource {
  import opened Basics
  import opened Text
  import opened JsonMergePatch
  import opened ServiceStore
  import opened SourceRanges
  import opened Cidr

  const NODE_PORT_SOURCE_RANGES := "load-balancer.hetzner.cloud/node-port-source-ranges"
  const RESTRICT_NODE_PORT_SOURCE := "load-balancer.hetzner.cloud/restrict-node-port-source"
  const CILIUM_SOURCE_RANGES_POLICY := "service.cilium.io/src-ranges-policy"

  /** `retry.DefaultRetry` tries five times. */
  const MAX_ATTEMPTS := 5

  // ---------- The patch ----------

  /** The two fields of a stored Service that this feature writes. */
  function StateOf(doc: Json): ServiceState {
    ServiceState(SourceRangesOf(doc), Annotation(doc, NODE_PORT_SOURCE_RANGES))
  }

  function MetadataPatch(version: string, managed: string): Json {
    Obj(map["resourceVersion" := Str(version), "annotations" := AnnotationsPatch(managed)])
  }

  function AnnotationsPatch(managed: string): Json {
    Obj(map[NODE_PORT_SOURCE_RANGES := if managed != "" then Str(managed) else Null])
  }

  function SpecPatch(ranges: seq<string>): Json {
    Obj(map["loadBalancerSourceRanges" :=
      if |ranges| > 0 then Arr(seq(|ranges|, i requires 0 <= i < |ranges| => Str(ranges[i]))) else Null])
  }

  /** A merge patch for the two fields, guarded by the version that was read; empty values remove. */
  function NodePortSourcePatch(version: string, ranges: seq<string>, managed: string): Json {
    Obj(map["metadata" := MetadataPatch(version, managed), "spec" := SpecPatch(ranges)])
  }

  /** Two documents agree on everything but the source ranges, the bookkeeping annotation and the version. */
  ghost predicate SameElsewhere(doc: Json, doc': Json) {
    && (forall k :: k != "metadata" && k != "spec" ==> Member(doc', k) == Member(doc, k))
    && (forall k :: k != "loadBalancerSourceRanges" ==>
                      Member(Member(doc', "spec"), k) == Member(Member(doc, "spec"), k))
    && (forall k :: k != "annotations" && k != "resourceVersion" ==>
                      Member(Metadata(doc'), k) == Member(Metadata(doc), k))
    && (forall k :: k != NODE_PORT_SOURCE_RANGES ==> Annotation(doc', k) == Annotation(doc, k))
  }

  lemma SpecPatched(spec: Json, ranges: seq<string>)
    ensures var spec' := MergePatch(spec, SpecPatch(ranges));
            && (forall k :: k != "loadBalancerSourceRanges" ==> Member(spec', k) == Member(spec, k))
            && (match Member(spec', "loadBalancerSourceRanges")
                case Arr(items) =>
                  ranges != [] && |items| == |ranges| && forall i :: 0 <= i < |items| ==> items[i] == Str(ranges[i])
                case Null => ranges == []
                case _ => false)
  {
    var patch := SpecPatch(ranges);
    forall k
      ensures k != "loadBalancerSourceRanges" ==> Member(MergePatch(spec, patch), k) == Member(spec, k)
    {
      MergePatchMember(spec, patch, k);
    }
    MergePatchMember(spec, patch, "loadBalancerSourceRanges");
  }

  lemma AnnotationsPatched(annotations: Json, managed: string)
    ensures var annotations' := MergePatch(annotations, AnnotationsPatch(managed));
            && (forall k :: k != NODE_PORT_SOURCE_RANGES ==> Member(annotations', k) == Member(annotations, k))
            && Member(annotations', NODE_PORT_SOURCE_RANGES) == if managed != "" then Str(managed) else Null
  {
    var patch := AnnotationsPatch(managed);
    forall k
      ensures k != NODE_PORT_SOURCE_RANGES ==> Member(MergePatch(annotations, patch), k) == Member(annotations, k)
    {
      MergePatchMember(annotations, patch, k);
    }
    MergePatchMember(annotations, patch, NODE_PORT_SOURCE_RANGES);
  }

  lemma MetadataPatched(meta: Json, version: string, managed: string)
    ensures var meta' := MergePatch(meta, MetadataPatch(version, managed));
            && (forall k :: k != "annotations" && k != "resourceVersion" ==> Member(meta', k) == Member(meta, k))
            && Member(meta', "resourceVersion") == Str(version)
            && Member(meta', "annotations") == MergePatch(Member(meta, "annotations"), AnnotationsPatch(managed))
  {
    var patch := MetadataPatch(version, managed);
    forall k
      ensures k != "annotations" && k != "resourceVersion" ==> Member(MergePatch(meta, patch), k) == Member(meta, k)
    {
      MergePatchMember(meta, patch, k);
    }
    MergePatchMember(meta, patch, "resourceVersion");
    MergePatchMember(meta, patch, "annotations");
  }

  lemma DocumentPatched(doc: Json, meta: Json, spec: Json)
    requires meta.Obj? && spec.Obj?
    ensures var doc' := MergePatch(doc, Obj(map["metadata" := meta, "spec" := spec]));
            && (forall k :: k != "metadata" && k != "spec" ==> Member(doc', k) == Member(doc, k))
            && Metadata(doc') == MergePatch(Metadata(doc), meta)
            && Member(doc', "spec") == MergePatch(Member(doc, "spec"), spec)
  {
    var patch := Obj(map["metadata" := meta, "spec" := spec]);
    forall k
      ensures k != "metadata" && k != "spec" ==> Member(MergePatch(doc, patch), k) == Member(doc, k)
    {
      MergePatchMember(doc, patch, k);
    }
    MergePatchMember(doc, patch, "metadata");
    MergePatchMember(doc, patch, "spec");
  }

  /** The patch asks for the version that was read, whatever document it is applied to. */
  lemma PatchNamesVersion(doc: Json, version: string, ranges: seq<string>, managed: string)
    ensures Version(MergePatch(doc, NodePortSourcePatch(version, ranges, managed))) == version
  {
    DocumentPatched(doc, MetadataPatch(version, managed), SpecPatch(ranges));
    MetadataPatched(Metadata(doc), version, managed);
  }

  lemma PatchSetsFields(doc: Json, version: string, ranges: seq<string>, managed: string)
    ensures StateOf(MergePatch(doc, NodePortSourcePatch(version, ranges, managed)))
            == ServiceState(ranges, if managed == "" then None else Some(managed))
    ensures var doc' := MergePatch(doc, NodePortSourcePatch(version, ranges, managed));
            Member(Member(doc', "spec"), "loadBalancerSourceRanges").Null? <==> ranges == []
  {
    DocumentPatched(doc, MetadataPatch(version, managed), SpecPatch(ranges));
    SpecPatched(Member(doc, "spec"), ranges);
    MetadataPatched(Metadata(doc), version, managed);
    AnnotationsPatched(Member(Metadata(doc), "annotations"), managed);
    assert SourceRangesOf(MergePatch(doc, NodePortSourcePatch(version, ranges, managed))) == ranges;
  }

  lemma PatchKeepsRest(doc: Json, version: string, ranges: seq<string>, managed: string)
    ensures SameElsewhere(doc, MergePatch(doc, NodePortSourcePatch(version, ranges, managed)))
  {
    DocumentPatched(doc, MetadataPatch(version, managed), SpecPatch(ranges));
    SpecPatched(Member(doc, "spec"), ranges);
    MetadataPatched(Metadata(doc), version, managed);
    AnnotationsPatched(Member(Metadata(doc), "annotations"), managed);
  }

  /** Applying the patch sets the two fields, names the version, and changes nothing else. */
  lemma PatchEffect(doc: Json, version: string, ranges: seq<string>, managed: string)
    ensures var doc' := MergePatch(doc, NodePortSourcePatch(version, ranges, managed));
            && StateOf(doc') == ServiceState(ranges, if managed == "" then None else Some(managed))
            && (Member(Member(doc', "spec"), "loadBalancerSourceRanges").Null? <==> ranges == [])
            && Version(doc') == version
            && SameElsewhere(doc, doc')
  {
    PatchSetsFields(doc, version, ranges, managed);
    PatchNamesVersion(doc, version, ranges, managed);
    PatchKeepsRest(doc, version, ranges, managed);
  }

  /** A new version changes neither the two fields nor anything else. */
  lemma NewVersionEffect(doc: Json, version: string)
    ensures StateOf(WithVersion(doc, version)) == StateOf(doc)
    ensures SameElsewhere(doc, WithVersion(doc, version))
    ensures IsDeleting(WithVersion(doc, version)) == IsDeleting(doc)
  {
    var meta := Obj(map["resourceVersion" := Str(version)]);
    var patch := Obj(map["metadata" := meta]);
    forall k
      ensures k != "metadata" ==> Member(WithVersion(doc, version), k) == Member(doc, k)
    {
      MergePatchMember(doc, patch, k);
    }
    MergePatchMember(doc, patch, "metadata");
    forall k
      ensures k != "resourceVersion" ==> Member(MergePatch(Metadata(doc), meta), k) == Member(Metadata(doc), k)
    {
      MergePatchMember(Metadata(doc), meta, k);
    }
  }

  // ---------- One accepted patch ----------

  /** `after` is the controller's step on exactly the document `before`. */
  ghost predicate IsStepOf(before: Json, after: Json, wanted: seq<string>) {
    && StateOf(after) == Step(StateOf(before), wanted)
    && StateOf(after) != StateOf(before)
    && SameElsewhere(before, after)
    && !IsDeleting(before)
  }

  lemma SameElsewhereTransitive(a: Json, b: Json, c: Json)
    requires SameElsewhere(a, b) && SameElsewhere(b, c)
    ensures SameElsewhere(a, c)
  {
  }

  /** The patch that asks for the controller's step on `doc`. */
  ghost function StepPatch(doc: Json, wanted: seq<string>): Json {
    var next := Step(StateOf(doc), wanted);
    NodePortSourcePatch(Version(doc), next.ranges, next.annotation.GetOr(""))
  }

  lemma StepPatchNamesVersion(target: Json, doc: Json, wanted: seq<string>)
    ensures Version(MergePatch(target, StepPatch(doc, wanted))) == Version(doc)
  {
    var next := Step(StateOf(doc), wanted);
    PatchNamesVersion(target, Version(doc), next.ranges, next.annotation.GetOr(""));
  }

  lemma AcceptedPatchIsStep(doc: Json, wanted: seq<string>, version: string)
    requires NeedsPatch(StateOf(doc), wanted) && !IsDeleting(doc)
    ensures IsStepOf(doc, WithVersion(MergePatch(doc, StepPatch(doc, wanted)), version), wanted)
  {
    var next := Step(StateOf(doc), wanted);
    var patched := MergePatch(doc, StepPatch(doc, wanted));
    PatchEffect(doc, Version(doc), next.ranges, next.annotation.GetOr(""));
    NewVersionEffect(patched, version);
    SameElsewhereTransitive(doc, patched, WithVersion(patched, version));
    NeedsPatchExactly(StateOf(doc), wanted);
  }

  method ComputePatch(latest: Json, wanted: seq<string>) returns (patch: Option<Json>)
    ensures patch.Some? <==> NeedsPatch(StateOf(latest), wanted)
    ensures patch.Some? ==> patch.value == StepPatch(latest, wanted)
  {
    var current := SourceRangesOf(latest);
    var annotation := Annotation(latest, NODE_PORT_SOURCE_RANGES);
    var previouslyManaged := ManagedSourceRanges(annotation);
    var ranges, changed := DesiredSourceRanges(current, previouslyManaged, wanted);
    var owned := OwnedEntries(current, previouslyManaged, wanted);
    var managed := Join(owned, ',');
    var annotationChanged := annotation.GetOr("") != managed || (managed == "" && annotation.Some?);
    if !changed && !annotationChanged {
      return None;
    }
    return Some(NodePortSourcePatch(Version(latest), ranges, managed));
  }

  // ---------- The read-compute-patch loop ----------

  /** The controller's steps for some wanted entries, as a relation between documents. */
  ghost function StepFor(wanted: seq<string>): (Json, Json) -> bool {
    (before, after) => IsStepOf(before, after, wanted)
  }

  /** The Service is gone or going, or a further step with the same wanted entries would change nothing. */
  ghost predicate IsSettled(doc: Option<Json>, wanted: seq<string>) {
    doc.Some? && !IsDeleting(doc.value) ==> !NeedsPatch(StateOf(doc.value), wanted)
  }

  /**
   * Nothing is read or written: there is no client, or nothing is wanted and the copy of the Service
   * that the caller has records no entries.
   */
  predicate IsSkipped(hasClient: bool, svc: Json, wanted: seq<string>) {
    !hasClient || (wanted == [] && Managed(StateOf(svc).annotation) == [])
  }

  /**
   * A call that skips because nothing is wanted succeeds on a settled Service exactly when the stored
   * Service has no annotation, or is gone or going; what the caller's copy says does not matter.
   */
  lemma SkippedIsSettledExactly(stored: Option<Json>)
    ensures IsSettled(stored, []) <==>
            stored.None? || IsDeleting(stored.value) || StateOf(stored.value).annotation.None?
  {
    if stored.Some? {
      NothingWantedNeedsPatchExactly(StateOf(stored.value));
    }
  }

  /** A Service without the annotation, and the same Service as a controller run left it. */
  function ServiceWith(managed: Option<string>): Json {
    var annotations := if managed.Some? then map[NODE_PORT_SOURCE_RANGES := Str(managed.value)] else map[];
    Obj(map["metadata" := Obj(map["annotations" := Obj(annotations)])])
  }

  /** So with a copy from before that run, switching off is skipped and leaves the entries in place. */
  lemma StaleCopyLeavesEntries(hasClient: bool, managed: string)
    ensures IsSkipped(hasClient, ServiceWith(None), [])
    ensures !IsSettled(Some(ServiceWith(Some(managed))), [])
  {
    SkippedIsSettledExactly(Some(ServiceWith(Some(managed))));
  }

  /**
   * Unless the call is skipped, every attempt works on the latest state; it fails only because a call
   * failed, because the Service was deleted meanwhile, or because others wrote in every single attempt.
   */
  method SetManagedSourceRanges(store: ServiceStore, hasClient: bool, svc: Json, wanted: seq<string>)
    returns (err: Option<StoreError>)
    requires store.Valid() && Clean(wanted)
    modifies store
    ensures store.Valid()
    ensures Tried(old(store.history), old(store.faults), store.history, store.faults, err, StepFor(wanted))
    ensures if IsSkipped(hasClient, svc, wanted) then err.None? && store.history == old(store.history)
            else err.None? ==> IsSettled(store.current, wanted)
    ensures err == Some(Conflict) ==> |store.history| >= |old(store.history)| + 5
  {
    ghost var start, faults0, step := store.history, store.faults, StepFor(wanted);
    var cached := ManagedSourceRanges(Annotation(svc, NODE_PORT_SOURCE_RANGES));
    if |wanted| == 0 && |cached| == 0 {
      return None;
    }
    if !hasClient {
      return None;
    }
    var attempt := 0;
    err := Some(Conflict);
    while attempt < MAX_ATTEMPTS && err == Some(Conflict)
      invariant store.Valid()
      invariant attempt > 0 ==> Tried(start, faults0, store.history, store.faults, err, step)
      invariant attempt == 0 ==> store.history == start && store.faults == faults0 && err == Some(Conflict)
      invariant err.None? ==> IsSettled(store.current, wanted)
      invariant err == Some(Conflict) ==> |store.history| >= |start| + attempt
      decreases MAX_ATTEMPTS - attempt
    {
      ghost var before, faults := store.history, store.faults;
      err := TryOnce(store, wanted);
      TriedAfterOthers(start, faults0, before, faults, store.history, store.faults, err, step);
      attempt := attempt + 1;
    }
  }

  /** One attempt; other writers may act before the read and between the read and the patch. */
  method TryOnce(store: ServiceStore, wanted: seq<string>) returns (err: Option<StoreError>)
    requires store.Valid() && Clean(wanted)
    modifies store
    ensures store.Valid()
    ensures Tried(old(store.history), old(store.faults), store.history, store.faults, err, StepFor(wanted))
    ensures err.None? ==> IsSettled(store.current, wanted)
  {
    ghost var step := StepFor(wanted);
    store.Interfere();
    ghost var before, faults := store.history, store.faults;
    var got := store.Get();
    if got.Err? {
      return if got.error == NotFound then None else Some(got.error);
    }
    err := StepFrom(store, got.value, wanted);
    TriedAfterOthers(old(store.history), old(store.faults), before, faults, store.history, store.faults, err, step);
  }

  /** Computes the step on what was read, and sends it. */
  method StepFrom(store: ServiceStore, latest: Json, wanted: seq<string>) returns (err: Option<StoreError>)
    requires store.Valid() && Clean(wanted) && store.current == Some(latest)
    modifies store
    ensures store.Valid()
    ensures Tried(old(store.history), old(store.faults), store.history, store.faults, err, StepFor(wanted))
    ensures err.None? ==> IsSettled(store.current, wanted)
  {
    if IsDeleting(latest) {
      return None;
    }
    var patch := ComputePatch(latest, wanted);
    if patch.None? {
      return None;
    }
    StepPatchIsGuarded(latest, wanted);
    err := SendPatch(store, latest, patch.value, StepFor(wanted));
  }

  /** The patch guards itself with the version that was read, and makes a step of exactly that document. */
  lemma StepPatchIsGuarded(doc: Json, wanted: seq<string>)
    requires NeedsPatch(StateOf(doc), wanted) && !IsDeleting(doc) && Clean(wanted)
    ensures NamesVersionOf(doc, StepPatch(doc, wanted))
    ensures StepsTo(doc, StepPatch(doc, wanted), StepFor(wanted))
    ensures forall version :: IsSettled(Some(WithVersion(MergePatch(doc, StepPatch(doc, wanted)), version)), wanted)
  {
    var patch := StepPatch(doc, wanted);
    forall target
      ensures Version(MergePatch(target, patch)) == Version(doc)
    {
      StepPatchNamesVersion(target, doc, wanted);
    }
    forall version
      ensures StepFor(wanted)(doc, WithVersion(MergePatch(doc, patch), version))
      ensures IsSettled(Some(WithVersion(MergePatch(doc, patch), version)), wanted)
    {
      AcceptedPatchIsStep(doc, wanted, version);
      SecondStepSendsNoPatch(StateOf(doc), wanted);
    }
  }

  // ---------- Users never lose an entry ----------

  /** A step for some entries that a load balancer could contribute. */
  ghost function LegalStep(): (Json, Json) -> bool {
    (before, after) => exists wanted :: Clean(wanted) && IsStepOf(before, after, wanted)
  }

  ghost predicate LegalHistory(history: seq<Revision>) {
    StepsFollow(history, 0, LegalStep())
  }

  /** The users' entries and every field that the controller does not write are the same. */
  ghost predicate SameForOthers(a: Json, b: Json) {
    View(StateOf(a)) == View(StateOf(b)) && SameElsewhere(a, b)
  }

  lemma LegalStepKeepsOthers(before: Json, after: Json)
    requires LegalStep()(before, after)
    ensures SameForOthers(before, after)
  {
    var wanted :| Clean(wanted) && IsStepOf(before, after, wanted);
    StepKeepsView(StateOf(before), wanted);
  }

  lemma SameForOthersTransitive(a: Json, b: Json, c: Json)
    requires SameForOthers(a, b) && SameForOthers(b, c)
    ensures SameForOthers(a, c)
  {
    SameElsewhereTransitive(a, b, c);
  }

  ghost function ForOthers(): (Json, Json) -> bool {
    (a, b) => SameForOthers(a, b)
  }

  lemma LegalStepsKeepOthers()
    ensures IsKeptBy(ForOthers(), LegalStep())
  {
    forall a, b | LegalStep()(a, b)
      ensures ForOthers()(a, b)
    {
      LegalStepKeepsOthers(a, b);
    }
    forall a, b, c | ForOthers()(a, b) && ForOthers()(b, c)
      ensures ForOthers()(a, c)
    {
      SameForOthersTransitive(a, b, c);
    }
  }

  /** Between two writes of others the users' entries and every other field stay as they were left. */
  lemma NoLostUpdate(history: seq<Revision>, a: nat, b: nat)
    requires LegalHistory(history) && a <= b < |history| && history[a].doc.Some?
    requires forall i :: a < i <= b ==> history[i].byController
    ensures history[b].doc.Some? && SameForOthers(history[a].doc.value, history[b].doc.value)
  {
    LegalStepsKeepOthers();
    KeptBetween(history, LegalStep(), ForOthers(), a, b);
  }

  // ---------- Deciding what to want ----------

  datatype Decision = Invalid | LeaveAlone | Want(cidrs: seq<string>)

  /** Whether the feature is on: the annotation wins over the default, and a blank value counts as unset. */
  function RestrictEnabled(svc: Json, default: bool): Option<bool> {
    match Annotation(svc, RESTRICT_NODE_PORT_SOURCE)
    case None => Some(default)
    case Some(v) => if TrimSpace(v) == "" then Some(default) else ParseBool(v)
  }

  /** Cilium reads the source ranges as a deny-list. */
  predicate SourceRangesDenyList(svc: Json) {
    EqualFoldAscii(TrimSpace(Annotation(svc, CILIUM_SOURCE_RANGES_POLICY).GetOr("")), "deny")
  }

  // ---------- What the texts on the Service say ----------

  /** The annotation says yes, or it is missing or blank and the default does. */
  ghost predicate SaysOn(svc: Json, default: bool) {
    match Annotation(svc, RESTRICT_NODE_PORT_SOURCE)
    case None => default
    case Some(text) => if AllSpace(text) then default else text in {"1", "t", "T", "true", "True", "TRUE"}
  }

  /** The annotation says no, or it is missing or blank and the default does. */
  ghost predicate SaysOff(svc: Json, default: bool) {
    match Annotation(svc, RESTRICT_NODE_PORT_SOURCE)
    case None => !default
    case Some(text) => if AllSpace(text) then !default else text in {"0", "f", "F", "false", "False", "FALSE"}
  }

  /** The word "deny" in any case, with or without white space around it. */
  ghost predicate SaysDeny(text: string) {
    exists before, word, after :: text == before + word + after && AllSpace(before) && AllSpace(after) && IsDeny(word)
  }

  ghost predicate IsDeny(word: string) {
    |word| == 4 && word[0] in "dD" && word[1] in "eE" && word[2] in "nN" && word[3] in "yY"
  }

  ghost predicate HasDenyList(svc: Json) {
    var policy := Annotation(svc, CILIUM_SOURCE_RANGES_POLICY);
    policy.Some? && SaysDeny(policy.value)
  }

  lemma BlankIsTrimmedToNothing(text: string)
    ensures TrimSpace(text) == "" <==> AllSpace(text)
  {
    var before, after := TrimSpaceSplits(text);
    if AllSpace(text) {
      AllSpaceIsTrimmedAway(text);
    }
    if TrimSpace(text) == "" {
      assert text == before + after;
    }
  }

  lemma RestrictEnabledAsSaid(svc: Json, default: bool)
    ensures RestrictEnabled(svc, default) == Some(true) <==> SaysOn(svc, default)
    ensures RestrictEnabled(svc, default) == Some(false) <==> SaysOff(svc, default)
  {
    var annotation := Annotation(svc, RESTRICT_NODE_PORT_SOURCE);
    if annotation.Some? {
      BlankIsTrimmedToNothing(annotation.value);
    }
  }

  lemma FoldsToDeny(word: string)
    ensures EqualFoldAscii(word, "deny") <==> IsDeny(word)
  {
    if |word| == 4 {
      assert EqualFoldAscii(word, "deny") <==>
             LowerAscii(word[0]) == 'd' && LowerAscii(word[1]) == 'e'
             && LowerAscii(word[2]) == 'n' && LowerAscii(word[3]) == 'y';
    }
  }

  lemma DenyListAsSaid(svc: Json)
    ensures SourceRangesDenyList(svc) <==> HasDenyList(svc)
  {
    var text := Annotation(svc, CILIUM_SOURCE_RANGES_POLICY).GetOr("");
    FoldsToDeny(TrimSpace(text));
    var before, after := TrimSpaceSplits(text);
    if SaysDeny(text) {
      var l, word, r :| text == l + word + r && AllSpace(l) && AllSpace(r) && IsDeny(word);
      TrimSpaceExactly(l, word, r);
    }
    if text == "" {
      assert !SaysDeny(text);
    }
  }

  ghost predicate HasSource(lb: LbAddresses) {
    exists v: U32 :: UsesSource(lb, v)
  }

  lemma NoSourceNoCidrs(lb: LbAddresses)
    ensures HasSource(lb) <==> SourceCidrs(lb) != []
  {
    if v: U32 :| UsesSource(lb, v) {
      SourceCidrsAdmitExactly(lb, Addr(V4, v));
    }
    if SourceCidrs(lb) != [] {
      var c := SourceCidrs(lb)[0];
      var a := SourceCidrAdmitsSome(lb, c);
      SourceCidrsAdmitExactly(lb, a);
    }
  }

  /** The Service is not there any more, or is being deleted. */
  ghost predicate IsGoneOrGoing(doc: Option<Json>) {
    doc.None? || !Member(Metadata(doc.value), "deletionTimestamp").Null?
  }

  /** The ranges of a Service admit every address that the load balancer connects from. */
  ghost predicate AdmitsSources(doc: Json, lb: LbAddresses) {
    forall v: U32 :: UsesSource(lb, v) ==> Admits(SourceRangesOf(doc), v)
  }

  ghost predicate Admits(ranges: seq<string>, v: U32) {
    exists c :: c in ranges && CidrAdmits(c, Addr(V4, v))
  }

  /** Every write of the controller since gave the users' entries back, and now there is no record of others. */
  ghost predicate IsGivenBack(before: seq<Revision>, after: seq<Revision>, doc: Option<Json>) {
    && (IsGoneOrGoing(doc) || Annotation(doc.value, NODE_PORT_SOURCE_RANGES).None?)
    && StepsFollow(after, |before|, (a, b) =>
         SourceRangesOf(b) == View(StateOf(a)) && Annotation(b, NODE_PORT_SOURCE_RANGES).None? && SameElsewhere(a, b))
  }

  /**
   * What a call comes to, read off the texts on the Service: when they say no, the users' entries are
   * given back; when they say yes, the load balancer is admitted; when they say neither, or there is
   * nothing to do or nothing to do it with, nothing is touched. Nothing at all is written to a Service
   * that is being deleted, and only the two fields to any other.
   */
  ghost predicate DoesAsSaid(
    hasClient: bool, svc: Json, lb: LbAddresses, default: bool, before: seq<Revision>, after: seq<Revision>,
    doc: Option<Json>, invalid: bool, err: Option<StoreError>)
  {
    var off := SaysOff(svc, default) || (SaysOn(svc, default) && HasDenyList(svc));
    var on := SaysOn(svc, default) && !HasDenyList(svc);
    var untouched := err.None? && after == before;
    && (invalid <==> !off && !on)
    && (invalid || !hasClient ==> untouched)
    && StepsFollow(after, |before|, (a, b) => Member(Metadata(a), "deletionTimestamp").Null? && SameElsewhere(a, b))
    && (off && hasClient ==>
          if Managed(Annotation(svc, NODE_PORT_SOURCE_RANGES)) == [] then untouched
          else err.None? ==> IsGivenBack(before, after, doc))
    && (on && hasClient ==>
          if HasSource(lb) then err.None? ==> IsGoneOrGoing(doc) || AdmitsSources(doc.value, lb)
          else untouched)
  }

  /** A settled Service admits the wanted entries. */
  lemma SettledAdmits(doc: Json, lb: LbAddresses)
    requires !NeedsPatch(StateOf(doc), SourceCidrs(lb))
    ensures AdmitsSources(doc, lb)
  {
    forall v: U32 | UsesSource(lb, v)
      ensures Admits(SourceRangesOf(doc), v)
    {
      SourceCidrsAdmitExactly(lb, Addr(V4, v));
      var c :| c in SourceCidrs(lb) && CidrAdmits(c, Addr(V4, v));
      var c' := WantedIsListed(StateOf(doc), SourceCidrs(lb), c);
      SameKeyAdmits(c, c', Addr(V4, v));
    }
  }

  /** A call for some wanted entries does what the texts say. */
  lemma WantingDoesAsSaid(
    hasClient: bool, svc: Json, lb: LbAddresses, default: bool, before: seq<Revision>, after: seq<Revision>,
    doc: Option<Json>, wanted: seq<string>, err: Option<StoreError>)
    requires Decide(svc, lb, default) == Want(wanted)
    requires before <= after && StepsFollow(after, |before|, StepFor(wanted))
    requires if IsSkipped(hasClient, svc, wanted) then err.None? && after == before
             else err.None? ==> IsSettled(doc, wanted)
    ensures DoesAsSaid(hasClient, svc, lb, default, before, after, doc, false, err)
  {
    RestrictEnabledAsSaid(svc, default);
    DenyListAsSaid(svc);
    NoSourceNoCidrs(lb);
    assert forall a, b :: StepFor(wanted)(a, b) ==>
             Member(Metadata(a), "deletionTimestamp").Null? && SameElsewhere(a, b);
    if wanted == [] {
      WantingNothingGivesBack(before, after);
      SkippedIsSettledExactly(doc);
    } else if err.None? && !IsGoneOrGoing(doc) && hasClient {
      SettledAdmits(doc.value, lb);
    }
  }

  lemma WantingNothingGivesBack(before: seq<Revision>, after: seq<Revision>)
    requires StepsFollow(after, |before|, StepFor([]))
    ensures IsGivenBack(before, after, None)
  {
    forall i | |before| <= i < |after| && after[i].byController
      ensures var a, b := after[i - 1].doc.value, after[i].doc.value;
              SourceRangesOf(b) == View(StateOf(a)) && Annotation(b, NODE_PORT_SOURCE_RANGES).None?
              && SameElsewhere(a, b)
    {
      var a := after[i - 1].doc.value;
      assert IsStepOf(a, after[i].doc.value, []);
      WantingNothingRestoresUserView(SourceRangesOf(a), Managed(StateOf(a).annotation));
    }
  }

  ghost function Decide(svc: Json, lb: LbAddresses, default: bool): Decision {
    var enabled := RestrictEnabled(svc, default);
    if enabled.None? then Invalid
    else if !enabled.value || SourceRangesDenyList(svc) then Want([])
    else if SourceCidrs(lb) == [] then LeaveAlone
    else Want(SourceCidrs(lb))
  }

  method ReconcileNodePortSource(
    store: ServiceStore, hasClient: bool, svc: Json, lb: LbAddresses, default: bool)
    returns (invalid: bool, err: Option<StoreError>)
    requires store.Valid()
    modifies store
    ensures store.Valid()
    ensures invalid <==> Decide(svc, lb, default).Invalid?
    ensures match Decide(svc, lb, default)
            case Want(wanted) =>
              && Tried(old(store.history), old(store.faults), store.history, store.faults, err, StepFor(wanted))
              && (if IsSkipped(hasClient, svc, wanted) then err.None? && store.history == old(store.history)
                  else err.None? ==> IsSettled(store.current, wanted))
            case _ => err.None? && store.history == old(store.history)
    ensures DoesAsSaid(hasClient, svc, lb, default, old(store.history), store.history, store.current, invalid, err)
    ensures err == Some(Conflict) ==> |store.history| >= |old(store.history)| + 5
  {
    invalid, err := false, None;
    RestrictEnabledAsSaid(svc, default);
    DenyListAsSaid(svc);
    NoSourceNoCidrs(lb);
    var enabled := RestrictEnabled(svc, default);
    if enabled.None? {
      invalid := true;
      return;
    }
    var wanted := [];
    if enabled.value && !SourceRangesDenyList(svc) {
      wanted := LbSourceCidrs(lb);
      SourceCidrsAreClean(lb);
      if |wanted| == 0 {
        // Dropping the owned entries would open the NodePort.
        return;
      }
    }
    ghost var before := store.history;
    err := SetManagedSourceRanges(store, hasClient, svc, wanted);
    WantingDoesAsSaid(hasClient, svc, lb, default, before, store.history, store.current, wanted, err);
  }

  /** Over one reconcile a legal history stays legal, whatever others write meanwhile. */
  lemma ReconcileKeepsLegality(
    before: seq<Revision>, after: seq<Revision>, svc: Json, lb: LbAddresses, default: bool)
    requires LegalHistory(before) && before <= after
    requires match Decide(svc, lb, default)
             case Want(wanted) => StepsFollow(after, |before|, StepFor(wanted))
             case _ => after == before
    ensures LegalHistory(after)
  {
    SourceCidrsAreClean(lb);
    match Decide(svc, lb, default)
    case Want(wanted) => StepsContinue(before, after, LegalStep(), StepFor(wanted));
    case _ =>
  }
}

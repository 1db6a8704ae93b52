/**
 * Shared ownership of a Service's source ranges (hcloud/node_port_source.go): which entries of the
 * list the controller wants, which it owns, and how it replaces them without touching the entries
 * of anyone else.
 */
module SourceRanges {
  import opened Basics
  import opened Text
  import opened Cidr
  import L = KeyedLists

  // ---------- Lists of CIDRs, compared by network ----------

  predicate ContainsCidr(list: seq<string>, cidr: string) {
    exists c <- list :: SameCidr(c, cidr)
  }

  /** The networks in a list. */
  ghost function Networks(list: seq<string>): set<CidrKey> {
    L.Keys(list, KeyOf)
  }

  lemma ContainsCidrIsMembership(list: seq<string>, cidr: string)
    ensures ContainsCidr(list, cidr) <==> KeyOf(cidr) in Networks(list)
  {
    forall c | c in list
      ensures SameCidr(c, cidr) <==> KeyOf(c) == KeyOf(cidr)
    {
      SameCidrIsKeyEquality(c, cidr);
    }
  }

  // ---------- What the controller computes ----------

  /** The new list: former own entries that are no longer wanted go, wanted ones that are missing come. */
  ghost function Desired(current: seq<string>, managed: seq<string>, wanted: seq<string>): seq<string> {
    L.Desired(current, managed, wanted, KeyOf)
  }

  /** The wanted entries that nobody else listed before. */
  ghost function Owned(current: seq<string>, managed: seq<string>, wanted: seq<string>): seq<string> {
    L.Owned(current, managed, wanted, KeyOf)
  }

  /** The entries of everyone but the controller. */
  ghost function UserView(current: seq<string>, managed: seq<string>): seq<string> {
    L.UserView(current, managed, KeyOf)
  }

  method DesiredSourceRanges(current: seq<string>, previouslyManaged: seq<string>, wanted: seq<string>)
    returns (result: seq<string>, changed: bool)
    ensures result == Desired(current, previouslyManaged, wanted)
    ensures changed <==> result != current
  {
    result := [];
    ghost var drop := Networks(previouslyManaged) - Networks(wanted);
    for i := 0 to |current|
      invariant result == L.Without(current[..i], KeyOf, drop)
    {
      var c := current[i];
      ContainsCidrIsMembership(previouslyManaged, c);
      ContainsCidrIsMembership(wanted, c);
      assert current[..i + 1][..i] == current[..i];
      if ContainsCidr(previouslyManaged, c) && !ContainsCidr(wanted, c) {
        continue;
      }
      result := result + [c];
    }
    ghost var kept := result;
    assert current[..|current|] == current;
    for i := 0 to |wanted|
      invariant result == L.AppendMissing(kept, KeyOf, wanted[..i])
    {
      ContainsCidrIsMembership(result, wanted[i]);
      assert wanted[..i + 1][..i] == wanted[..i];
      if !ContainsCidr(result, wanted[i]) {
        result := result + [wanted[i]];
      }
    }
    assert wanted[..|wanted|] == wanted;
    changed := current != result;
  }

  method OwnedEntries(current: seq<string>, previouslyManaged: seq<string>, wanted: seq<string>)
    returns (owned: seq<string>)
    ensures owned == Owned(current, previouslyManaged, wanted)
  {
    owned := [];
    ghost var drop := Networks(current) - Networks(previouslyManaged);
    for i := 0 to |wanted|
      invariant owned == L.Without(wanted[..i], KeyOf, drop)
    {
      var w := wanted[i];
      ContainsCidrIsMembership(current, w);
      ContainsCidrIsMembership(previouslyManaged, w);
      assert wanted[..i + 1][..i] == wanted[..i];
      if ContainsCidr(current, w) && !ContainsCidr(previouslyManaged, w) {
        continue;
      }
      owned := owned + [w];
    }
    assert wanted[..|wanted|] == wanted;
  }

  // ---------- Ownership ----------

  /** One step of the controller keeps the entries of everyone else, and their order, whatever came before. */
  lemma UserViewConserved(current: seq<string>, managed: seq<string>, wanted: seq<string>)
    ensures UserView(Desired(current, managed, wanted), Owned(current, managed, wanted))
            == UserView(current, managed)
  {
    L.UserViewConserved(current, managed, wanted, KeyOf);
  }

  /** The networks of the new list are those that others listed and those that are wanted. */
  lemma DesiredNetworks(current: seq<string>, managed: seq<string>, wanted: seq<string>)
    ensures Networks(Desired(current, managed, wanted))
            == (Networks(current) - Networks(managed)) + Networks(wanted)
  {
    L.DesiredKeys(current, managed, wanted, KeyOf);
  }

  /** What stays is a prefix of the new list; no entry after it repeats a network listed earlier. */
  lemma DesiredAppendsOnce(current: seq<string>, managed: seq<string>, wanted: seq<string>)
    ensures var kept := L.Without(current, KeyOf, Networks(managed) - Networks(wanted));
            var r := Desired(current, managed, wanted);
            kept <= r && forall i, j :: |kept| <= j < |r| && 0 <= i < j ==> !SameCidr(r[i], r[j])
  {
    var kept := L.Without(current, KeyOf, Networks(managed) - Networks(wanted));
    var r := Desired(current, managed, wanted);
    L.AppendMissingShape(kept, KeyOf, wanted);
    forall i, j | |kept| <= j < |r| && 0 <= i < j
      ensures !SameCidr(r[i], r[j])
    {
      SameCidrIsKeyEquality(r[i], r[j]);
    }
  }

  /** The controller owns exactly the wanted networks that nobody else lists. */
  lemma OwnedNetworks(current: seq<string>, managed: seq<string>, wanted: seq<string>)
    ensures Networks(Owned(current, managed, wanted)) == Networks(wanted) - Networks(UserView(current, managed))
  {
    L.OwnedKeys(current, managed, wanted, KeyOf);
  }

  /** Wanting nothing gives the list back as everyone else left it, and owns nothing. */
  lemma WantingNothingRestoresUserView(current: seq<string>, managed: seq<string>)
    ensures Desired(current, managed, []) == UserView(current, managed)
    ensures Owned(current, managed, []) == []
  {
    assert Networks(managed) - Networks([]) == Networks(managed);
  }

  // ---------- The bookkeeping annotation ----------

  /** The trimmed parts that are not empty. */
  function CleanParts(parts: seq<string>, trim: string -> string): seq<string> {
    if parts == [] then []
    else
      var r := trim(parts[|parts| - 1]);
      CleanParts(parts[..|parts| - 1], trim) + if r != "" then [r] else []
  }

  /** The owned entries that an annotation value records. */
  function Managed(annotation: Option<string>): seq<string> {
    if annotation.None? || annotation.value == "" then [] else CleanParts(Split(annotation.value, ','), TrimSpace)
  }

  method ManagedSourceRanges(annotation: Option<string>) returns (ranges: seq<string>)
    ensures ranges == Managed(annotation)
  {
    ranges := [];
    if annotation.None? || annotation.value == "" {
      return;
    }
    var parts := Split(annotation.value, ',');
    for i := 0 to |parts|
      invariant ranges == CleanParts(parts[..i], TrimSpace)
    {
      assert parts[..i + 1][..i] == parts[..i];
      var r := TrimSpace(parts[i]);
      if r != "" {
        ranges := ranges + [r];
      }
    }
    assert parts[..|parts|] == parts;
  }

  /** One entry, in whatever white space it stands, is read as that entry, and a blank one as nothing. */
  lemma ManagedOne(before: string, c: string, after: string)
    requires AllSpace(before) && AllSpace(after) && IsTrimmed(c) && ',' !in before + c + after
    ensures Managed(Some(before + c + after)) == if c == "" then [] else [c]
  {
    var text := before + c + after;
    TrimSpaceExactly(before, c, after);
    SplitWhole(text, ',');
    var parts := [text];
    assert parts[..0] == [] && CleanParts(parts, TrimSpace) == [] + if c != "" then [c] else [];
    if text == "" {
      assert c == "";
    }
  }

  /** A comma separates what stands on its left from what stands on its right. */
  lemma ManagedConcat(text: string, more: string)
    ensures Managed(Some(text + "," + more)) == Managed(Some(text)) + Managed(Some(more))
  {
    SplitConcat(text, more, ',');
    CleanPartsConcat(Split(text, ','), Split(more, ','), TrimSpace);
    BlankIsNoEntry();
  }

  lemma BlankIsNoEntry()
    ensures CleanParts(Split("", ','), TrimSpace) == []
  {
    assert [""][..0] == [] && TrimSpace("") == "";
  }

  lemma {:induction false} CleanPartsConcat(parts: seq<string>, more: seq<string>, trim: string -> string)
    ensures CleanParts(parts + more, trim) == CleanParts(parts, trim) + CleanParts(more, trim)
  {
    if more == [] {
      assert parts + more == parts;
    } else {
      assert (parts + more)[..|parts + more| - 1] == parts + more[..|more| - 1];
      CleanPartsConcat(parts, more[..|more| - 1], trim);
    }
  }

  /** Text that survives being joined, split and trimmed. */
  predicate CleanEntry(c: string) {
    c != "" && ',' !in c && TrimSpace(c) == c
  }

  predicate Clean(list: seq<string>) {
    forall c <- list :: CleanEntry(c)
  }

  lemma {:induction false} CleanPartsIdentity(list: seq<string>, trim: string -> string)
    requires forall i :: 0 <= i < |list| ==> list[i] != "" && trim(list[i]) == list[i]
    ensures CleanParts(list, trim) == list
  {
    if list != [] {
      CleanPartsIdentity(list[..|list| - 1], trim);
    }
  }

  lemma JoinEmpty(list: seq<string>)
    requires list != [] ==> list[0] != ""
    ensures Join(list, ',') == "" <==> list == []
  {
  }

  /** Reading the annotation gives back the list that was written. */
  lemma AnnotationRoundTrip(list: seq<string>)
    requires Clean(list)
    ensures Managed(Some(Join(list, ','))) == list
    ensures Join(list, ',') == "" <==> list == []
  {
    forall i | 0 <= i < |list|
      ensures list[i] != "" && ',' !in list[i] && TrimSpace(list[i]) == list[i]
    {
      assert CleanEntry(list[i]);
    }
    CleanPartsIdentity(list, TrimSpace);
    JoinEmpty(list);
    if list != [] {
      SplitJoin(list, ',');
    }
  }

  // ---------- One step on the Service ----------

  /** The two fields of the Service that the controller writes. */
  datatype ServiceState = ServiceState(ranges: seq<string>, annotation: Option<string>)

  /** The annotation text for a list of owned entries; no entries means no annotation. */
  function AnnotationFor(owned: seq<string>): Option<string> {
    var text := Join(owned, ',');
    if text == "" then None else Some(text)
  }

  ghost function Step(s: ServiceState, wanted: seq<string>): ServiceState {
    var managed := Managed(s.annotation);
    ServiceState(Desired(s.ranges, managed, wanted), AnnotationFor(Owned(s.ranges, managed, wanted)))
  }

  /** The test that guards the patch. */
  ghost predicate NeedsPatch(s: ServiceState, wanted: seq<string>) {
    var managed := Managed(s.annotation);
    var text := Join(Owned(s.ranges, managed, wanted), ',');
    || Desired(s.ranges, managed, wanted) != s.ranges
    || s.annotation.GetOr("") != text
    || (text == "" && s.annotation.Some?)
  }

  ghost function View(s: ServiceState): seq<string> {
    UserView(s.ranges, Managed(s.annotation))
  }

  /** No patch is sent exactly when the step changes nothing. */
  lemma NeedsPatchExactly(s: ServiceState, wanted: seq<string>)
    ensures NeedsPatch(s, wanted) <==> Step(s, wanted) != s
  {
    AnnotationChangedExactly(s.annotation, Join(Owned(s.ranges, Managed(s.annotation), wanted), ','));
  }

  /** With nothing wanted, a patch is needed exactly when there is an annotation, whatever it says. */
  lemma NothingWantedNeedsPatchExactly(s: ServiceState)
    ensures NeedsPatch(s, []) <==> s.annotation.Some?
  {
    var managed := Managed(s.annotation);
    WantingNothingRestoresUserView(s.ranges, managed);
    if managed == [] {
      L.WithoutNothing(s.ranges, KeyOf, Networks(managed));
    }
  }

  lemma AnnotationChangedExactly(annotation: Option<string>, text: string)
    ensures annotation.GetOr("") != text || (text == "" && annotation.Some?) <==>
            annotation != if text == "" then None else Some(text)
  {
  }

  lemma StepRecordsOwned(s: ServiceState, wanted: seq<string>)
    requires Clean(wanted)
    ensures Managed(Step(s, wanted).annotation) == Owned(s.ranges, Managed(s.annotation), wanted)
    ensures Clean(Owned(s.ranges, Managed(s.annotation), wanted))
  {
    var managed := Managed(s.annotation);
    L.OwnedKeys(s.ranges, managed, wanted, KeyOf);
    var owned := Owned(s.ranges, managed, wanted);
    AnnotationRoundTrip(owned);
  }

  /** Conservation, through the annotation text. */
  lemma StepKeepsView(s: ServiceState, wanted: seq<string>)
    requires Clean(wanted)
    ensures View(Step(s, wanted)) == View(s)
  {
    StepRecordsOwned(s, wanted);
    UserViewConserved(s.ranges, Managed(s.annotation), wanted);
  }

  /** After one step a second with the same wanted entries sends no patch. */
  lemma SecondStepSendsNoPatch(s: ServiceState, wanted: seq<string>)
    requires Clean(wanted)
    ensures !NeedsPatch(Step(s, wanted), wanted)
  {
    StepRecordsOwned(s, wanted);
    L.SecondStepIsIdentity(s.ranges, Managed(s.annotation), wanted, KeyOf);
    NeedsPatchExactly(Step(s, wanted), wanted);
  }

  // ---------- Runs of the controller and users ----------

  datatype Event = ControllerRun(wanted: seq<string>) | UserEdit(ranges: seq<string>, annotation: Option<string>)

  ghost function After(s: ServiceState, events: seq<Event>): ServiceState {
    if events == [] then s
    else
      var before := After(s, events[..|events| - 1]);
      match events[|events| - 1]
      case ControllerRun(wanted) => Step(before, wanted)
      case UserEdit(ranges, annotation) => ServiceState(ranges, annotation)
  }

  predicate CleanRun(events: seq<Event>) {
    forall e <- events :: e.ControllerRun? ==> Clean(e.wanted)
  }

  /** The list as the last user edit left it, or as it was at the start. */
  ghost function LastUserView(s: ServiceState, events: seq<Event>): seq<string> {
    if events == [] then View(s)
    else match events[|events| - 1]
      case ControllerRun(_) => LastUserView(s, events[..|events| - 1])
      case UserEdit(ranges, annotation) => View(ServiceState(ranges, annotation))
  }

  /** Over any run the users see their entries as they last left them. */
  lemma {:induction false} RunKeepsUserView(s: ServiceState, events: seq<Event>)
    requires CleanRun(events)
    ensures View(After(s, events)) == LastUserView(s, events)
  {
    if events != [] {
      var init, last := events[..|events| - 1], events[|events| - 1];
      assert forall e <- init :: e in events;
      RunKeepsUserView(s, init);
      if last.ControllerRun? {
        assert last in events;
        StepKeepsView(After(s, init), last.wanted);
      }
    }
  }

  /** Turning the feature off at the end of any run leaves exactly the users' entries and no annotation. */
  lemma TurningOffRestoresUserView(s: ServiceState, events: seq<Event>)
    requires CleanRun(events)
    ensures After(s, events + [ControllerRun([])]) == ServiceState(LastUserView(s, events), None)
  {
    var events' := events + [ControllerRun([])];
    assert events'[..|events'| - 1] == events;
    RunKeepsUserView(s, events);
    var before := After(s, events);
    WantingNothingRestoresUserView(before.ranges, Managed(before.annotation));
  }

  // ---------- The addresses a load balancer connects from ----------

  type U32 = n: nat | n < 0x1_0000_0000

  /** A `net.IP`: missing, four bytes, or sixteen bytes. */
  datatype NetIP = NilIP | Bytes4(v: U32) | Bytes16(high: nat, low: U32)

  /** `To4`: sixteen bytes hold an IPv4 address when the first twelve are the mapped prefix. */
  function To4(ip: NetIP): Option<U32> {
    match ip
    case NilIP => None
    case Bytes4(v) => Some(v)
    case Bytes16(high, low) => if high == 0xFFFF then Some(low) else None
  }

  datatype LbAddresses = LbAddresses(publicEnabled: bool, publicIPv4: NetIP, privateNet: seq<NetIP>)

  predicate IsUsable(ip: NetIP) {
    To4(ip).Some? && To4(ip).value != 0
  }

  /** Four bytes, or the sixteen of the mapped address (section 2.5.5.2 of RFC 4291). */
  ghost predicate IsIPv4(ip: NetIP, v: U32) {
    ip == Bytes4(v) || ip == Bytes16(0xFFFF, v)
  }

  /** The IPv4 addresses the load balancer may use as a source. */
  ghost predicate UsesSource(lb: LbAddresses, v: U32) {
    v != 0 && ((lb.publicEnabled && IsIPv4(lb.publicIPv4, v)) || exists ip :: ip in lb.privateNet && IsIPv4(ip, v))
  }

  function HostCidr(ip: NetIP): string
    requires IsUsable(ip)
  {
    FormatIPv4(To4(ip).value) + "/32"
  }

  /** The usable addresses of a list, as single-address networks. */
  function HostCidrs(ips: seq<NetIP>): seq<string> {
    if ips == [] then []
    else
      var ip := ips[|ips| - 1];
      HostCidrs(ips[..|ips| - 1]) + if IsUsable(ip) then [HostCidr(ip)] else []
  }

  /** The public address if it is in use, and all private ones. */
  function Candidates(lb: LbAddresses): seq<NetIP> {
    (if lb.publicEnabled then [lb.publicIPv4] else []) + lb.privateNet
  }

  function SourceCidrs(lb: LbAddresses): seq<string> {
    HostCidrs(Candidates(lb))
  }

  method LbSourceCidrs(lb: LbAddresses) returns (cidrs: seq<string>)
    ensures cidrs == SourceCidrs(lb)
  {
    cidrs := [];
    ghost var all := Candidates(lb);
    if lb.publicEnabled {
      assert all[..1][..0] == [];
      if IsUsable(lb.publicIPv4) {
        cidrs := cidrs + [HostCidr(lb.publicIPv4)];
      }
    }
    ghost var start := if lb.publicEnabled then 1 else 0;
    for i := 0 to |lb.privateNet|
      invariant cidrs == HostCidrs(all[..start + i])
    {
      var ip := lb.privateNet[i];
      assert all[..start + i + 1][..start + i] == all[..start + i];
      if IsUsable(ip) {
        cidrs := cidrs + [HostCidr(ip)];
      }
    }
    assert all[..start + |lb.privateNet|] == all;
  }

  lemma HostCidrReadsBack(ip: NetIP)
    requires IsUsable(ip)
    ensures var s := HostCidr(ip);
            && CleanEntry(s) && ParsePrefix(s) == Some(Prefix(Addr(V4, To4(ip).value), 32))
  {
    assert Decimal(32) == "32" by {
      assert Decimal(3) == "3";
    }
    assert HostCidr(ip) == FormatPrefix4(To4(ip).value, 32);
    FormatParsePrefix4(To4(ip).value, 32);
  }

  lemma {:induction false} HostCidrsMembers(ips: seq<NetIP>, c: string)
    ensures c in HostCidrs(ips) <==> exists ip :: ip in ips && IsUsable(ip) && c == HostCidr(ip)
  {
    if ips != [] {
      var init, last := ips[..|ips| - 1], ips[|ips| - 1];
      HostCidrsMembers(init, c);
      assert ips == init + [last];
    }
  }

  /** What a load balancer contributes survives the annotation text. */
  lemma SourceCidrsAreClean(lb: LbAddresses)
    ensures Clean(SourceCidrs(lb))
  {
    var ips := Candidates(lb);
    forall c | c in SourceCidrs(lb)
      ensures CleanEntry(c)
    {
      HostCidrsMembers(ips, c);
      var ip :| ip in ips && IsUsable(ip) && c == HostCidr(ip);
      HostCidrReadsBack(ip);
    }
  }

  /** A readable CIDR whose network holds the address. */
  predicate CidrAdmits(c: string, a: Addr) {
    var p := ParsePrefix(TrimSpace(c));
    p.Some? && p.value.bits <= Width(p.value.addr.family) && InNetwork(a, p.value)
  }

  lemma HostCidrAdmitsOne(ip: NetIP, a: Addr)
    requires IsUsable(ip)
    ensures CidrAdmits(HostCidr(ip), a) <==> a == Addr(V4, To4(ip).value)
  {
    HostCidrReadsBack(ip);
    FullLengthHoldsOne(a, Prefix(Addr(V4, To4(ip).value), 32));
  }

  lemma CandidateIsSource(lb: LbAddresses, v: U32)
    ensures UsesSource(lb, v) <==> exists ip :: ip in Candidates(lb) && IsUsable(ip) && To4(ip).value == v
  {
    assert forall ip :: IsIPv4(ip, v) <==> To4(ip) == Some(v);
    if UsesSource(lb, v) {
      var ip :| ip in Candidates(lb) && IsIPv4(ip, v);
      assert IsUsable(ip);
    }
  }

  lemma {:induction false} SomeEntryAdmits(ips: seq<NetIP>, a: Addr)
    ensures (exists c :: c in HostCidrs(ips) && CidrAdmits(c, a)) <==>
            (exists ip :: ip in ips && IsUsable(ip) && a == Addr(V4, To4(ip).value))
  {
    if exists c :: c in HostCidrs(ips) && CidrAdmits(c, a) {
      var c :| c in HostCidrs(ips) && CidrAdmits(c, a);
      HostCidrsMembers(ips, c);
      var ip :| ip in ips && IsUsable(ip) && c == HostCidr(ip);
      HostCidrAdmitsOne(ip, a);
    }
    if exists ip :: ip in ips && IsUsable(ip) && a == Addr(V4, To4(ip).value) {
      var ip :| ip in ips && IsUsable(ip) && a == Addr(V4, To4(ip).value);
      HostCidrsMembers(ips, HostCidr(ip));
      HostCidrAdmitsOne(ip, a);
    }
  }

  /** The entries admit exactly the IPv4 addresses the load balancer connects from. */
  lemma SourceCidrsAdmitExactly(lb: LbAddresses, a: Addr)
    ensures (exists c :: c in SourceCidrs(lb) && CidrAdmits(c, a)) <==>
            a.family == V4 && a.value < 0x1_0000_0000 && UsesSource(lb, a.value)
  {
    SomeEntryAdmits(Candidates(lb), a);
    if a.family == V4 && a.value < 0x1_0000_0000 {
      CandidateIsSource(lb, a.value);
    }
  }

  /** Each entry admits some address. */
  lemma SourceCidrAdmitsSome(lb: LbAddresses, c: string) returns (a: Addr)
    requires c in SourceCidrs(lb)
    ensures CidrAdmits(c, a)
  {
    HostCidrsMembers(Candidates(lb), c);
    var ip :| ip in Candidates(lb) && IsUsable(ip) && c == HostCidr(ip);
    a := Addr(V4, To4(ip).value);
    HostCidrAdmitsOne(ip, a);
  }

  /** Entries that compare equal admit the same addresses. */
  lemma SameKeyAdmits(c: string, c': string, a: Addr)
    requires KeyOf(c) == KeyOf(c') && CidrAdmits(c, a)
    ensures CidrAdmits(c', a)
  {
    ParsedPrefixIsValid(TrimSpace(c));
    ParsedPrefixIsValid(TrimSpace(c'));
    SameMaskSameNetwork(ParsePrefix(TrimSpace(c)).value, ParsePrefix(TrimSpace(c')).value, a);
  }

  lemma SameMaskSameNetwork(p: Prefix, q: Prefix, a: Addr)
    requires ValidPrefix(p) && ValidPrefix(q) && Masked(p) == Masked(q)
    ensures InNetwork(a, p) <==> InNetwork(a, q)
  {
    NetworkIsBlock(a, p);
    NetworkIsBlock(a, q);
  }

  /** When no patch is needed, the list has every wanted network. */
  lemma WantedIsListed(s: ServiceState, wanted: seq<string>, c: string) returns (c': string)
    requires !NeedsPatch(s, wanted) && c in wanted
    ensures c' in s.ranges && KeyOf(c) == KeyOf(c')
  {
    DesiredNetworks(s.ranges, Managed(s.annotation), wanted);
    assert KeyOf(c) in Networks(wanted);
    c' :| c' in s.ranges && KeyOf(c') == KeyOf(c);
  }
}

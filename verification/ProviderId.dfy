/**
 * Provider IDs of nodes (internal/providerid/providerid.go): printing, and parsing of every
 * format that was ever used.
 */
module ProviderId {
  import opened Basics
  import opened Text

  const PREFIX_CLOUD := "hcloud://"
  const PREFIX_ROBOT_LEGACY := "hcloud://bm-"
  const PREFIX_ROBOT_NEW := "hrobot://"

  datatype ParseError = UnknownPrefix | MissingServerId | InvalidServerId

  datatype ServerId = ServerId(id: Int64, isCloudServer: bool)

  /** Reads the server ID from a provider ID; the legacy prefix is tried before the cloud prefix it extends. */
  function ToServerId(providerId: string): Result<ServerId, ParseError> {
    if HasPrefix(providerId, PREFIX_ROBOT_NEW) then
      ParseServerId(RemoveAll(providerId, PREFIX_ROBOT_NEW), false)
    else if HasPrefix(providerId, PREFIX_ROBOT_LEGACY) then
      ParseServerId(RemoveAll(providerId, PREFIX_ROBOT_LEGACY), false)
    else if HasPrefix(providerId, PREFIX_CLOUD) then
      ParseServerId(RemoveAll(providerId, PREFIX_CLOUD), true)
    else
      Err(UnknownPrefix)
  }

  function ParseServerId(idString: string, isCloudServer: bool): Result<ServerId, ParseError> {
    if idString == "" then Err(MissingServerId)
    else match ParseInt(idString)
      case None => Err(InvalidServerId)
      case Some(id) => Ok(ServerId(id, isCloudServer))
  }

  function FromCloudServerId(serverId: Int64): string {
    PREFIX_CLOUD + FormatInt(serverId)
  }

  /** A node that already has a provider ID keeps it. */
  function GetBaremetalProviderId(nodeProviderId: string, serverNumber: Int64, useHrobotProviderId: bool): string {
    if nodeProviderId != "" then nodeProviderId
    else if useHrobotProviderId then PREFIX_ROBOT_NEW + FormatInt(serverNumber)
    else PREFIX_ROBOT_LEGACY + FormatInt(serverNumber)
  }

  /** A node's own provider ID, of whatever form, is never replaced; without one the form is chosen. */
  lemma OwnIdIsKept(nodeProviderId: string, serverNumber: Int64, useHrobotProviderId: bool)
    ensures var id := GetBaremetalProviderId(nodeProviderId, serverNumber, useHrobotProviderId);
            if nodeProviderId != "" then id == nodeProviderId
            else id == (if useHrobotProviderId then "hrobot://" else "hcloud://bm-") + FormatInt(serverNumber)
  {
  }

  /** Replace-all removes exactly the prefix from a printed ID. */
  lemma RemoveAllStripsPrefix(prefix: string, n: int)
    requires prefix != [] && prefix[0] == 'h'
    ensures RemoveAll(prefix + FormatInt(n), prefix) == FormatInt(n)
  {
    var s := prefix + FormatInt(n);
    assert s[|prefix|..] == FormatInt(n);
    assert 'h' !in FormatInt(n);
    RemoveAllAbsent(FormatInt(n), prefix);
  }

  lemma DiffersAt(s: string, prefix: string, i: nat)
    requires i < |s| && i < |prefix| && s[i] != prefix[i]
    ensures !HasPrefix(s, prefix)
  {
  }

  lemma CloudRoundTrip(id: Int64)
    ensures ToServerId(FromCloudServerId(id)) == Ok(ServerId(id, true))
  {
    var s := FromCloudServerId(id);
    DiffersAt(s, PREFIX_ROBOT_NEW, 1);
    assert s[9] == FormatInt(id)[0] && FormatInt(id)[0] in FormatInt(id);
    DiffersAt(s, PREFIX_ROBOT_LEGACY, 9);
    RemoveAllStripsPrefix(PREFIX_CLOUD, id);
    ParseFormatInt(id);
  }

  lemma BaremetalRoundTrip(number: Int64, useHrobotProviderId: bool)
    ensures ToServerId(GetBaremetalProviderId("", number, useHrobotProviderId)) == Ok(ServerId(number, false))
  {
    var s := GetBaremetalProviderId("", number, useHrobotProviderId);
    if useHrobotProviderId {
      RemoveAllStripsPrefix(PREFIX_ROBOT_NEW, number);
    } else {
      DiffersAt(s, PREFIX_ROBOT_NEW, 1);
      RemoveAllStripsPrefix(PREFIX_ROBOT_LEGACY, number);
    }
    ParseFormatInt(number);
  }

  /** The second letter tells the two bare-metal forms apart. */
  lemma BaremetalForm(number: Int64, useHrobotProviderId: bool)
    ensures var s := GetBaremetalProviderId("", number, useHrobotProviderId);
            |s| > 1 && (s[1] == 'r' <==> useHrobotProviderId)
  {
  }

  /** No cloud server and dedicated server, and no two servers of one kind, print the same provider ID. */
  lemma PrintedIdsNeverCollide(cloud: Int64, cloud': Int64, number: Int64, number': Int64, form: bool, form': bool)
    ensures FromCloudServerId(cloud) != GetBaremetalProviderId("", number, form)
    ensures FromCloudServerId(cloud) == FromCloudServerId(cloud') ==> cloud == cloud'
    ensures GetBaremetalProviderId("", number, form) == GetBaremetalProviderId("", number', form') ==>
              number == number' && form == form'
  {
    CloudRoundTrip(cloud);
    CloudRoundTrip(cloud');
    BaremetalRoundTrip(number, form);
    BaremetalRoundTrip(number', form');
    BaremetalForm(number, form);
    BaremetalForm(number', form');
  }

  /** A node is left out of the load balancer, without an error, only for a text with none of the prefixes. */
  lemma UnknownPrefixExactly(providerId: string)
    ensures ToServerId(providerId) == Err(UnknownPrefix) <==>
            !HasPrefix(providerId, PREFIX_ROBOT_NEW) && !HasPrefix(providerId, PREFIX_CLOUD)
  {
    if HasPrefix(providerId, PREFIX_ROBOT_LEGACY) {
      assert PREFIX_CLOUD == PREFIX_ROBOT_LEGACY[..|PREFIX_CLOUD|];
      assert providerId[..|PREFIX_CLOUD|] == PREFIX_ROBOT_LEGACY[..|PREFIX_CLOUD|];
    }
  }

  // ---------- Stripping every occurrence ----------

  /** The prefix of a kind of provider ID. */
  datatype Kind = RobotNew | RobotLegacy | Cloud

  function PrefixOf(kind: Kind): string {
    match kind
    case RobotNew => PREFIX_ROBOT_NEW
    case RobotLegacy => PREFIX_ROBOT_LEGACY
    case Cloud => PREFIX_CLOUD
  }

  /** What stands after the cloud prefix does not make it the legacy prefix. */
  predicate TakesBranch(kind: Kind, rest: string) {
    kind.Cloud? ==> !HasPrefix(rest, "bm-")
  }

  lemma LegacyExtendsCloud(rest: string)
    ensures HasPrefix(PREFIX_CLOUD + rest, PREFIX_ROBOT_LEGACY) ==> HasPrefix(rest, "bm-")
  {
    var s := PREFIX_CLOUD + rest;
    assert s[|PREFIX_CLOUD|..] == rest && PREFIX_ROBOT_LEGACY[|PREFIX_CLOUD|..] == "bm-";
    if HasPrefix(s, PREFIX_ROBOT_LEGACY) {
      assert s[..|PREFIX_ROBOT_LEGACY|] == PREFIX_ROBOT_LEGACY;
      assert rest[..3] == PREFIX_ROBOT_LEGACY[|PREFIX_CLOUD|..];
    }
  }

  lemma BranchTaken(kind: Kind, rest: string)
    requires TakesBranch(kind, rest)
    ensures ToServerId(PrefixOf(kind) + rest) == ParseServerId(RemoveAll(rest, PrefixOf(kind)), kind.Cloud?)
  {
    var prefix := PrefixOf(kind);
    var s := prefix + rest;
    assert s[|prefix|..] == rest;
    assert RemoveAll(s, prefix) == RemoveAll(rest, prefix);
    if !kind.RobotNew? {
      DiffersAt(s, PREFIX_ROBOT_NEW, 1);
    }
    LegacyExtendsCloud(rest);
  }

  /** A text that holds a prefix is not a number. */
  lemma PrefixIsNoNumber(kind: Kind, rest: string)
    requires Occurs(rest, PrefixOf(kind))
    ensures ParseServerId(rest, kind.Cloud?) == Err(InvalidServerId)
  {
    var i :| 0 <= i <= |rest| && PrefixOf(kind) <= rest[i..];
    assert rest[i] == rest[i..][0] == PrefixOf(kind)[0] == 'h';
    if ParseInt(rest).Some? {
      IntHasNoLetters(rest, i);
    }
  }

  /**
   * Stripping every occurrence of the prefix, and not only the first, makes a difference for exactly
   * the texts that repeat the prefix and are accepted: stripped once, such a text is no number.
   */
  lemma StrippingOnceExactly(kind: Kind, rest: string)
    requires TakesBranch(kind, rest)
    ensures !Occurs(rest, PrefixOf(kind)) ==>
              ToServerId(PrefixOf(kind) + rest) == ParseServerId(rest, kind.Cloud?)
    ensures ToServerId(PrefixOf(kind) + rest).Ok? ==>
              (ToServerId(PrefixOf(kind) + rest) == ParseServerId(rest, kind.Cloud?) <==> !Occurs(rest, PrefixOf(kind)))
  {
    BranchTaken(kind, rest);
    RemoveAllExactly(rest, PrefixOf(kind));
    if Occurs(rest, PrefixOf(kind)) {
      PrefixIsNoNumber(kind, rest);
    }
  }

  /**
   * A text that stripping once would reject is accepted exactly when the prefix repeats among the parts
   * of a number.
   */
  lemma RepeatedPrefixExactly(kind: Kind, rest: string)
    requires TakesBranch(kind, rest)
    ensures ToServerId(PrefixOf(kind) + rest).Ok? && ParseServerId(rest, kind.Cloud?).Err? <==>
            Occurs(rest, PrefixOf(kind)) && ParseInt(RemoveAll(rest, PrefixOf(kind))).Some?
  {
    BranchTaken(kind, rest);
    StrippingOnceExactly(kind, rest);
    if Occurs(rest, PrefixOf(kind)) {
      PrefixIsNoNumber(kind, rest);
    }
  }

  /** For one, every printed cloud ID is accepted with its prefix written twice. */
  lemma RepeatedPrefixIsAccepted(id: Int64)
    ensures ToServerId(PREFIX_CLOUD + FromCloudServerId(id)) == Ok(ServerId(id, true))
    ensures PREFIX_CLOUD + FromCloudServerId(id) != FromCloudServerId(id)
  {
    var rest := FromCloudServerId(id);
    assert rest[0] == 'h';
    BranchTaken(Cloud, rest);
    RemoveAllStripsPrefix(PREFIX_CLOUD, id);
    ParseFormatInt(id);
  }
}

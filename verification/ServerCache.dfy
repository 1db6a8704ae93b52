/**
 * The cache of all cloud servers (internal/hcops/server.go): two indexes that are rebuilt on a miss
 * or when they are too old.
 */
module ServerCache {
  import opened Basics
  import opened Clocks

  /** A network that a server is attached to; the address may be missing. */
  datatype PrivateNet = PrivateNet(networkId: int, ip: Option<string>)

  datatype Server = Server(name: string, privateNet: seq<PrivateNet>)

  datatype CacheError = NotFound | LoadFailed

  /** Ten minutes, in nanoseconds. */
  const DEFAULT_MAX_AGE := 600_000_000_000

  // ---------- Looking up by scanning ----------

  /** A configured network hides the addresses in other networks. */
  predicate Considered(network: Option<int>, n: PrivateNet) {
    network.None? || n.networkId == network.value
  }

  predicate HasIP(network: Option<int>, nets: seq<PrivateNet>, ip: string) {
    exists n <- nets :: Considered(network, n) && n.ip == Some(ip)
  }

  datatype Key = ByName(name: string) | ByPrivateIP(ip: string)

  predicate Matches(network: Option<int>, server: Server, key: Key) {
    match key
    case ByName(name) => server.name == name
    case ByPrivateIP(ip) => HasIP(network, server.privateNet, ip)
  }

  /** The last server of a list that matches. */
  function Scan(network: Option<int>, list: seq<Server>, key: Key): Option<Server> {
    if list == [] then None
    else if Matches(network, list[|list| - 1], key) then Some(list[|list| - 1])
    else Scan(network, list[..|list| - 1], key)
  }

  /** The scan finds the last server that matches. */
  lemma {:induction false} ScanFindsLast(network: Option<int>, list: seq<Server>, key: Key) returns (i: int)
    ensures -1 <= i < |list| && (i >= 0 <==> Scan(network, list, key).Some?)
    ensures i >= 0 ==> Matches(network, list[i], key) && Scan(network, list, key) == Some(list[i])
    ensures forall j :: i < j < |list| ==> !Matches(network, list[j], key)
  {
    i := |list| - 1;
    if list != [] && !Matches(network, list[i], key) {
      i := ScanFindsLast(network, list[..i], key);
    }
  }

  // ---------- What a lookup is for ----------

  ghost predicate IsLastNamed(list: seq<Server>, i: nat, name: string) {
    i < |list| && list[i].name == name && forall j :: i < j < |list| ==> list[j].name != name
  }

  /** The server is attached with the address, to the configured network if there is one. */
  ghost predicate HasAddressIn(network: Option<int>, server: Server, ip: string) {
    exists k :: 0 <= k < |server.privateNet| && server.privateNet[k].ip == Some(ip)
                && (network.Some? ==> server.privateNet[k].networkId == network.value)
  }

  ghost predicate IsLastWithAddress(network: Option<int>, list: seq<Server>, i: nat, ip: string) {
    && i < |list| && HasAddressIn(network, list[i], ip)
    && forall j :: i < j < |list| ==> !HasAddressIn(network, list[j], ip)
  }

  /**
   * The answer to a lookup is the last server of the list with the name, or with the address in the
   * configured network.
   */
  ghost predicate IsAnswer(network: Option<int>, list: seq<Server>, key: Key, answer: Option<Server>) {
    match (key, answer)
    case (ByName(name), Some(server)) => exists i: nat :: IsLastNamed(list, i, name) && list[i] == server
    case (ByName(name), None) => forall i :: 0 <= i < |list| ==> list[i].name != name
    case (ByPrivateIP(ip), Some(server)) =>
      exists i: nat :: IsLastWithAddress(network, list, i, ip) && list[i] == server
    case (ByPrivateIP(ip), None) => forall i :: 0 <= i < |list| ==> !HasAddressIn(network, list[i], ip)
  }

  lemma MatchesAddress(network: Option<int>, server: Server, ip: string)
    ensures Matches(network, server, ByPrivateIP(ip)) <==> HasAddressIn(network, server, ip)
  {
    if n :| n in server.privateNet && Considered(network, n) && n.ip == Some(ip) {
      var k :| 0 <= k < |server.privateNet| && server.privateNet[k] == n;
    }
  }

  /** The scan gives the answer to every lookup. */
  lemma ScanAnswers(network: Option<int>, list: seq<Server>, key: Key)
    ensures IsAnswer(network, list, key, Scan(network, list, key))
  {
    var i := ScanFindsLast(network, list, key);
    match key
    case ByName(name) =>
      assert i >= 0 ==> IsLastNamed(list, i, name);
    case ByPrivateIP(ip) =>
      forall j | 0 <= j < |list|
        ensures Matches(network, list[j], key) <==> HasAddressIn(network, list[j], ip)
      {
        MatchesAddress(network, list[j], ip);
      }
      assert i >= 0 ==> IsLastWithAddress(network, list, i, ip);
  }

  // ---------- The indexes ----------

  function IndexNames(list: seq<Server>): map<string, Server> {
    if list == [] then map[]
    else IndexNames(list[..|list| - 1])[list[|list| - 1].name := list[|list| - 1]]
  }

  function IndexNets(
    index: map<string, Server>, network: Option<int>, nets: seq<PrivateNet>, server: Server): map<string, Server>
  {
    if nets == [] then index
    else
      var before := IndexNets(index, network, nets[..|nets| - 1], server);
      var n := nets[|nets| - 1];
      if Considered(network, n) && n.ip.Some? then before[n.ip.value := server] else before
  }

  function IndexIPs(network: Option<int>, list: seq<Server>): map<string, Server> {
    if list == [] then map[]
    else
      var server := list[|list| - 1];
      IndexNets(IndexIPs(network, list[..|list| - 1]), network, server.privateNet, server)
  }

  function Lookup(index: map<string, Server>, key: string): Option<Server> {
    if key in index then Some(index[key]) else None
  }

  /** The name index answers as a scan for the last server with the name. */
  lemma {:induction false} NameIndexRefinesScan(network: Option<int>, list: seq<Server>, name: string)
    ensures Lookup(IndexNames(list), name) == Scan(network, list, ByName(name))
  {
    if list != [] {
      NameIndexRefinesScan(network, list[..|list| - 1], name);
    }
  }

  lemma {:induction false} IndexNetsAdds(
    index: map<string, Server>, network: Option<int>, nets: seq<PrivateNet>, server: Server, ip: string)
    ensures Lookup(IndexNets(index, network, nets, server), ip)
            == if HasIP(network, nets, ip) then Some(server) else Lookup(index, ip)
  {
    if nets != [] {
      var init, n := nets[..|nets| - 1], nets[|nets| - 1];
      IndexNetsAdds(index, network, init, server, ip);
      assert nets == init + [n];
    }
  }

  /** The address index answers as a scan for the last server with the address in the configured network. */
  lemma {:induction false} AddressIndexRefinesScan(network: Option<int>, list: seq<Server>, ip: string)
    ensures Lookup(IndexIPs(network, list), ip) == Scan(network, list, ByPrivateIP(ip))
  {
    if list != [] {
      var init, server := list[..|list| - 1], list[|list| - 1];
      AddressIndexRefinesScan(network, init, ip);
      IndexNetsAdds(IndexIPs(network, init), network, server.privateNet, server, ip);
    }
  }

  // ---------- The cache ----------

  /** The source of the list. */
  class ServerApi {
    var servers: seq<Server>
    /** How often a call failed. */
    ghost var faults: nat

    method All() returns (r: Result<seq<Server>, CacheError>)
      modifies this`faults
      ensures r.Ok? ==> r.value == servers && faults == old(faults)
      ensures r.Err? ==> r.error == LoadFailed && faults == old(faults) + 1
    {
      var fails: bool := *;
      if fails {
        faults := faults + 1;
        return Err(LoadFailed);
      }
      return Ok(servers);
    }
  }

  class AllServersCache {
    const api: ServerApi
    const clock: Clock
    const maxAge: int
    const network: Option<int>

    var lastRefresh: int
    var byPrivIP: map<string, Server>
    var byName: map<string, Server>

    /** The list of the last load, when it was loaded, and how many loads there were. */
    ghost var snapshot: seq<Server>
    ghost var loadedAt: int
    ghost var loads: nat

    ghost predicate Valid()
      reads this, clock
    {
      && clock.Valid() && maxAge <= MAX_DURATION
      && byName == IndexNames(snapshot) && byPrivIP == IndexIPs(network, snapshot)
      && (lastRefresh == ZERO_TIME || lastRefresh == loadedAt)
    }

    constructor (api: ServerApi, clock: Clock, maxAge: int, network: Option<int>)
      requires clock.Valid() && maxAge <= MAX_DURATION
      ensures Valid() && this.clock == clock && this.api == api && this.network == network
      ensures this.maxAge == if maxAge == 0 then DEFAULT_MAX_AGE else maxAge
      ensures snapshot == [] && lastRefresh == ZERO_TIME && loads == 0
    {
      this.api, this.clock, this.network := api, clock, network;
      this.maxAge := if maxAge == 0 then DEFAULT_MAX_AGE else maxAge;
      lastRefresh, byPrivIP, byName := ZERO_TIME, map[], map[];
      snapshot, loadedAt, loads := [], ZERO_TIME, 0;
    }

    /** What the indexes say about a key. */
    ghost function Answer(key: Key): Option<Server>
      reads this
    {
      Scan(network, snapshot, key)
    }

    method Find(key: Key) returns (found: Option<Server>)
      requires Valid()
      ensures found == Answer(key)
    {
      match key {
        case ByName(name) =>
          NameIndexRefinesScan(network, snapshot, name);
          return if name in byName then Some(byName[name]) else None;
        case ByPrivateIP(ip) =>
          AddressIndexRefinesScan(network, snapshot, ip);
          return if ip in byPrivIP then Some(byPrivIP[ip]) else None;
      }
    }

    method IsExpired() returns (expired: bool)
      requires Valid()
      modifies clock
      ensures Valid() && old(clock.now) <= clock.now
      ensures expired <==> clock.now > lastRefresh + maxAge
    {
      var now := clock.Read();
      expired := now > lastRefresh + maxAge;
    }

    /**
     * A hit answers from a list that is not older than the maximum age; otherwise the list is loaded,
     * and only a list loaded in this very call can deny a server. A failed load changes nothing. The
     * list is asked for only when the indexes have no answer or are too old.
     */
    method GetCache(key: Key) returns (r: Result<Server, CacheError>)
      requires Valid()
      modifies this, clock, api`faults
      ensures Valid() && old(clock.now) <= clock.now
      ensures r.Ok? ==> Answer(key) == Some(r.value) && IsAnswer(network, snapshot, key, Some(r.value))
      ensures r.Ok? && loads == old(loads) ==>
                && snapshot == old(snapshot) && loadedAt == old(loadedAt)
                && clock.now <= loadedAt + maxAge && old(lastRefresh) == loadedAt
      ensures r == Err(NotFound) ==>
                loads == old(loads) + 1 && Answer(key).None? && IsAnswer(network, snapshot, key, None)
      ensures r == Err(LoadFailed) ==> unchanged(this)
      ensures r == Err(LoadFailed) <==> api.faults != old(api.faults)
      ensures old(api.faults) <= api.faults
      ensures loads == old(loads) + 1 || api.faults != old(api.faults) ==>
                old(Answer(key)).None? || clock.now > old(lastRefresh) + maxAge
      ensures loads == old(loads) + 1 ==>
                snapshot == api.servers && old(clock.now) <= loadedAt <= clock.now && lastRefresh == loadedAt
      ensures loads == old(loads) || loads == old(loads) + 1
      ensures loads == old(loads) ==> unchanged(this)
      ensures r.Ok? && (old(Answer(key)).None? || old(lastRefresh) == ZERO_TIME) ==> loads == old(loads) + 1
    {
      var found := Find(key);
      if found.Some? {
        var expired := IsExpired();
        if !expired {
          ScanAnswers(network, snapshot, key);
          return Ok(found.value);
        }
      }
      var list := api.All();
      if list.Err? {
        return Err(list.error);
      }
      Rebuild(list.value);
      lastRefresh := clock.Read();
      loadedAt, loads := lastRefresh, loads + 1;
      found := Find(key);
      ScanAnswers(network, snapshot, key);
      return if found.Some? then Ok(found.value) else Err(NotFound);
    }

    /** Replaces both indexes by those of a new list. */
    method Rebuild(list: seq<Server>)
      modifies this`byName, this`byPrivIP, this`snapshot
      ensures snapshot == list
      ensures byName == IndexNames(list) && byPrivIP == IndexIPs(network, list)
    {
      byPrivIP, byName := map[], map[];
      for i := 0 to |list|
        invariant byName == IndexNames(list[..i]) && byPrivIP == IndexIPs(network, list[..i])
      {
        var srv := list[i];
        ghost var before := byPrivIP;
        for j := 0 to |srv.privateNet|
          invariant byName == IndexNames(list[..i])
          invariant byPrivIP == IndexNets(before, network, srv.privateNet[..j], srv)
        {
          var n := srv.privateNet[j];
          assert srv.privateNet[..j + 1][..j] == srv.privateNet[..j];
          if network.Some? && n.networkId != network.value {
            continue;
          }
          if n.ip.None? {
            continue;
          }
          byPrivIP := byPrivIP[n.ip.value := srv];
        }
        assert srv.privateNet[..|srv.privateNet|] == srv.privateNet;
        assert list[..i + 1][..i] == list[..i];
        byName := byName[srv.name := srv];
      }
      assert list[..|list|] == list;
      snapshot := list;
    }

    /** Makes the next lookup load the list. */
    method InvalidateCache()
      requires Valid()
      modifies this`lastRefresh
      ensures Valid() && lastRefresh == ZERO_TIME
      ensures clock.now > lastRefresh + maxAge
    {
      lastRefresh := ZERO_TIME;
    }
  }
}

# Model of the Hetzner Cloud controller manager's stateful parts

This project models the parts of the controller manager whose correctness is a fact about whole runs,
and proves that fact for all inputs, all orders of map iteration and all failures of the APIs:

- **Load balancers** (`HCloud`, `TargetRuns`, `LbTargets`, `LbTargetPlans`, `LbServices`, `LbSettings`,
  `LbRegistry`, `LoadBalancers`). The cloud is an object whose calls may fail at any point, before or
  after they took effect. It keeps a log of the changes that took effect, of those that were asked for
  and of those it had to refuse. The reconcilers are methods over it. Targets: every prefix of every
  run is a legal run of a plan, and the plan is what the nodes and the Robot list say. Ownership: every
  run of Ensure, Update and Delete is a step of a registry in which a Service has at most one load
  balancer.
- **NodePort source ranges** (`Cidr`, `Ipv6Printing`, `KeyedLists`, `SourceRanges`, `JsonMergePatch`, `ServiceStore`,
  `NodePortSource`). CIDRs are read and masked for real (section 3.1 of RFC 4632), patches are merge
  patches (section 2 of RFC 7396), and other writers act between every read and every patch.
- **Caches** (`RobotCache`, `RobotClient`, `ServerCache`). The Robot cache is a state machine on values,
  with the budget of Robot calls, and a class proved to follow it step by step; the index of each cache
  is proved to answer like a scan of the list it was built from.
- **Routes** (`Routes`), **lookup of a Robot server by name** (`RobotClient`) and **provider IDs**
  (`Text`, `ProviderId`).

A method that reads or changes state is proved against a function or relation on values; the lemmas
about runs speak about those. `faults` counts the calls that failed although they could have succeeded,
so "no call failed" is `faults` unchanged.

## Where the code does something else than one expects

- An existing UID label of another Service wins over the new one, although the comment on
  `changeHCLBInfo` says that the label is set if necessary: `LoadBalancers.CarriesUidExactly` gives the
  exact condition. Ensure works on a load balancer of another Service exactly when it finds none of its
  own and that one has the name (`LbRegistry.UsesOthersExactly`), and then goes on sharing it
  (`LbRegistry.OthersStayOthers`).
- Such a label, and an empty name or reverse DNS annotation, are what makes a second run ask again
  (`LbSettings.SecondRunHasNothingToDo`); it changes no setting even then (`LbSettings.ReconciledIsFinal`).
- A run that hits the quota reports "unchanged", whatever it changed before. The quota is hit only when
  a target is to be added; when all of those are there and may stay, every run without an error reports
  its changes exactly (`LbTargets.ReportIsExact`). Otherwise it is the API's choice.
- A port that the Service lists twice makes every reconcile fail (`LbServices.ReconcileServices`).
- The limit for targets is that of the type before the run: `LoadBalancers.EnsureTwice` says exactly
  when a second run still changes something, for plans that add only what may stay. They do exactly
  when no dedicated node shares a valid address with a later server that is no node
  (`LbTargetPlans.StableExactly`).
- Such a shared address is removed by every successful run; it is back at the end only because the run
  added it again, and it is missing only if the load balancer is full (`LbTargetPlans.SharedAddressFlaps`).
  A successful run changes nothing exactly from a steady state (`TargetRuns.QuietExactly`), so this
  never settles while there is room (`TargetRuns.UnstableSeriesIsUnbounded`).
- Switching source ranges off with a copy of the Service that records no entries succeeds without
  reading the stored Service, and leaves its entries in place if the copy is stale
  (`NodePortSource.StaleCopyLeavesEntries`); `NodePortSource.SkippedIsSettledExactly` says when it does not.
  Without a Kubernetes client nothing is read or written either.
- A route with a wrong gateway is removed and not replaced by the same call (`Routes.OneCall`), and a
  route that was asked for under a text that is not canonical is not found again
  (`Routes.AddedRouteIsFoundExactlyWhenCanonical`).
- Deleting a route that the last loaded network does not have is sent to the API without a gateway,
  and fails there; the "not found" answer comes only for an unspecified gateway
  (`Routes.RoutesController.DeleteRoute`).
- Parsing a provider ID drops every occurrence of its prefix. For an accepted text this differs from
  dropping the first one exactly when the prefix occurs again (`ProviderId.StrippingOnceExactly`);
  `ProviderId.RepeatedPrefixExactly` says which texts are accepted only because of it.

## Model

| member | source | states |
|---|---|---|
| TargetRuns.PrefixSafety | internal/hcops/load_balancer.go:697-847 | at every prefix of a run, also of one that fails later, the targets contain those that were there and may stay, lie inside those plus the wanted ones, leave label selectors alone, and no addition happens on a full load balancer or takes it over its limit |
| TargetRuns.RemovalsFirst | internal/hcops/load_balancer.go:699-847 | in every run all removals come before all additions |
| TargetRuns.RequestsAreSafe | internal/hcops/load_balancer.go:697-847 | whatever a run asks for, also what is refused or fails: it removes only a target that is there and may not stay, adds only a wanted target that was not there or may not stay, and asks for no addition on a full load balancer |
| TargetRuns.RunMakesProgress | internal/hcops/load_balancer.go:702-847 | every accepted change leaves exactly one less to do: length of the run plus what remains is what remained at the start |
| TargetRuns.SeriesIsBounded | internal/hcops/load_balancer.go:702-847 | over any series of runs with unchanged inputs, each cut off anywhere, the accepted changes number at most what was to be done at first |
| TargetRuns.UnstablePlanFlaps | internal/hcops/load_balancer.go:702-847 | every successful run removes each target it is to add but that may not stay; at the end the target was added again, or the load balancer is full |
| TargetRuns.UnstableSeriesIsUnbounded | internal/hcops/load_balancer.go:702-847 | with such a target and room for it there is no bound: every further successful run makes at least two changes |
| TargetRuns.CompleteIsConvergedOrFull | internal/hcops/load_balancer.go:697-848 | a complete run ends with exactly the wanted targets, or full of wanted targets with all wanted ones that were there |
| TargetRuns.FinishedRunIsFinal | internal/hcops/load_balancer.go:702-847 | once nothing is left that fits, every further run is empty, also when the limit kept nodes out |
| TargetRuns.QuietExactly | internal/hcops/load_balancer.go:697-849 | a successful run makes no change exactly from a steady state: every own target may stay, and nothing is to add or there is no room, whatever the plan |
| TargetRuns.FinishedExactly | internal/hcops/load_balancer.go:702-847 | a complete run leaves the targets as they were exactly when the load balancer was finished before |
| LbTargets.ReconcileTargets | internal/hcops/load_balancer.go:606-849 | a failed Robot call, an unreadable annotation or provider ID, or private addresses without a network: the run fails with one of the reasons that apply and asks for nothing; otherwise only targets of this load balancer change, by a legal run of the plan for the nodes and the servers that Robot listed; nothing is asked for besides the changes of such a run, made or not, but that the last addition may be one that the run had made already, for another server with the same address; without error and quota it is a successful run, and with a sound Robot list it ends with exactly the wanted targets, or full; it stops early only after a failed or refused call, the quota only when something is to be added; it reports exactly whether it changed something, but not with the quota, and on an error what it changed before that; with distinct node addresses no call is ever refused |
| LbTargets.InputErrorExactly | internal/hcops/load_balancer.go:612-684 | the inputs count as good exactly when none of these reasons applies: an unreadable annotation, private addresses without a network, a node with a known prefix and no number, a failed Robot call |
| LbTargets.EndedSafely | internal/hcops/load_balancer.go:697-848 | however a run ended, the targets that were there and may stay are there, no unwanted one came, and no addition took it over the limit; if it ended well, nothing is left to do that fits |
| LbTargets.ReportIsExact | internal/hcops/load_balancer.go:785-849 | when every target to add is there and may stay, every run without an error reports exactly whether it changed something |
| LbTargets.SteadyAsksNothing | internal/hcops/load_balancer.go:697-847 | from a steady state a run asks for nothing and succeeds, whatever the plan and the API |
| LbTargets.ChangesExactly | internal/hcops/load_balancer.go:697-849 | a successful run reports a change exactly when it did not start from a steady state |
| LbTargets.RemoveUnwanted | internal/hcops/load_balancer.go:697-757 | removes exactly the targets that may not stay, keeps the count equal to the remote one and notes exactly the wanted ones left; the API never has to refuse a removal |
| LbTargets.KeepOrRemove | internal/hcops/load_balancer.go:718-756 | one target is kept, or removed and counted; on an error the flag says whether an earlier target was removed |
| LbTargets.AddServers | internal/hcops/load_balancer.go:761-795 | for every order of the servers: all are there afterwards or the load balancer is full, nothing else was added, the count equals the remote one, and no addition is refused |
| LbTargets.AddIPsOf | internal/hcops/load_balancer.go:806-846 | the same for the addresses of one dedicated server; no addition is refused if the addresses differ and no other server claimed them, and none but an address that the run itself added |
| LbTargets.AddRobotServers | internal/hcops/load_balancer.go:799-847 | the same for all dedicated servers in any order |
| LbTargets.AddUnlessFull | internal/hcops/load_balancer.go:767-794 | at or above the limit of the type nothing is asked for; otherwise one target is added, or the run stops, and only the quota code is not an error |
| LbTargets.ReadNodes | internal/hcops/load_balancer.go:650-672 | reads the cloud and Robot IDs of all nodes, skips nodes with an unknown prefix, and fails exactly when another ID cannot be read |
| LbTargets.ReadRobotServers | internal/hcops/load_balancer.go:689-695 | builds the addresses of each number and the number of each address, the last server winning |
| LbTargetPlans.AddressOwner | internal/hcops/load_balancer.go:689-695 | the address index names the last server that has the address under the chosen family |
| LbTargetPlans.NumberOwner | internal/hcops/load_balancer.go:689-695 | the number index gives the addresses of the last server with the number |
| LbTargetPlans.AddedNodeAddress | internal/hcops/load_balancer.go:674-695 | for any Robot list, an address is added exactly when it is valid and the last server with the number of a dedicated node has it |
| LbTargetPlans.PlanIsWanted | internal/hcops/load_balancer.go:649-728 | with distinct numbers and addresses and valid IPs, what may stay and what is added are both exactly every cloud node and every address of every dedicated node |
| LbTargetPlans.SoundListIsDistinct | internal/hcops/load_balancer.go:588-602 | when no server shares an address with another, or lists one twice, no two addresses of dedicated nodes are the same, which is what the reconciler needs to never be refused |
| LbTargetPlans.ConvergesOrFillsUp | internal/hcops/load_balancer.go:649-848 | after a complete run the server and IP targets are exactly the wanted ones, or the number of targets is at or above 25, 75 or 150 by the type of the snapshot and they are wanted ones with every wanted one that was there; wanted is every cloud node reached the configured way, and every address, of the chosen family, of every listed server whose number a dedicated node has |
| LbTargetPlans.WantedIs | internal/hcops/load_balancer.go:650-695 | the wanted targets of a plan are exactly those, read off provider IDs and the Robot list |
| LbTargetPlans.PlannedServer | internal/hcops/load_balancer.go:702-795 | for any Robot list, a server may stay, and is added, exactly when a cloud node has its ID and it is reached the configured way |
| LbTargetPlans.FullExactly | internal/hcops/load_balancer.go:862-876 | a plan allows no addition exactly at 25 targets, at 75 for lb21 and at 150 for lb31, and knows no limit without a type |
| LbTargetPlans.NodeIdsAre | internal/hcops/load_balancer.go:650-672 | the two ID sets hold exactly the numbers in the provider IDs of the two kinds |
| LbTargetPlans.TargetIPsAre | internal/hcops/load_balancer.go:588-602 | the addresses of a server are its IPv4 address unless the family is IPv6, and the first of its IPv6 network unless it is IPv4, each if there is one |
| LbTargetPlans.ChangesAreBounded | internal/hcops/load_balancer.go:702-847 | any series of cut-off runs makes at most as many changes as the initial symmetric difference to the wanted targets |
| LbTargetPlans.UnstableAddress | internal/hcops/load_balancer.go:649-728 | for any Robot list, an address is added although it may not stay exactly when it is valid, a dedicated node has it, and the last server that has it is no node |
| LbTargetPlans.StableExactly | internal/hcops/load_balancer.go:649-728 | for any Robot list, a plan adds only what may stay exactly when there is no such address |
| LbTargetPlans.SharedAddressFlaps | internal/hcops/load_balancer.go:725-757 | an address that a dedicated node shares with a later server that is no node is removed by every successful run, and added again by it unless the load balancer ends full |
| LbServices.ReconcileServices | internal/hcops/load_balancer.go:878-957 | on success the ports are distinct and the listen-to-destination map equals Port-to-NodePort; then the calls were one for each port in order, an update if it was listening and else an addition, and one deletion for each port left over; without faults it succeeds exactly for distinct ports, and then no call is refused; only services of this load balancer change, by a legal run |
| LbServices.NoPortGoesAway | internal/hcops/load_balancer.go:895-954 | at every prefix a port that is old and new is listening, no port that is neither is, and every destination is the old one or the Service's |
| LbServices.PortMapIsExact | internal/hcops/load_balancer.go:898-940 | for distinct ports the map leads every port to its node port, and has no other ports |
| LbServices.ExposePorts | internal/hcops/load_balancer.go:890-940 | one call for each port in order, an update if it was listening and else an addition, also when nothing would change; gives back exactly the ports that are left over, and fails without faults exactly at a repeated port |
| LbServices.DeleteLeftOver | internal/hcops/load_balancer.go:943-954 | deletes exactly the left-over ports, one call each, in any order, and is never refused |
| LbSettings.ReconcileHCLB | internal/hcops/load_balancer.go:269-327 | on success every setting is what its annotation says, and as it was without one, and a UID label that was there wins; a change is reported exactly when something was to do and exactly when a call was asked for; with nothing to do no call is asked for; an unreadable annotation fails it, and without faults nothing else does; targets, services and protection stay |
| LbSettings.ReconciledIsAsAsked | internal/hcops/load_balancer.go:269-574 | the reconciled state: the annotated name unless it is empty, the UID label if there was none, the annotated reverse DNS entries with an empty one reset, algorithm and type as annotated, just the configured network, public unless the annotation is true; protection, and what no annotation names, as before |
| LbSettings.NothingToDoExactly | internal/hcops/load_balancer.go:269-574 | a run asks for nothing exactly when the state is as asked already, and there is no foreign UID label and no empty name or reverse DNS annotation that the state does not meet |
| LbSettings.ChangeHCLBInfo | internal/hcops/load_balancer.go:335-370 | exactly one update of name and labels when needed and none otherwise, and the object gets the API's answer |
| LbSettings.DetachFromNetwork | internal/hcops/load_balancer.go:473-498 | leaves every network but the configured one |
| LbSettings.AttachToNetwork | internal/hcops/load_balancer.go:500-541 | joins the configured network when it is set and not joined yet; a second attempt is made exactly after a conflict or a lock, and there is no third; it fails exactly if the last attempt did |
| LbSettings.SecondRunHasNothingToDo | internal/hcops/load_balancer.go:335-574 | a second run on the reloaded load balancer asks for nothing exactly when there was no foreign UID label and no annotation asks for an empty name or reverse DNS entry that is not there |
| LbSettings.ReconciledIsFinal | internal/hcops/load_balancer.go:269-574 | reconciling the reconciled state gives the same state, for every load balancer and all annotations |
| LbSettings.NothingToDoIsFixpoint | internal/hcops/load_balancer.go:269-327 | with nothing to do the reconciled state is the state |
| LbSettings.NetworksAreExact | internal/hcops/load_balancer.go:473-541 | after success the attached networks are exactly the configured one, or none |
| LbSettings.UidLabelIsSticky | internal/hcops/load_balancer.go:344-353 | an existing UID label is never changed, a missing one only becomes this Service's, other labels stay |
| LoadBalancers.GetByK8SServiceUID | internal/hcops/load_balancer.go:104-125 | finds the one load balancer with the UID, or says that there is none, or more than one |
| LoadBalancers.FindExisting | hcloud/load_balancers.go:135-154 | the load balancer with the UID; only if there is none, one with the name; not found only if neither exists |
| LoadBalancers.Create | internal/hcops/load_balancer.go:172-250 | makes a load balancer with the annotated or the default name, the UID label, the annotated type or lb11, the annotated algorithm, public exactly unless the annotation is true, attached to the configured network, unprotected, without services and targets; it carries the UID from the start, also when a later call of the run fails |
| LoadBalancers.EnsureLoadBalancer | hcloud/load_balancers.go:111-198 | however early it stops it is one Ensure step, and on the load balancer it used no port that is old and new and no wanted target went away, nothing unwanted came, and no addition took it over its limit; an input that cannot be used fails it and leaves the targets alone; on success settings and ports are as asked, and with a sound Robot list the targets are the wanted ones, or it is full or at its quota; one that it created is public exactly unless switched off, of the annotated type or lb11, and not protected; without faults it uses an existing load balancer exactly when one has the UID or the name, and with a satisfiable request it succeeds unless the UID is not unique |
| LoadBalancers.UpdateLoadBalancer | hcloud/load_balancers.go:298-346 | the same promises without ever creating a load balancer; nothing to do is success only if there is none |
| LoadBalancers.DeleteLoadBalancer | hcloud/load_balancers.go:364-386 | removes at most the one unprotected load balancer with the UID; success means that none is left, or that the one is protected and nothing changed; without faults it succeeds unless the UID is not unique |
| LoadBalancers.DeleteAfterCreate | hcloud/load_balancers.go:156-386 | a successful Delete after an Ensure that created a load balancer leaves none with the UID: that one was the only one, and is not protected |
| LoadBalancers.CarriesUidExactly | internal/hcops/load_balancer.go:344-353 | after success the load balancer carries the UID exactly when it carried no other Service's before |
| LoadBalancers.ReconciledEndsAsAsked | hcloud/load_balancers.go:164-180 | when all three reconcilers succeeded, no input was in error, settings and ports are as asked, and with a sound Robot list and no quota the wanted targets are there or the load balancer is full |
| LoadBalancers.OnlyTargetsStillChange | hcloud/load_balancers.go:164-180 | a second successful run with the same request changes at most the targets |
| LoadBalancers.EnsureTwice | hcloud/load_balancers.go:164-180 | under a plan that adds only what may stay, a second successful run with the same request changes nothing exactly when no target is left to add below the limit of the current type, which holds unless the first run changed the type |
| LbRegistry.AtMostOneAlways | hcloud/load_balancers.go:135-162 | over any sequence of Ensure, Update and Delete runs of many Services, each stopped anywhere, at most one load balancer carries a given UID |
| LbRegistry.LabelledStaysInUse | hcloud/load_balancers.go:135-154 | a labelled load balancer stays the one that every later Ensure for its Service uses, in every history in which no Delete removes it and others leave its label alone, also with Delete runs that fail or find it protected |
| LbRegistry.LabelGoesOnlyBy | hcloud/load_balancers.go:135-386 | a load balancer loses its UID label only to others, or when a Delete for that UID removes it, unprotected and the only one with the UID |
| LbRegistry.AmbiguousIsLeftAlone | internal/hcops/load_balancer.go:104-125 | with more than one load balancer that carries the UID, neither Ensure nor Delete for it touches anything |
| LbRegistry.UsesOthersExactly | hcloud/load_balancers.go:135-154 | Ensure works on a load balancer that carries another Service's UID exactly when none carries its own and that one has the name it looks for |
| LbRegistry.OthersStayOthers | hcloud/load_balancers.go:135-180 | an Ensure changes no other load balancer of another Service, and one that it changes keeps its label, so its Service still has none of its own |
| LbRegistry.DeleteIsSelective | hcloud/load_balancers.go:364-386 | Delete removes only an unprotected load balancer with that UID, and nothing else |
| Cidr.SameCidrIsKeyEquality | hcloud/node_port_source.go:77-84 | comparing CIDRs is equality of a canonical key: the masked prefix, else the trimmed text |
| Cidr.SameCidrIsEquivalence | hcloud/node_port_source.go:77-84 | comparing CIDRs is an equivalence relation |
| Cidr.SameCidrIsSameNetwork | hcloud/node_port_source.go:75-84 | two readable CIDRs compare equal exactly when they contain the same addresses |
| Cidr.SameCidrIgnoresBlanks | hcloud/node_port_source.go:78-82 | spaces, tabs and line ends around a CIDR do not matter for comparing |
| Cidr.MaskedEqualsSameAddresses | hcloud/node_port_source.go:83-83 | two prefixes have the same masked form exactly when the same addresses agree with them on the leading bits |
| Cidr.FormatParsePrefix4 | hcloud/node_port_source.go:60-73 | a printed IPv4 network reads back as itself and survives trimming and splitting |
| Cidr.ParseIPv4Exactly | hcloud/node_port_source.go:77-84 | the texts that read as an IPv4 address are exactly its dotted form |
| Cidr.ParsePrefix4Exactly | hcloud/node_port_source.go:77-84 | the texts that read as an IPv4 network are exactly its dotted form with a slash and the length, without leading zeros |
| Ipv6Printing.FormatParsePrefix6 | hcloud/node_port_source.go:77-84 | every IPv6 network, written with all eight groups, reads back as itself |
| Ipv6Printing.ParseElided | hcloud/node_port_source.go:77-84 | a double colon stands for the zero groups that are missing, at the start, in the middle or at the end |
| Ipv6Printing.ParseMapped | hcloud/node_port_source.go:77-84 | an IPv4 address in the last four bytes, behind ::ffff:, reads as the mapped address |
| Ipv6Printing.FromGroupsInjective | hcloud/node_port_source.go:77-84 | different groups are different addresses |
| KeyedLists.UserViewConserved | hcloud/node_port_source.go:93-121 | for lists compared by any key: one step keeps the entries of everyone else as the same sequence, whatever the lists were |
| KeyedLists.SecondStepIsIdentity | hcloud/node_port_source.go:93-121 | a second step with the same wanted entries changes neither the list nor what is owned |
| SourceRanges.DesiredSourceRanges | hcloud/node_port_source.go:93-107 | computes the new list, and whether it differs |
| SourceRanges.OwnedEntries | hcloud/node_port_source.go:112-121 | computes the owned entries |
| SourceRanges.UserViewConserved | hcloud/node_port_source.go:90-121 | the new list without the newly owned networks is the old list without the formerly managed ones |
| SourceRanges.DesiredNetworks | hcloud/node_port_source.go:93-107 | the networks of the new list are those that others listed plus the wanted ones |
| SourceRanges.DesiredAppendsOnce | hcloud/node_port_source.go:101-105 | what stays is a prefix, and no appended entry repeats a network in front of it |
| SourceRanges.OwnedNetworks | hcloud/node_port_source.go:109-121 | the controller owns exactly the wanted networks that nobody else lists |
| SourceRanges.WantingNothingRestoresUserView | hcloud/node_port_source.go:93-121 | wanting nothing gives exactly the users' list and owns nothing |
| SourceRanges.ManagedSourceRanges | hcloud/node_port_source.go:125-137 | reads the trimmed, non-empty parts of the annotation |
| SourceRanges.AnnotationRoundTrip | hcloud/node_port_source.go:125-137 | joining and reading back gives the list, for entries that are trimmed, not empty and without a comma |
| SourceRanges.ManagedOne | hcloud/node_port_source.go:125-137 | one entry in any white space is read as that entry, and a blank one as none |
| SourceRanges.ManagedConcat | hcloud/node_port_source.go:125-137 | a comma separates the entries on its left from those on its right, for every text |
| SourceRanges.NeedsPatchExactly | hcloud/node_port_source.go:213-220 | no patch is sent exactly when the step changes nothing |
| SourceRanges.NothingWantedNeedsPatchExactly | hcloud/node_port_source.go:213-220 | with nothing wanted a patch is needed exactly when there is an annotation, whatever it says |
| SourceRanges.StepKeepsView | hcloud/node_port_source.go:213-220 | conservation through the annotation text |
| SourceRanges.SecondStepSendsNoPatch | hcloud/node_port_source.go:191-234 | after one committed step a second with the same wanted entries sends no patch |
| SourceRanges.RunKeepsUserView | hcloud/node_port_source.go:90-137 | over any run of controller steps and arbitrary user edits, the users see their entries, in order, as they last left them |
| SourceRanges.TurningOffRestoresUserView | hcloud/node_port_source.go:139-184 | switching off after any run leaves exactly the users' entries and no annotation |
| SourceRanges.LbSourceCidrs | hcloud/node_port_source.go:60-73 | collects the usable IPv4 addresses as host networks |
| SourceRanges.SourceCidrsAreClean | hcloud/node_port_source.go:57-73 | these entries survive the annotation text |
| SourceRanges.SourceCidrsAdmitExactly | hcloud/node_port_source.go:57-73 | these entries admit exactly the IPv4 addresses the load balancer connects from |
| JsonMergePatch.MergePatchMember | hcloud/node_port_source.go:236-260 | a merge patch member by member, as section 2 of RFC 7396 has it |
| ServiceStore.SendPatch | hcloud/node_port_source.go:222-229 | with other writers in between, a patch is accepted only on the very document it was computed from; a conflict means that someone wrote |
| ServiceStore.KeptBetween | hcloud/node_port_source.go:186-234 | what every step keeps, any series of controller steps between two writes of others keeps |
| NodePortSource.PatchEffect | hcloud/node_port_source.go:236-260 | applying the patch sets the two fields, or removes them when there is nothing to say, names the version and changes nothing else |
| NodePortSource.AcceptedPatchIsStep | hcloud/node_port_source.go:213-229 | an accepted patch is the desired-ranges and owned-entries step of exactly the document it replaced, and changes only the two fields |
| NodePortSource.ComputePatch | hcloud/node_port_source.go:213-225 | a patch is computed exactly when it is needed, and asks for exactly the step |
| NodePortSource.SetManagedSourceRanges | hcloud/node_port_source.go:191-234 | skipped exactly without a client, or with nothing wanted and a copy of the Service that records no entries: then it succeeds and writes nothing; otherwise at most one controller write, and that a step of the version it replaced; success settles the Service as it then is; a conflict is given back only after others wrote in each of five attempts |
| NodePortSource.SkippedIsSettledExactly | hcloud/node_port_source.go:192-194 | a skipped call that wants nothing leaves a settled Service exactly when the stored one has no annotation, is being deleted or is gone |
| NodePortSource.StaleCopyLeavesEntries | hcloud/node_port_source.go:192-194 | for every text of the annotation, an instance: with a copy from before it was written, switching off is skipped, and the stored Service still needs a patch |
| NodePortSource.ReconcileNodePortSource | hcloud/node_port_source.go:142-171 | from the texts on the Service: neither blank nor a boolean is invalid and touches nothing, a missing or blank one follows the default; when they say no, or that the ranges are a deny-list, a call that is not skipped and succeeds gives the users' entries back and leaves no annotation; when they say yes, success leaves ranges that admit every address the load balancer connects from, and without such an address nothing is touched; nothing is written to a Service that is being deleted, and every other field stays; a conflict is given back only after five writes of others |
| NodePortSource.RestrictEnabledAsSaid | hcloud/node_port_source.go:36-49 | on exactly when the annotation is a true text, or blank or missing and the default is on; off likewise |
| NodePortSource.DenyListAsSaid | hcloud/node_port_source.go:53-55 | a deny-list exactly when the policy is the word deny in any case, in any white space |
| NodePortSource.NoLostUpdate | hcloud/node_port_source.go:186-234 | between two writes of others, the users' entries and every other field stay as they were left |
| NodePortSource.ReconcileKeepsLegality | hcloud/node_port_source.go:142-234 | a history of such steps stays one over a further reconcile |
| RobotCache.IndexRefinesScan | internal/robot/client/cache/client.go:173-176 | the index answers every number like a scan for the last server with it |
| RobotCache.LastWithNumberIs | internal/robot/client/cache/client.go:173-176 | that scan gives the server at the last position with the number, and nothing exactly when no server has it |
| RobotCache.RunIsCoherent | internal/robot/client/cache/client.go:105-240 | in every reachable state a present index refines the scan of the current list and belongs to the current credentials |
| RobotCache.AnswerIsFresh | internal/robot/client/cache/client.go:105-182 | every answer comes from a list that the current credentials loaded, in this call or no longer than the timeout before the check |
| RobotCache.TwoStageLookupIsJustified | internal/robot/client/cache/client.go:135-203 | after a read and a forced refresh for a name the list may deny the name: loaded since, or no earlier than a forced refresh for that name within the timeout and under the same credentials |
| RobotCache.CreditStep | internal/robot/client/cache/client.go:105-240 | every load inside a window is paid by a credential change, a name that had not forced yet, or the missing list |
| RobotCache.RobotCallBudget | internal/robot/client/cache/client.go:105-240 | in any closed window as long as the timeout, under any sequence of calls from any state, with k credential changes and forced lookups of the names N: at most (1+k)(1+N) loads, plus one for every failed call and every forced refresh without a name |
| RobotClient.CacheRobotClient.ServerGet | internal/robot/client/cache/client.go:105-120 | gives the last server with the number, denies it from the same list, or fails exactly when the list could not be loaded; one step of the state machine, and an API call exactly when the list is missing or older than the timeout |
| RobotClient.CacheRobotClient.ServerGetList | internal/robot/client/cache/client.go:122-130 | gives the current list exactly when the step answers; Robot is asked exactly when the list is missing or older than the timeout; lists handed out earlier are not modified |
| RobotClient.CacheRobotClient.ServerGetListForceRefresh | internal/robot/client/cache/client.go:135-157 | the forced-refresh step; for a positive timeout Robot is asked exactly when the call names no node, the name has not forced a refresh within the timeout, or the list is missing or older than the timeout; no entry of another name is added or moved |
| RobotClient.CacheRobotClient.SyncIfNeeded | internal/robot/client/cache/client.go:163-182 | loads exactly when the list is missing or expired; a failed load changes nothing |
| RobotClient.CacheRobotClient.NodeHasAlreadyForcedRefresh | internal/robot/client/cache/client.go:187-203 | says whether the name forced a refresh no longer than the timeout ago (five minutes if the timeout is zero), and removes an expired entry |
| RobotClient.CacheRobotClient.SetCredentials | internal/robot/client/cache/client.go:229-240 | success drops index and forced refreshes and starts a new epoch; failure changes nothing |
| RobotClient.CacheRobotClient.BuildIndex | internal/robot/client/cache/client.go:173-176 | pointers to the last entry with each number |
| RobotClient.GetRobotServerByName | hcloud/util.go:56-99 | a server that is found is the first with that name in the current list; "no server" is reported only with a justified denial; with a positive timeout, a denial without a load in the call means that the name forced a refresh no longer than the timeout ago, and a name that the list does not have and that did not do so makes the call ask Robot; an error only without credentials, under the rate limit, or after a failed Robot call |
| ServerCache.NameIndexRefinesScan | internal/hcops/server.go:106-126 | the name index answers like a scan for the last server with the name |
| ServerCache.AddressIndexRefinesScan | internal/hcops/server.go:106-126 | the address index answers like a scan for the last server with the address in the configured network |
| ServerCache.ScanAnswers | internal/hcops/server.go:106-126 | these scans give the server at the last position with the name, or with the address in an attachment to the configured network, and nothing exactly when there is none |
| ServerCache.AllServersCache.GetCache | internal/hcops/server.go:76-135 | gives the last server of the list with the name, or with the address in the configured network, and denies one only when there is none; a hit is never older than the maximum age; a denial comes only from a list loaded in this call; a failed load changes nothing; the list is asked for only if the indexes have no answer or are too old |
| ServerCache.AllServersCache.Rebuild | internal/hcops/server.go:102-126 | both indexes are those of the new list |
| ServerCache.AllServersCache.InvalidateCache | internal/hcops/server.go:138-143 | what was loaded is too old for any further lookup, and nothing else changes |
| Routes.RoutesController.CreateRoute | hcloud/routes.go:86-145 | with a stable server list and no other writer: success has exactly one outcome, failure that outcome or none; a route that a call adds is the only change, leads to the address in the first attachment to this network of the last server with the node's name, and to the network that the text prints, as IPv4 or mapped, without its host bits; without an attachment it fails and changes nothing; a routable request fails only if a call failed or was turned down for contention; the retries end when contention does |
| Routes.RoutesController.CheckIfRouteAlreadyExists | hcloud/routes.go:230-267 | says whether the destination has a route, and keeps it exactly when it leads to the address of the node in this network, and removes it otherwise |
| Routes.RoutesController.DeleteRoute | hcloud/routes.go:149-175 | deletes one route to the destination with the gateway of the last loaded network; a failure leaves at most that one route missing; an unknown destination changes nothing and fails; a route that is there is deleted unless a call failed |
| Routes.OneCall | hcloud/routes.go:86-145 | one call leaves a destination right or absent, never wrong, and absent exactly when it led elsewhere; other routes stay |
| Routes.TwoCallsConverge | hcloud/routes.go:86-145 | two successful calls route the destination to the node's private address and leave every other route as it was |
| Routes.RunConverges | hcloud/routes.go:86-145 | in any interleaving of calls for many destinations, with failed ones among them: a destination whose calls all name one address leads there after two of them succeeded, and never gets further away; destinations stay unique |
| Routes.CallGetsCloser | hcloud/routes.go:86-145 | a successful call brings its destination closer to the address, and no call changes where another destination leads |
| Routes.RunKeepsOthers | hcloud/routes.go:86-145 | over such a run the routes to all destinations that no call names stay, in their order |
| Routes.AddedRouteIsFoundExactlyWhenCanonical | hcloud/routes.go:238-239 | a route that a call adds is found by the next call exactly when the destination text is canonical |
| Routes.NodeNetIs | hcloud/routes.go:87-113 | a node has a private network exactly when the last server with its name is attached to the configured one, and its address is that of the first such attachment |
| Routes.ParsePrintedCidr | hcloud/routes.go:115-118 | a printed IPv4 network is read with its host bits cleared, and so it is stored |
| Routes.ParseMappedCidr | hcloud/routes.go:115-134 | an IPv4 network written as a mapped IPv6 one is stored as the same IPv4 network |
| ProviderId.CloudRoundTrip | internal/providerid/providerid.go:45-77 | a printed cloud ID reads back as (id, cloud), for every int64 |
| ProviderId.BaremetalRoundTrip | internal/providerid/providerid.go:45-89 | either printed bare-metal form reads back as (number, not cloud), for every int64 |
| ProviderId.PrintedIdsNeverCollide | internal/providerid/providerid.go:74-89 | cloud and bare-metal IDs never collide, and printing is injective |
| ProviderId.OwnIdIsKept | internal/providerid/providerid.go:81-89 | a node's own provider ID is never replaced, and without one it is the chosen prefix and the number |
| ProviderId.UnknownPrefixExactly | internal/providerid/providerid.go:46-61 | the unknown-prefix error comes exactly for texts with none of the prefixes |
| ProviderId.StrippingOnceExactly | internal/providerid/providerid.go:45-77 | for each of the three prefixes: an accepted text is read as if only the first prefix were stripped exactly when the prefix does not occur again |
| ProviderId.RepeatedPrefixExactly | internal/providerid/providerid.go:45-77 | a text that stripping once rejects is accepted exactly when the prefix occurs again and what is left without it is an int64 |
| ProviderId.RepeatedPrefixIsAccepted | internal/providerid/providerid.go:48-57 | for every int64: the printed cloud ID is accepted with its prefix written twice |
| Text.SplitJoin | hcloud/node_port_source.go:131-135 | splitting a joined list gives the list back when no part holds the separator |
| Text.SplitIsExact | hcloud/node_port_source.go:131-135 | the pieces of any text, joined, are the text, and none of them holds the separator |
| Text.TrimSpaceExactly | hcloud/node_port_source.go:78-82 | trimming drops all white space around a text that does not start or end with it, and nothing else |
| Text.RemoveAllExactly | internal/providerid/providerid.go:48-57 | removing every occurrence of a text leaves a text as it is exactly when there is none |
| Text.RemoveAllAt | internal/providerid/providerid.go:48-57 | the first occurrence goes, what stands before it stays, and the rest goes on behind it |
| Text.ParseFormatInt | internal/providerid/providerid.go:67-76 | reading a printed int64 gives it back |
| Text.ParseIntExactly | internal/providerid/providerid.go:67-76 | the texts that read as a number are exactly an optional sign, any zeros and its digits |

## Left out

- Routes.RoutesController.CreateRoute: assumes that the server list does not change while the cache holds it, and that nobody else writes routes meanwhile.
- LbTargets.ReconcileTargets: works on a copy of the load balancer that is up to date when the run starts; other writers of the same load balancer act only between runs (`LbRegistry.OthersStep`), and do not write UID labels. That names are unique, which `LbRegistry.UsesOthersExactly` needs, is the provider's rule and not a property of this model.
- LoadBalancers.EnsureLoadBalancer: the node selector, the annotations written back to the Service, the status that is returned and the call of the source-range reconcile at the end are not part of this model; the latter is modelled by itself.
- LoadBalancers.Create: location and network zone are one condition (`hasPlacement`); what the provider fills in for a new load balancer (algorithm, reverse DNS) are constants of the model.
- LbServices.ReconcileServices: keeps listen and destination port of a service; protocol, certificates, health checks and sticky sessions are one step that may fail.
- LbSettings.ReconcileHCLB: what an empty reverse DNS value resets an entry to is a constant of the model.
- RobotClient.GetRobotServerByName: whether the rate limit is in force is a parameter; the rate limiter itself and `getRobotServerByID` are left out.
- RobotClient.CacheRobotClient.ServerGet: one call at a time, as under the mutex; a call is dated by its own clock readings.
- ServerCache.AllServersCache.GetCache: servers are values, so a caller that modifies a server it was given is not modelled; the load timeout is a failed load.
- Cidr.SameCidrIsSameNetwork: an address with a zone counts as unreadable, which is what `netip.ParsePrefix` makes of it.
- `ListRoutes` and the translation of cloud routes to node names: one lookup per route on top of the server cache.
- IP addresses in the Robot and load balancer lists are taken to be in canonical text form, so that text equality is address equality.
- Logging, events, metrics, contexts, sleeps, HTTP clients, credential files and the instances controller.
- Go's 64-bit time and duration arithmetic: clocks and timeouts are unbounded integers.

# A Dafny model of helios-lb

helios-lb hands out addresses to Kubernetes services of type LoadBalancer and
balances connections over backends. This project models the parts of it that
decide who gets which address and which backend gets the next connection, and
proves what those parts keep over every input, every run and every interleaving.

`dafny verify dfyconfig.toml` checks the whole project.

## How the model is laid out

| files | subject |
|---|---|
| `Bytes.dfy`, `Parse.dfy` | addresses as four or sixteen bytes, carry loops, CIDR masking, the bounds of a range; byte code against plain arithmetic on naturals |
| `Allocator.dfy`, `Containment.dfy`, `AllocatorRuns.dfy` | the allocator class and its bounded scan; allocatable against contained; sequences of calls |
| `Cluster.dfy`, `Manager.dfy`, `Reconciler.dfy` | configs, services and the pool; allocate-assign-roll-back, release, deletion and reconcile as functions, and the class that carries them out in place |
| `Ownership.dfy`, `Leaks.dfy`, `Conservation.dfy`, `ExampleRuns.dfy` | the controller as a state machine among users who create, edit and delete objects: ownership, leaks and conservation over whole runs |
| `Serving.dfy`, `Fulfilment.dfy`, `Quota.dfy`, `Requests.dfy` | what a reconcile and its rounds do, field by field and for all outcomes; what one undisturbed reconcile achieves; the allocation limit; requested addresses |
| `Admission.dfy` | the webhook's overlap test over every sequence of accepted requests |
| `Balancing.dfy`, `Fairness.dfy`, `Tickets.dfy`, `LeastConnection.dfy` | round robin, weighted round robin, their shared counters under concurrency, least connection |
| `HealthLoop.dfy`, `Registry.dfy`, `Passes.dfy` | the stop protocol of the health checks; the in-place backend lists; rounds of calls of NextBackend |

Methods and classes follow the code's loops and updates; each is proved equal
to a function, and the theorems are about those functions. A failing API call
is an outcome passed in as a parameter (`CallApi`, `BeginApi`): every theorem
that does not name an outcome holds for all of them.

A run (`Ownership.Run`) starts from an empty cluster. Between any two rounds of
a reconcile, users may create, edit and delete services and configs, and any API
call may fail in any way. One worker reconciles at a time and reads current
objects; users do not write statuses, and a status write fails when its config
changed since the reconcile read it. The quota holds in all of these runs. Two
kinds of run are narrower:

- `ProperRun`: ranges hold more than one address, since a one-address range is
  meant to be handed out again. Conservation and the newness of allocated
  addresses are proved for these.
- `AdmissibleRun`: in addition the services eligible for a config are of its own
  namespace, since its status names services without theirs. Ownership is proved
  for these.

No kind of run excludes half-written assignments or deletions that leave a
service with its address: where such a step matters, the theorem says so (`Benign`,
`Leakless`, `Smooth`). `OneHolderIff` and `ReleaseHeldIff` say of one step exactly
what the two narrower kinds of run are for.

## Properties that hold only under a condition

In these places a property the code or its comments promise fails for some
inputs. The model follows the code, and the named lemmas give the condition.

- *An allocated address lies in its range.* For a range of one family this
  fails exactly when the scan runs past the all-ones address, where the increment
  wraps to zero, into addresses below the range, or when it comes to ::ffff:0:0,
  which prints as 0.0.0.0:
  `ConfinedIff`, `OverrunExample`, `MappedExample`.
- *Byte comparison works for all addresses* (comment at
  `internal/network/parse.go:10-12`). Between families, in both directions, it
  compares four-byte prefixes: `CrossFamily`, `CrossFamilyExample`,
  `CrossFamilyMirrorExample`.
- *A CIDR covers its block.* Exactly not when it is written on an IPv4-mapped
  address with host bits left: `CidrCoversIff`, `MappedCidrCollapses`,
  `MappedCidrExample`.
- *A user who asked for one address is never given another* (comment at
  `internal/network/ip_allocator.go:69-72`), *and the filter admits no request
  that would only fail later* (comment at
  `internal/controller/service_filter.go:32-35`). An admitted request is never
  handed out, from any pool, exactly when it looks like an address of the other
  family's range and is outside its own; on a single-stack config it is then
  given an IPv4 address, on a dual-stack config it is refused: `AdmittedIff`,
  `NeverHandedIff`, `RequestHonoredIff`, `DualStackExample`.
- *A failed allocation rolls back.* Except where it took an address in use from
  a one-address range: `FailureRollsBackIff`, `RollBackExample`.
- *Only services that pass the filter are served.* They pass it as they were
  listed; an edit between listing and round is not noticed: `ServedWasListed`,
  `EditIsNotNoticed`.
- *No two services share an address.* Over a whole run services share none and
  hold only addresses of the pool if and only if no assignment is left half
  written, with an ingress that the failed call gives back, and no deletion
  leaves a service with an address it releases: `OwnedIff`, `StepKeepsIff`,
  `HalfWriteShares`.
- *The pool is what the configs record.* An address leaks exactly when the
  status write is lost or when the service's name was recorded before, as after
  deleting and re-creating a service; a recorded address is dropped exactly when
  a deletion cannot remove the finalizer: `StepConservesIff`, `PoolIsRecordsIff`,
  `RecreatedServiceLeaks`.
- *Admitted configs are disjoint* (comment at
  `api/v1/heliosconfig_webhook.go:211-213`). An accepted request keeps them
  disjoint exactly when its ranges keep clear of the configs that were not
  compared: namesakes in other namespaces on an update, and all configs when the
  listing failed: `StepKeepsDisjointIff`, `AdmissionsDisjointIff`,
  `NamesakeExample`, `ListFailureExample`.
- *The overlap test reports ranges that share an address.* It also reports
  ranges that one looks past its end into, when it ends at an IPv4-mapped
  address, as ::/80 does: `OverlapsIff`, `FalseAlarmExample`.
- *Weighted round robin is fair.* Not over a window that passes the wrap of the
  32-bit counter, unless the total weight divides 2^32: `FairIff`, `WrapExample`.

## Model

| member | source | states |
|---|---|---|
| Bytes.CompareIsNumeric | internal/network/parse.go:74-78 | bytes.Compare on equal lengths is the order of the big-endian values, and is zero only for equal addresses |
| Parse.SuccByCarry | internal/network/parse.go:81-104 | a carry over trailing 0xFF bytes computes the numeric successor, and the borrow undoes it |
| Parse.IncrementIP | internal/network/parse.go:81-91 | the carry loop yields value + 1, wrapping to zero at the all-ones address |
| Parse.DecrementIP | internal/network/parse.go:94-104 | the borrow loop yields value - 1, wrapping to all ones at zero |
| Parse.CidrValues | internal/network/parse.go:31-41 | for every address and prefix length the byte-wise mask and fill give base and base + 2^hostbits - 1 |
| Parse.CidrMembership | internal/network/parse.go:36-41 | an address lies byte-wise between the two bounds if and only if its masked prefix is the network's |
| Parse.ParseIPRange | internal/network/parse.go:27-71 | the branches and the fill loop compute the specified bounds, malformed input included |
| Parse.SubnetBounds | internal/network/parse.go:42-48 | IPv4 /0 to /30 lose exactly the first and last address, keep at least two, and end below the all-ones address |
| Parse.BlockBounds | internal/network/parse.go:36-48 | IPv4 /31 and /32 (section 2 of RFC 3021) and IPv6 prefixes keep the whole block |
| Parse.MappedCidrCollapses | internal/network/parse.go:36-41 | a prefix on an IPv4-mapped address (section 2.5.5.2 of RFC 4291) that keeps the marker yields the network address alone |
| Allocator.Scan | internal/network/ip_allocator.go:50-66 | the bounded loop returns the first unused key it visits, and ends for every pair of bounds |
| Allocator.IPAllocator.constructor | internal/network/ip_allocator.go:25-30 | an empty pool and the scan limit 65536 |
| Allocator.IPAllocator.AllocateIP | internal/network/ip_allocator.go:33-67 | the result is the specified pick; the pool gains exactly it, or stays as it was on failure |
| Allocator.IPAllocator.AllocateSpecificIP | internal/network/ip_allocator.go:84-105 | the requested address in normal form if allocatable and unused, else an error and no change |
| Allocator.IPAllocator.MarkUsed | internal/network/ip_allocator.go:158-162 | the pool gains exactly the address |
| Allocator.IPAllocator.ReleaseIP | internal/network/ip_allocator.go:165-169 | the pool loses exactly the address |
| Allocator.VisitedIff | internal/network/ip_allocator.go:53-64 | for all bounds of one family, the keys visited are those of the addresses from start to end within the limit and, past the all-ones address, of those from zero on |
| Allocator.VisitedIsWindow | internal/network/ip_allocator.go:53-64 | unless it passes the all-ones address, the scan visits start, start + 1, ... for exactly min(limit, size) addresses |
| Allocator.PickFailsIff | internal/network/ip_allocator.go:42-66 | AllocateIP fails if and only if the range has more than one address and every scanned one is used, wherever the range ends |
| Allocator.PickIsLeastFree | internal/network/ip_allocator.go:50-66 | unless the scan passes the all-ones address, AllocateIP hands out the least address whose key is unused among the first maxScan, and fails if and only if all of their keys are used |
| Allocator.Reachable | internal/network/ip_allocator.go:50-66 | an address is handed out from some pool if and only if the scan visits it |
| Allocator.AllocatableIsReachable | internal/network/ip_allocator.go:107-126 | within the scan limit, and unless the scan passes the all-ones address, IPAllocatable holds of an address of the range's family exactly when AllocateIP hands it out from some pool |
| Containment.AllocatableVersusContained | internal/network/ip_allocator.go:107-154 | for a CIDR, IPAllocatable and IPInRange differ exactly on the network and broadcast address of an IPv4 /0 to /30 |
| Containment.AllocatableIsContained | internal/network/ip_allocator.go:113-154 | in one family IPAllocatable implies IPInRange, for every form of range |
| Containment.CidrCoversIff | internal/network/parse.go:36-48 | every contained address, less network and broadcast of an IPv4 /0 to /30, is allocatable if and only if the network is not IPv4-mapped or the prefix is /128 |
| Containment.MappedCidrExample | internal/network/parse.go:36-41 | ::ffff:10.0.0.0/120 contains 10.0.0.255 and does not offer it |
| Containment.CrossFamily | internal/network/ip_allocator.go:113-126 | an IPv6 address is allocatable in an IPv4 range if and only if its first four bytes lie in it before its end; an IPv4 address in an IPv6 range if and only if it lies above the first four bytes of the start and not above those of the end |
| Containment.CrossFamilyExample | internal/network/ip_allocator.go:113-126 | c0a8:164:: is allocatable in 192.168.1.1-192.168.1.254 |
| Containment.CrossFamilyMirrorExample | internal/network/ip_allocator.go:113-126 | 253.0.0.5 is allocatable in fd00::-fdff:: |
| Containment.ConfinedIff | internal/network/ip_allocator.go:42-66 | AllocateIP on a range of one family stays in it, for every pool, if and only if the scan does not run past the all-ones address into addresses below the range and does not come to ::ffff:0:0 |
| Containment.OverrunExample | internal/network/ip_allocator.go:53-66 | 255.255.255.254-255.255.255.255 hands out 0.0.0.0 once both of its addresses are used |
| Containment.MappedExample | internal/network/ip_allocator.go:53-66 | ::fffe:ffff:ffff-::1:0:0:0 hands out 0.0.0.0 once its first address is used |
| AllocatorRuns.Perform | internal/network/ip_allocator.go:33-169 | the class's methods take the steps that the run theorems are about |
| AllocatorRuns.StaysUsed | internal/network/ip_allocator.go:33-169 | over any calls a used address stays used until it is released |
| AllocatorRuns.NoDoubleHandout | internal/network/ip_allocator.go:33-169 | over any calls an address handed out twice was released in between |
| AllocatorRuns.FreshPoolAscends | internal/network/ip_allocator.go:33-67 | from a fresh pool the n-th call on a range yields start + n, as printed, for exactly min(size, limit) calls, and fails after, unless the scan passes the all-ones address |
| Cluster.EligibleByFields | internal/controller/service_filter.go:19-31 | an eligible service is a load balancer with no class or "helios-lb", in the selected namespaces, without ingress, and with no unparseable request; without a request these tests are all |
| Cluster.EligibleInOrder | internal/controller/service_filter.go:17-45 | every eligible service of a listing is in the result at the place counted by the eligible ones listed before it, and nothing else is |
| Cluster.FilterEligibleServices | internal/controller/service_filter.go:11-46 | the loop with its namespace set computes that result |
| Cluster.Choose | internal/controller/ip_manager.go:44-49 | a requested address is returned in normal form and unused, or not at all; an unpinned one is unused on ranges of more than one address |
| Manager.FailureRollsBackIff | internal/controller/ip_manager.go:66-110 | a failed call, at IPv4, IPv6 or assignment, leaves the pool plus the other configs' records, if and only if it took no address in use from a one-address range |
| Manager.RollBackExample | internal/controller/ip_manager.go:104-110 | a failed assignment on the one-address range 10.0.0.1, in use, drops 10.0.0.1 from the pool |
| Ownership.PairIsFresh | internal/controller/ip_manager.go:81-97 | where records are in the pool, a call takes addresses that are unused and unrecorded, and unheld where holders are in the pool |
| Ownership.RoundKeeps | internal/controller/heliosconfig_controller.go:165-249 | a round keeps the invariant whatever fails, unless the assignment is left half written |
| Ownership.HalfWriteBreaks | internal/controller/ip_manager.go:104-110 | a service left with the ingress of a failed assignment holds an address outside the pool |
| Ownership.ReleaseKeepsIff | internal/controller/ip_manager.go:158-194 | releasing a config keeps the invariant if and only if no service keeps a released address |
| Ownership.BeginKeepsIff | internal/controller/heliosconfig_controller.go:67-162 | the first part of Reconcile, deletion included, keeps the invariant if and only if no deletion leaves a holder |
| Ownership.StepKeepsIff | internal/controller/heliosconfig_controller.go:67-283 | every step, of the controller or of users, keeps the invariant if and only if it is benign |
| Ownership.NotBenignBreaks | internal/controller/ip_manager.go:104-194 | a step that is not benign leaves a service with an address outside the pool |
| Ownership.OwnedIff | internal/controller/heliosconfig_controller.go:67-283 | over every admissible run, whatever fails, services share no address and hold only pool addresses in every state if and only if every step is benign |
| ExampleRuns.HalfWriteShares | internal/controller/ip_manager.go:146-153 | a run from the empty cluster with one half-written assignment, after which two services hold 10.0.0.1 |
| Ownership.StepKeepsRecords | internal/controller/heliosconfig_controller.go:67-283 | every step, whatever fails, keeps what live configs record in the pool and recorded by one config |
| Ownership.ServicesNeverShare | internal/controller/ip_manager.go:55-194 | as long as every step of an admissible run is benign, no two services hold one address, and what a service holds is in the pool |
| Ownership.AllocationsAreNew | internal/controller/ip_manager.go:55-120 | in every proper run, whatever failed before, an allocation returns no address that is used or recorded by any config, and none that is held as long as held addresses are in the pool |
| Ownership.ReconcileKeeps | internal/controller/heliosconfig_controller.go:67-253 | a whole reconcile keeps the invariant, whatever fails in it, unless an assignment is half written or a deletion leaves a holder |
| Conservation.RoundKeepsNames | internal/controller/heliosconfig_controller.go:165-249 | with writes that succeed a round leaves every recorded service with an ingress and one recorder, and its remaining services unrecorded |
| Conservation.DeletionKeepsNames | internal/controller/heliosconfig_controller.go:256-283 | clearing the services of a deleted config clears no service that another config records |
| Conservation.EligibleUnrecorded | internal/controller/service_filter.go:28-31 | a service the filter admits is recorded by no config of its namespace, as long as recorded services have an ingress |
| Conservation.StepConserves | internal/controller/heliosconfig_controller.go:67-283 | every step whose writes succeed and that reuses no recorded name keeps all of this |
| Conservation.PoolIsDisjointUnion | internal/controller/ip_manager.go:55-194 | in every state of every run of such steps the pool is the disjoint union of what the configs record |
| Leaks.RecordingConservesIff | internal/controller/heliosconfig_controller.go:217-227 | recording new addresses keeps pool and records equal if and only if the name was not recorded in a map being written |
| Leaks.RoundConservesIff | internal/controller/heliosconfig_controller.go:165-249 | a round keeps pool and records equal if and only if an assigned address reaches the status and overwrites none |
| Leaks.DeletionConservesIff | internal/controller/heliosconfig_controller.go:256-283 | a deletion keeps them equal if and only if the finalizer goes or there was nothing to release |
| Leaks.StepConservesIff | internal/controller/heliosconfig_controller.go:67-283 | each step keeps pool and records equal if and only if it is leakless, and always keeps records disjoint |
| Leaks.PoolIsRecordsIff | internal/controller/heliosconfig_controller.go:67-283 | over every proper run, half-written assignments and services of other namespaces included, pool and records are equal in every state if and only if every step is leakless, and each address is then recorded once |
| ExampleRuns.RecreatedServiceLeaks | internal/controller/heliosconfig_controller.go:217-227 | a run from the empty cluster, with every write succeeding, that leaves 10.0.0.1 used and unrecorded |
| Conservation.SmoothIsLeakless | internal/controller/heliosconfig_controller.go:165-249 | a leak needs a failed write, a config edited under the loop, or a reused service name |
| Leaks.DeletingAllEmptiesPool | internal/controller/heliosconfig_controller.go:256-283 | in every proper run of leakless steps the pool is empty once all configs are gone |
| Serving.ServesIff | internal/controller/heliosconfig_controller.go:71-162 | a reconcile comes to serve if and only if the config exists, has or gets its finalizer, is not being deleted, both listings succeed, and no other config records an address inside its ranges |
| Serving.NotServing | internal/controller/heliosconfig_controller.go:71-162 | a reconcile that comes neither to serve nor to delete changes nothing but the finalizer, and that only if it could be added |
| Serving.ConflictBlocks | internal/controller/heliosconfig_controller.go:137-162 | with an address recorded by another config inside the range of its family, a live config serves no one: pool and services stay, configs change by the finalizer at most |
| Serving.HandledOutcome | internal/controller/ip_manager.go:158-194 | a deletion takes exactly the recorded addresses out of the pool, empties exactly the ingress of the recorded services it could write, keeps every service with its type, class and request, and drops the config alone, if at all |
| Serving.DeletionOutcome | internal/controller/heliosconfig_controller.go:95-119 | a reconcile of a config being deleted does just that, after adding the finalizer if need be |
| Serving.UnpinnedIff | internal/controller/ip_manager.go:83-97 | an unpinned call takes the next free address of each range and fails if and only if a range is exhausted |
| Serving.MarkedIff | internal/controller/ip_manager.go:66-76 | marking adds what other configs record, and nothing else |
| Serving.JobGoesOnIff | internal/controller/heliosconfig_controller.go:165-249 | the loop goes on, to the rest of its list, if and only if the round assigned addresses and recorded them |
| Serving.RoundOnServices | internal/controller/ip_manager.go:124-155 | a round changes at most the first service of its list, by the class and by an ingress of its IPv4 and then its IPv6 address, as the two writes turn out |
| Serving.RoundOnConfigs | internal/controller/heliosconfig_controller.go:217-248 | a round that goes on records the addresses under the service's name in their maps, and changes no other record, spec or config |
| Serving.RoundOnPool | internal/controller/ip_manager.go:66-119 | after a round the pool has gained what other configs record, once listed, and the new addresses, once assigned, and nothing else |
| Serving.ServedWasListed | internal/controller/service_filter.go:18-44 | in every run a service changed by a round was listed, by an earlier reconcile of the config, with values that pass the filter's tests |
| Serving.EditIsNotNoticed | internal/controller/ip_manager.go:126-145 | whatever a service is edited to after it was listed, its round serves it |
| Serving.PassingIsListed | internal/controller/service_filter.go:18-44 | a listed service that passes the tests and requests no address has its place in the list to serve |
| Fulfilment.FinishServes | internal/controller/heliosconfig_controller.go:165-249 | the loop gives the first n services the first n free addresses of the scan, and nothing else happens |
| Fulfilment.ReconcileFulfils | internal/controller/heliosconfig_controller.go:67-253 | in an undisturbed single-stack reconcile the first min(eligible, free within the scan limit, quota left) eligible services of the listing get the smallest free addresses in ascending order and the class, they are recorded, and no other service, config, record or spec changes |
| Quota.StepKeepsQuota | internal/controller/ip_manager.go:235-242 | no step takes a config's IPv4 records above max(their number, maxAllocations) |
| Quota.QuotaOverRuns | internal/controller/heliosconfig_controller.go:165-227 | in every run, whatever fails and whatever the ranges, a config that records at most m IPv4 addresses keeps to m while its maxAllocations stays m > 0 |
| Requests.RequestHonoredIff | internal/controller/ip_manager.go:30-49 | a call that succeeds returns the requested address in its family's slot, if and only if the config has that slot |
| Requests.AdmittedRequestRefusedIff | internal/controller/service_filter.go:32-42 | an admitted request that is no look-alike is refused if and only if it is taken or every scanned address of the other family's range is used |
| Requests.AdmittedIff | internal/controller/service_filter.go:36-42 | on single- and dual-stack configs the filter lets a request pass if and only if its own family's range has it or it looks like an address of the other's |
| Requests.NeverHandedIff | internal/controller/ip_manager.go:81-97 | an admitted request is never handed out, from any pool, if and only if it is a look-alike outside its own family's range; a dual-stack config then refuses it, a single-stack one gives another address unless it is exhausted |
| Requests.DualStackExample | internal/controller/service_filter.go:36-42 | with 10.0.0.1-10.0.0.9 and fd00::-fdff::, a request for 253.0.0.5 is admitted, and refused from every pool |
| Requests.NoConflictNoLoss | internal/controller/ip_manager.go:198-232 | with no conflict reported, an address another config records is allocatable from the range it was compared with if and only if that is a CIDR of the other family which it looks like an address of |
| Requests.OneHolderIff | internal/network/ip_allocator.go:42-48 | an assignment leaves one holder per address if and only if it takes none from a one-address range that another service holds |
| Requests.ReleaseHeldIff | internal/controller/ip_manager.go:163-193 | a release leaves all held addresses in the pool if and only if every holder of a released one is of the config's namespace, recorded by name, and cleared |
| Reconciler.Controller.constructor | internal/controller/ip_manager.go:21-25 | the controller starts from the given allocator and objects |
| Reconciler.Controller.MarkOthers | internal/controller/ip_manager.go:66-76 | the nested loops add to the pool exactly what other configs record |
| Reconciler.Controller.AllocateIP | internal/controller/ip_manager.go:44-49 | a pinned or an unpinned allocation, and the pool after it |
| Reconciler.Controller.AssignIPToService | internal/controller/ip_manager.go:124-155 | the service and nothing else changes, by the outcome of the two writes |
| Reconciler.Controller.AllocateAndAssign | internal/controller/ip_manager.go:55-120 | the steps with both roll-backs compute the specified world and result |
| Reconciler.Controller.ReleaseAll | internal/controller/ip_manager.go:158-194 | the three loops release exactly the recorded addresses and clear exactly the recorded services that could be written |
| Reconciler.Controller.CheckIPConflicts | internal/controller/ip_manager.go:198-232 | the nested loops collect exactly the addresses other configs record in this config's ranges |
| Reconciler.Controller.HandleDeletion | internal/controller/heliosconfig_controller.go:256-283 | release, then drop the config when the finalizer write succeeds |
| Reconciler.Controller.ServeEligible | internal/controller/heliosconfig_controller.go:165-249 | the loop with its quota break and failure exits computes the specified world |
| Reconciler.Controller.Reconcile | internal/controller/heliosconfig_controller.go:67-253 | the whole reconcile computes the specified world, for all API outcomes |
| Admission.OverlapForRange | api/v1/heliosconfig_webhook.go:235-263 | a config is reported if and only if some existing one, not of the excluded name, has an overlapping range in that field |
| Admission.CheckIPRangeOverlap | api/v1/heliosconfig_webhook.go:214-229 | the check passes if and only if the listing failed or neither field overlaps |
| Admission.NoOverlapIsDisjoint | api/v1/heliosconfig_webhook.go:256-260 | ranges with a common allocatable address overlap |
| Admission.ValidIsOrdered | api/v1/heliosconfig_webhook.go:97-145 | a range that passes validation parses, with its start at or before its end |
| Admission.ValidIff | api/v1/heliosconfig_webhook.go:97-145 | a range passes validation if and only if it has bounds of one family, in order |
| Admission.MeetsIff | internal/network/ip_allocator.go:113-126 | valid ranges have bounds that meet if and only if some address is allocatable in both |
| Admission.OverlapsIff | api/v1/heliosconfig_webhook.go:256-260 | valid ranges are reported if and only if some address is allocatable in both or one ends at an IPv4-mapped address and looks past it into the other |
| Admission.FalseAlarmExample | api/v1/heliosconfig_webhook.go:256-260 | ::/80 and fd00::-fe00:: are reported and share nothing |
| Admission.ClashFreeIff | api/v1/heliosconfig_webhook.go:214-263 | a valid spec passes the check if and only if no field of it shares an address with, or looks past into, the same field of a config compared |
| Admission.StepKeepsDisjointIff | api/v1/heliosconfig_webhook.go:53-89 | an accepted create, update or delete keeps the configs disjoint if and only if its ranges meet none of those not compared: namesakes, or all when the listing failed |
| Admission.AdmissionsDisjointIff | api/v1/heliosconfig_webhook.go:53-94 | over every sequence of accepted requests they stay disjoint if and only if each request keeps clear in that way |
| Admission.UniqueNamesAreSafe | api/v1/heliosconfig_webhook.go:214-229 | with names unique across namespaces and a listing that succeeds, every accepted request keeps clear |
| Admission.NeverHandedTwice | api/v1/heliosconfig_webhook.go:214-263 | after requests that kept clear, two configs with ranges of their fields' families that their scans stay in are handed disjoint addresses, IPv4 and IPv6, requested or not, whatever their pools hold |
| Admission.NamesakeExample | api/v1/heliosconfig_webhook.go:242-244 | from disjoint configs, an accepted update gives one config the range of its namesake |
| Admission.ListFailureExample | api/v1/heliosconfig_webhook.go:216-220 | with the listing failing, an accepted create takes the range of an existing config |
| Balancing.EffectiveIsPositive | internal/loadbalancer/algorithms.go:155-167 | with no negative weights the effective weight is at least one |
| Balancing.EffectiveWeight | internal/loadbalancer/algorithms.go:155-167 | the weight is that of the first table entry of the service, or without one the backend's own, with one for zero |
| Balancing.ResolveWeight | internal/loadbalancer/algorithms.go:155-167 | the loop finds that weight |
| Balancing.HealthyInOrder | internal/loadbalancer/algorithms.go:125-132 | every healthy backend is at the place counted by the healthy ones listed before it, and nothing else is there |
| Balancing.RoundRobin.Select | internal/loadbalancer/algorithms.go:58-75 | the pick at the incremented 32-bit counter of the service; only that counter moves |
| Balancing.WeightedRoundRobin.Collect | internal/loadbalancer/algorithms.go:122-132 | exactly the healthy backends, in order, with their weights and the sum of them |
| Balancing.WeightedRoundRobin.Walk | internal/loadbalancer/algorithms.go:141-148 | the loop ends where the running weight passes the point, with the fallback written out |
| Balancing.WeightedRoundRobin.Select | internal/loadbalancer/algorithms.go:107-149 | a healthy backend at the ticket's point; nothing and no ticket when the healthy weight is zero; only that counter moves |
| Fairness.WalkEndsInside | internal/loadbalancer/algorithms.go:141-148 | with positive weights the fallback is unreachable |
| Fairness.PickIsInterval | internal/loadbalancer/algorithms.go:141-146 | a backend is picked if and only if the point lies between the weights before it and those up to it |
| Fairness.PointsPerIndex | internal/loadbalancer/algorithms.go:141-146 | each backend owns exactly its weight in points |
| Fairness.ExactlyFair | internal/loadbalancer/algorithms.go:138-146 | over a window as long as the total weight each healthy backend is picked exactly its weight times |
| Fairness.FairIff | internal/loadbalancer/algorithms.go:138-146 | this holds for every weighting of a total if and only if the window does not pass the counter's wrap or the total divides 2^32 |
| Fairness.WrapExample | internal/loadbalancer/algorithms.go:138-146 | over the wrap, three unit weights pick the first backend twice and the last never |
| Fairness.RoundRobinIsUnitWeights | internal/loadbalancer/algorithms.go:73-74 | round robin is weighted round robin with unit weights |
| Tickets.StepKeepsInv | internal/loadbalancer/algorithms.go:112-139 | lock, find or create, and atomic add keep the ticket invariant of every service |
| Tickets.OneCounterPerService | internal/loadbalancer/algorithms.go:63-71 | no schedule replaces a counter or shares it between services |
| Tickets.ConcurrentIsSequential | internal/loadbalancer/algorithms.go:112-139 | under every schedule the finished calls of a service drew consecutive tickets, once each, and made the picks of as many sequential calls |
| Tickets.TwoStepsFinish | internal/loadbalancer/algorithms.go:112-139 | under every schedule a call is done exactly from its second step on |
| Tickets.ConcurrentlyFair | internal/loadbalancer/algorithms.go:107-149 | under every schedule, a total weight's worth of calls picks each healthy backend exactly its weight times |
| Tickets.SelectPicksNext | internal/loadbalancer/algorithms.go:138-146 | what Select computes from its counter is the pick of the next ticket |
| Tickets.FairPass | internal/loadbalancer/algorithms.go:107-149 | Select called a total weight's worth of times over a regular window returns each healthy backend exactly as often as its configured weight says |
| LeastConnection.LeastIndex | internal/loadbalancer/algorithms.go:81-97 | the choice is the first healthy backend of least count; none if and only if every healthy count is at MaxInt32 |
| LeastConnection.Select | internal/loadbalancer/algorithms.go:81-97 | the loop over the backends makes that choice |
| LeastConnection.IncrementConnections | internal/loadbalancer/balancer.go:40-42 | the 32-bit count goes up by one, with wrap-around |
| LeastConnection.SpreadNeverGrows | internal/loadbalancer/algorithms.go:81-97 | picks followed by increments never widen the spread of healthy counts beyond max(initial, 1) |
| LeastConnection.LevelsExactly | internal/loadbalancer/algorithms.go:81-97 | the healthy counts are level at m after exactly the sum of their shortfalls in picks, and not before |
| LeastConnection.SelectAndCount | internal/loadbalancer/algorithms.go:81-97 | Select followed by the increment counts the chosen object wherever it is listed, and on distinct objects takes one step of that greedy run |
| HealthLoop.StepKeepsInv | internal/loadbalancer/health.go:30-56 | every interleaved step keeps both wait groups equal to what they count |
| HealthLoop.StepSpawns | internal/loadbalancer/health.go:36-54 | the first check and every tick put one new probing check in flight, and no other step does |
| HealthLoop.ChecksAreSpawns | internal/loadbalancer/health.go:36-54 | over every run there are as many checks as ticks and first checks made |
| HealthLoop.FirstCheckOnce | internal/loadbalancer/balancer.go:31-34 | with health checks on the loop makes its first check, once; without them it never runs |
| HealthLoop.StopCalled | internal/loadbalancer/balancer.go:50-59 | the first call of Stop closes the channel and waits, later calls change nothing |
| HealthLoop.ReturnedIsQuiet | internal/loadbalancer/balancer.go:50-59 | when the first Stop returns, the loop has ended and no check is in flight |
| HealthLoop.QuietAfterStop | internal/loadbalancer/balancer.go:31-59 | and none starts ever after, in every interleaving |
| HealthLoop.WaitGroupsAreUsedProperly | internal/loadbalancer/health.go:30-56 | no wait group goes negative, and none is added to while Stop waits on it |
| HealthLoop.StopIsNeverStuck | internal/loadbalancer/balancer.go:50-59 | in every reachable state in which Stop waits, some step other than a tick is possible |
| HealthLoop.StopReturnsWithin | internal/loadbalancer/balancer.go:50-59 | a stretch without ticks in which Stop keeps waiting is no longer than the rank of its first state |
| Registry.ShiftDown | internal/loadbalancer/backend.go:39-39 | the in-place append moves the tail down by one and touches nothing else |
| Registry.BackendRegistry.AddBackend | internal/loadbalancer/backend.go:20-29 | the service's list gains the backend at its end; other lists are untouched |
| Registry.BackendRegistry.RemoveBackend | internal/loadbalancer/backend.go:32-44 | the service's list loses its first backend of that address, in order; other lists are untouched |
| Registry.BackendRegistry.Snapshot | internal/loadbalancer/algorithms.go:36-46 | a fresh copy of the list |
| Registry.Apply | internal/loadbalancer/backend.go:20-44 | any sequence of changes makes of every service's list what the sequence specifies |
| Registry.Select | internal/loadbalancer/algorithms.go:58-149 | each of the three algorithms returns its own choice and moves its own counter: by the turn, by the weights at the ticket, or the first healthy backend of least count |
| Registry.NextBackend | internal/loadbalancer/algorithms.go:36-49 | whatever changes come between the copy and the choice, the copy is the list as it was, and the choice is the algorithm's from it |
| Registry.PickAmidChanges | internal/loadbalancer/algorithms.go:36-49 | after any changes, and with any changes after the copy, the backend returned was added under the service and was there at every point since, up to the copy |
| Registry.PresentWasAdded | internal/loadbalancer/backend.go:20-44 | a backend found under a service was added under it, and was there at every point since |
| Passes.TurnsPass | internal/loadbalancer/algorithms.go:36-75 | as many calls of NextBackend by turns as there are backends return the backend of every place once, over a regular window |
| Passes.WeightPass | internal/loadbalancer/algorithms.go:36-149 | a total weight's worth of calls of NextBackend by weight returns every healthy backend as often as its configured weight says, over a regular window |

## Left out

- Parsing and printing of addresses and CIDRs is left to Go's net package: ranges and requests enter the model parsed, and the pool's keys are addresses, one per printed text. Splitting a range's text at "/" and "-" and trimming it is not modelled.
- net.IPNet.Contains is not part of the repository; the model takes it to compare families and then masked bytes.
- Events, conditions, phases, messages, metrics, log lines and requeue delays: nothing modelled reads them.
- The retry on conflict in assignIPToService is folded into its outcome: both writes, none, or the ingress alone.
- Controller restarts, stale caches and several workers: the run theorems assume one process and current reads.
- Owner texts in the conflict map: they are only logged.
- findLoadBalancerServices, SetupWithManager and NetworkManager: enqueueing and delegation.
- The order in which the API server lists objects and Go iterates over maps: a listing is an arbitrary sequence, and map loops are proved for every order.
- TCP and HTTP probes, and the writing of probe results to backends: the health loop is modelled for its spawning and waiting.
- Concurrent first calls of Stop: the code has them race on the channel, and the model has one call of Stop at a time.
- Random and IP-hash selection: they index the healthy list with a library's number.
- validatePorts, validateWeights and validateHealthCheck: field checks that add only easy members.
- An IPRange is compared with other IPRanges and an IPv6Range with other IPv6Ranges, as in the webhook; across the two fields a claim is made for family-correct configs only (`NeverHandedTwice`).
- Backend ports, the stats map and decrements of connection counts.
- Fulfilment.ReconcileFulfils: single-stack configs whose services request no address; for dual-stack and pinned requests the ownership, conservation and request theorems apply.
- Balancing.RoundRobin.Select: requires that the number of backends is not a multiple of 2^32, where the code divides by zero.
- Balancing.WeightedRoundRobin.Select: total weights are unbounded integers; Go's int and its 64-bit wrap-around are not modelled.
- Admission.CheckIPRangeOverlap: requires the listing it is given to be complete.
- Registry.BackendRegistry.AddBackend: the spare capacity of a grown slice is filled with the new backend rather than nil; no one reads it.
- Registry.NextBackend: of the five algorithms the three above; changes of a backend's health between the copy and the choice are not among the changes.
- Quota.StepKeepsQuota: for configs that record fewer than 2^31 IPv4 addresses; beyond that the code's count wraps below zero.
- Containment.ConfinedIff: ranges whose two ends are of different families are left out, here and where a range is said to be of one family; the webhook refuses them.
- Allocator.PickIsLeastFree: the order of the addresses is stated for scans that do not pass the all-ones address; `VisitedIff` and `PickFailsIff` cover those that do.
- Requests.NeverHandedIff: as in its companions, IPRange holds an IPv4 and IPv6Range an IPv6 range, which the fields are documented for and the webhook does not enforce.

# Verified model of the scheduler plugins

This project models the state and the algorithms of the scheduler plugins in
Dafny and proves what they guarantee:

- **Capacity scheduling.** One usage ledger per namespace, driven by informer
  events, Reserve and Unreserve; admission on a deep-cloned snapshot; preemption
  that strips a node of potential victims and gives as many back as it can, in
  an order that puts pods protected by disruption budgets first; and the
  parallel dry run over the nodes.
- **Coscheduling.** Permit, Unreserve and PostFilter of pod groups as a step
  system, the resource check for a whole gang, the order of the scheduling
  queue, and the phase of a pod group under its two writers.
- **Trimaran.** The time-ordered list of recent pods per node, kept in slices
  that are edited in place, and the target-load score that reads it.
- **Node resources and cross-node preemption.** Score normalisation in wrapping
  64-bit arithmetic, and the subset search with its shared path buffer.

Objects that the plugins update in place are classes here (`ElasticQuotaInfo`,
`ElasticQuotaInfos`, `ResourceCell`, `Plugin`, `NodeInfo`, `Trial`, `Handler`,
`PodGroup`), Go slices are prefixes of arrays that can be shared, and Go's range
over a map is a loop that takes the keys in an arbitrary order. Each such method
is proved against a function on values (`Ledger.Step`, `SelectVictims.Selection`,
`Gang.Next`, `LoadCache.Next`, `Choices`, ...); the theorems are about those
functions and about whole runs of them.

## Reading order

`Resources`, `Pods`, `ElasticQuota`, `Ledger`, `Admission`, `CapacityScheduling`
for the ledger; `PodDisruption`, `VictimScan`, `Reprieve`, `SelectVictims`,
`NodeTrial`, `VictimSelection`, `VictimTheorems`, `DryRun` for preemption; `Gang`,
`ClusterCheck`, `Coscheduling`, `QueueOrder`, `PodGroupPhase` for gangs;
`LoadCache`, `Slices`, `PodAssignEventHandler`, `TargetLoadPacking`; `Allocatable`;
`CrossNodePreemption`. `Sums` and `Wrappers` are shared helpers.

`dafny verify dfyconfig.toml` checks everything.

## Where the promise fails

Some properties that one would expect hold only under a condition. Each is
stated with its exact condition:

- A gang can be released in part: a rejected pod stays in the node snapshot until
  its binding goroutine has forgotten it, and Permit counts it. All-or-nothing
  holds along a run exactly if no Permit is tipped by such pods
  (`Gang.WholeThroughoutIffNeverTipped`, `Gang.LingeringRejectionBreaksGang`).
- `CheckClusterResource` depends on the order of the nodes. For positive amounts
  of some resources every order gives the same verdict exactly if none of these
  resources is overcommitted on one node and left over on another
  (`ClusterCheck.OrderIsIrrelevantIff`, and `ClusterCheck.OrderIsIrrelevantForAllIff`
  for arbitrary amounts); it compares a request with the cluster's
  total exactly if no prefix of the nodes has more than all of them
  (`ClusterCheck.TotalsDecideIff`).
- PostBind after a group has started running puts its phase back, and a finished
  group can turn into a failed one (`PodGroupPhase.PostBindLowersRankIff`,
  `PodGroupPhase.SyncLowersRankIff`). Both happen to new groups
  (`PodGroupPhase.RunningGroupFallsBack`, `PodGroupPhase.FinishedGroupFails`).
- A sync crashes on a pending group without pods whose MinMember is zero or less,
  because the first pod is read (`PodGroupPhase.PodGroup.SyncHandler`).
- Candidates of cross-node preemption keep the path slice as their victims. The
  choice is right at the time of the call, but later appends to the shared array
  overwrite the kept slice. Every choice survives the search exactly if the arrays
  never have a slot to spare before the last two lengths
  (`CrossNodePreemption.AllSurviveIff`); where slices double, that is as long as
  there are at most four evictable pods (`CrossNodePreemption.FourPodsAreSafe`).
  With five, the candidate found for the first four names the fifth in place of
  the fourth (`CrossNodePreemption.FivePodsLoseAChoice`).
- The number of violating victims leaves out violating pods that are evicted for
  the quotas' sake. It is exact if and only if there are none
  (`VictimTheorems.ViolationCountIsExactIff`), which a preemptor without quota can
  rely on (`VictimTheorems.NoQuotaExactCount`) and one with a quota cannot
  (`VictimTheorems.QuotaEvictionIsNotCounted`).
- The aggregate check overlooks a resource that no ledger and no request has an
  entry for. That makes a difference exactly if the Mins of such a resource add up
  to less than nothing while no other one is exceeded
  (`ElasticQuota.AggregateIsPointwise`), and then a zero entry left behind in a
  ledger changes the verdict (`ElasticQuota.LeftoversMatterIff`,
  `ElasticQuota.LeftoverEntryMatters`).

Where the code and its documentation differ, the model follows the code: a
resource missing from Max is limited to 0, although kep/9-capacity-scheduling
calls Max infinite by default (`Admission.MissingFromMax` says which pods that turns
away), and `cleanupCache` removes nothing from a list
that is stale throughout and never drops a node, although its comment says that
it deletes stale entries and empty nodes.

## Model

| member | source | states |
|---|---|---|
| Ledger.RunIsExact | pkg/capacityscheduling/capacity_scheduling.go:603-708 | after any run of quota and pod events, Reserve and Unreserve, each ledger's usage is, in every dimension, the sum of the requests of exactly the pods it lists |
| Ledger.QuotaIffGranted | pkg/capacityscheduling/capacity_scheduling.go:603-672 | a namespace has a quota if and only if the history contains the add or update event of one, or a pod event for which the lister finds one, with no deletion of the quota since |
| Ledger.ListedIffPresent | pkg/capacityscheduling/capacity_scheduling.go:640-708 | a ledger lists a pod if and only if the history contains an arrival of the pod while its namespace had a quota, with no departure of the pod and no deletion of the quota since |
| Ledger.LimitsAreLatest | pkg/capacityscheduling/capacity_scheduling.go:603-638 | every quota enforces the Min and Max of the event that last set them; an addition for a namespace that already has a quota is ignored |
| Ledger.AddDeleteConserve | pkg/capacityscheduling/elasticquota.go:131-163 | a repeated add or delete changes nothing, a delete after a first add (or an add after a delete) restores every lookup, and the total over all ledgers moves by exactly the request |
| Admission.AdmitsExactlyTheSafePods | pkg/capacityscheduling/capacity_scheduling.go:188-210 | from a ledger within its limits PreFilter lets a new pod through if and only if committing the pod leaves every namespace within Max and all together within the sum of the Mins |
| Admission.VerdictOnAnyLedger | pkg/capacityscheduling/capacity_scheduling.go:188-210 | on any ledger, also one beyond its limits, a new pod fails on Max exactly if the committed ledger of its namespace exceeds Max in CPU, memory or a scalar that the pod mentions, and otherwise on the Mins exactly if the committed totals exceed them in a dimension that has an entry |
| Admission.RunKeepsQuotas | pkg/capacityscheduling/capacity_scheduling.go:188-293 | over every interleaving of checks, commits of checked pods, departures and informer echoes, no namespace exceeds its Max and the total usage stays within the total Min |
| Admission.DepartureKeepsVerdict | pkg/capacityscheduling/capacity_scheduling.go:188-210 | a verdict reached on the snapshot is still right on a live ledger that has only lost pods since |
| Admission.MissingFromMax | pkg/capacityscheduling/elasticquota.go:89-104 | a pod that asks for a scalar that Max does not mention is turned away for Max if and only if usage and request of it add up to more than 0, or another dimension exceeds Max |
| ElasticQuota.AggregateIsPointwise | pkg/capacityscheduling/elasticquota.go:39-50 | the aggregate check, which looks only at dimensions that have an entry, is the comparison of the totals in all dimensions if and only if it finds one exceeded or no dimension without an entry has a negative total Min |
| ElasticQuota.LeftoversMatterIff | pkg/capacityscheduling/elasticquota.go:81-87 | between two ledgers that agree in every lookup, additional zero entries turn the aggregate verdict if and only if one of them is of a dimension whose total Min is negative |
| ElasticQuota.ElasticQuotaInfos.AggregatedMinOverUsedWithPod | pkg/capacityscheduling/elasticquota.go:39-50 | the verdict is the one on the totals, in whatever order the map is ranged over |
| ElasticQuota.ElasticQuotaInfo.OverUsedCheck | pkg/capacityscheduling/elasticquota.go:89-104 | true exactly if usage plus request exceeds the limit in CPU, memory or a scalar that the pod asks for |
| ElasticQuota.MoreThanMinCheck | pkg/capacityscheduling/elasticquota.go:165-180 | true exactly if usage exceeds Min in CPU, memory or a scalar that has a usage entry |
| ElasticQuota.ElasticQuotaInfos.Clone | pkg/capacityscheduling/elasticquota.go:31-37 | the copy has the same value and shares no object with the original |
| ElasticQuota.ElasticQuotaInfo.AddPodIfNotPresent | pkg/capacityscheduling/elasticquota.go:131-146 | updates the ledger in place as WithPod says: a pod without a UID is an error, a listed pod is not counted again |
| ElasticQuota.ElasticQuotaInfo.DeletePodIfPresent | pkg/capacityscheduling/elasticquota.go:148-163 | updates the ledger in place as WithoutPod says |
| Resources.ResourceCell.Add | pkg/capacityscheduling/elasticquota.go:73-79 | adds the request to the vector in every dimension, whatever the order of its scalars |
| Resources.ResourceCell.Subtract | pkg/capacityscheduling/elasticquota.go:81-87 | subtracts the request from the vector in every dimension |
| CapacityScheduling.Plugin.PreFilter | pkg/capacityscheduling/capacity_scheduling.go:188-210 | decides on a snapshot that equals the live ledger and shares no object with it; the live ledger is untouched |
| CapacityScheduling.Plugin.Reserve | pkg/capacityscheduling/capacity_scheduling.go:267-280 | performs the Reserved step of the ledger in place; fails only for a pod without a UID whose namespace has a quota |
| CapacityScheduling.Plugin.Unreserve | pkg/capacityscheduling/capacity_scheduling.go:282-293 | performs the Unreserved step in place |
| CapacityScheduling.Plugin.AddElasticQuota | pkg/capacityscheduling/capacity_scheduling.go:603-615 | performs the QuotaAdded step in place |
| CapacityScheduling.Plugin.UpdateElasticQuota | pkg/capacityscheduling/capacity_scheduling.go:617-631 | performs the QuotaUpdated step: new limits, with the old pod set and the old usage vector itself |
| CapacityScheduling.Plugin.DeleteElasticQuota | pkg/capacityscheduling/capacity_scheduling.go:633-638 | performs the QuotaDeleted step in place |
| CapacityScheduling.Plugin.AddPod | pkg/capacityscheduling/capacity_scheduling.go:640-672 | performs the PodAdded step, creating the quota from the lister if it is not there yet |
| CapacityScheduling.Plugin.UpdatePod | pkg/capacityscheduling/capacity_scheduling.go:674-694 | performs the PodUpdated step: the pod leaves when it moves from a live to a final phase |
| CapacityScheduling.Plugin.DeletePod | pkg/capacityscheduling/capacity_scheduling.go:696-708 | performs the PodDeleted step in place |
| Pods.ComputePodResourceRequest | pkg/capacityscheduling/capacity_scheduling.go:790-807 | the loops compute Request |
| Pods.RequestIsLeastCover | pkg/capacityscheduling/capacity_scheduling.go:763-807 | in each dimension the request less overhead is the least amount that covers the sum over the regular containers and every init container alone |
| Pods.RequestMentions | pkg/capacityscheduling/capacity_scheduling.go:790-807 | the scalars with an entry in the request, which are those that the quota checks look at, are the ones that a regular container or the overhead mentions or that an init container has some of |
| VictimTheorems.PotentialVictimsAreExactly | pkg/capacityscheduling/capacity_scheduling.go:465-519 | without a quota the potential victims are exactly the lower-priority pods without one; if usage and request exceed Min, exactly the lower-priority pods of the namespace; otherwise, from each other quota exactly as many pods, in scan order, as bring it down to its Min |
| VictimScan.OnlyBorrowersAreRaided | pkg/capacityscheduling/capacity_scheduling.go:491-503 | for a preemptor within its Min, every potential victim is of another quota that is above its Min at the moment the pod is taken |
| VictimScan.RaidStopsAtMin | pkg/capacityscheduling/capacity_scheduling.go:466-504 | the pods taken from another quota are the first ones of it in scan order, and one is spared only if the quota is not above its Min after the scan |
| VictimScan.OnlyLowerPriorityPeers | pkg/capacityscheduling/capacity_scheduling.go:477-518 | otherwise every potential victim has lower priority than the preemptor and its namespace, or has no quota if the preemptor has none |
| NodeTrial.Trial.TakePotentialVictims | pkg/capacityscheduling/capacity_scheduling.go:465-519 | ranging over the sorted list while removing from node and quotas yields the potential victims and the stripped state; fails exactly if one of them cannot be removed |
| NodeTrial.Trial.ReprievePod | pkg/capacityscheduling/capacity_scheduling.go:555-576 | add, test, and two independent evictions amount to: the pod stays if and only if node and quotas admit it, and is otherwise evicted once, with the state restored |
| NodeTrial.Trial.ReprievePods | pkg/capacityscheduling/capacity_scheduling.go:577-600 | a pass of the loop produces the kept and evicted pods of Reprieve and counts the filters' refusals |
| VictimSelection.SelectVictimsOnNode | pkg/capacityscheduling/capacity_scheduling.go:423-601 | the mutating algorithm returns Selection of the node and quotas it started from |
| SelectVictims.IncludeRestores | pkg/capacityscheduling/capacity_scheduling.go:440-448 | adding a pod back to a stripped ledger gives, up to zero entries, the stripped ledger plus one more pod |
| SelectVictims.ExcludeRestores | pkg/capacityscheduling/capacity_scheduling.go:430-439 | taking it out again undoes that in every lookup and every total |
| SelectVictims.ChecksAgree | pkg/capacityscheduling/capacity_scheduling.go:568-573 | the two quota checks on the mutated quotas say exactly whether base usage plus the returned pods plus the request is within Max and total Min |
| Reprieve.KeptAndEvictedPartition | pkg/capacityscheduling/capacity_scheduling.go:555-600 | each potential victim is either kept or evicted, never both, and evicted once |
| Reprieve.KeptIsAdmissible | pkg/capacityscheduling/capacity_scheduling.go:537-600 | what is left after the loop passes the filters and both quota checks |
| Reprieve.GreedyIsLexGreatest | pkg/capacityscheduling/capacity_scheduling.go:550-600 | no admissible set of pods given back is lexicographically greater, in the order of trial, than the one the loop gives back |
| Reprieve.NoEvictionIsSpare | pkg/capacityscheduling/capacity_scheduling.go:555-600 | no single evicted pod can be added to the final state |
| VictimTheorems.SelectionIsSound | pkg/capacityscheduling/capacity_scheduling.go:522-601 | the victims are distinct potential victims, and on the original node and ledgers with exactly them gone the preemptor passes the filters and both quota checks, whether or not the ledgers list all the pods |
| VictimTheorems.PreemptorIsAdmittedNext | pkg/capacityscheduling/capacity_scheduling.go:522-601 | after any run of ledger events that the snapshot was taken from, the deletion of exactly the victims leads to a ledger on which PreFilter lets the preemptor through |
| VictimTheorems.SelectionIsComplete | pkg/capacityscheduling/capacity_scheduling.go:520-548 | a node is given up if and only if it has no potential victim, one of them has no key, or no choice of pods to give back is admissible |
| VictimTheorems.SelectionIsBest | pkg/capacityscheduling/capacity_scheduling.go:550-600 | every other sufficient choice of victims first differs from the selection at a pod that the selection keeps and the other choice evicts |
| VictimTheorems.ViolationCountIsExactIff | pkg/capacityscheduling/capacity_scheduling.go:577-601 | the reported number of violations is at most the number of PDB-violating victims, which come first among the victims, and equals it if and only if the loop meets no violating pod that the filters take back and the quotas do not |
| VictimTheorems.NoQuotaExactCount | pkg/capacityscheduling/capacity_scheduling.go:575-601 | for a preemptor without a quota the number is exact |
| VictimTheorems.QuotaEvictionIsNotCounted | pkg/capacityscheduling/capacity_scheduling.go:575-591 | a lower-priority pod of a used-up quota is evicted against its disruption budget while the number reported is 0 |
| PodDisruption.FilterPodsWithPDBViolation | pkg/capacityscheduling/capacity_scheduling.go:814-859 | the loops with their countdown array compute the two parts |
| PodDisruption.SplitIsStablePartition | pkg/capacityscheduling/capacity_scheduling.go:810-859 | the parts keep the input order and together are the input; a pod is violating if and only if some budget covering it has more covered pods up to it than it allows |
| PodDisruption.ViolatesIff | pkg/capacityscheduling/capacity_scheduling.go:814-859 | a pod is violating if and only if some budget that it spends from (one of its namespace, with a selector that parses, is not empty and matches its labels, and without the pod among its disrupted ones) allows fewer disruptions than pods up to it spend |
| PodDisruption.NonViolatingWithinBudget | pkg/capacityscheduling/capacity_scheduling.go:814-859 | the non-violating pods that a budget covers number at most its allowance, or none |
| DryRun.DryRunPreemption | pkg/capacityscheduling/capacity_scheduling.go:380-405 | under every interleaving of the goroutines each candidate is there as often as there are nodes of its name on which Selection, on the unchanged snapshot, yields its victims; nodes and snapshot are left as they were |
| DryRun.SelectOnCopies | pkg/capacityscheduling/capacity_scheduling.go:384-391 | selecting on one goroutine's copies leaves every other goroutine's copies as they were made |
| DryRun.CollectPermutation | pkg/capacityscheduling/capacity_scheduling.go:389-403 | the order in which goroutines report does not change which candidates there are |
| Gang.StepIsWholeIffNotTipped | pkg/coscheduling/core/core.go:152-170 | a step keeps all-or-nothing release of every group if and only if it is not a Permit that reaches MinMember only by counting rejected pods that still hold nodes |
| Gang.WholeThroughoutIffNeverTipped | pkg/coscheduling/coscheduling.go:196-253 | a run of Permit, time-out, Unreserve, Forget, PostFilter and expiry releases every group whole throughout if and only if no Permit in it is tipped |
| Gang.SettledRejectionsKeepGangsWhole | pkg/coscheduling/coscheduling.go:196-253 | if rejected pods are forgotten before the next Permit of their group, the released pods of each group always number 0 or at least MinMember, and none of a released group is left waiting |
| Gang.LingeringRejectionBreaksGang | pkg/coscheduling/core/core.go:152-170 | otherwise one pod of a gang of two can be released alone |
| Gang.UnreserveRejectsGroup | pkg/coscheduling/coscheduling.go:240-253 | the Unreserve of a pod of a known group rejects exactly the waiting pods of the group, denies the group and takes it off the permitted ones; released pods and other groups are unchanged |
| Gang.PostFilterRejectsIff | pkg/coscheduling/coscheduling.go:145-188 | a pod that fits nowhere has its group rejected in that way if and only if fewer than nine tenths of MinMember pods hold nodes; otherwise nothing changes |
| Gang.PermitReleasesIff | pkg/coscheduling/core/core.go:152-170 | Permit releases the waiting pods of the group and the new one if and only if the pods that hold nodes and the new one number at least MinMember; otherwise the new one waits |
| Gang.ReleasedGangIsSpared | pkg/coscheduling/coscheduling.go:145-188 | once a gang is released whole, a pod of it that fits nowhere changes nothing, and the Unreserve of a straggler signals no pod |
| Gang.DeniedUntilExpiry | pkg/coscheduling/core/core.go:226-228 | a denied group stays denied through every run until its cache entry expires |
| Coscheduling.CalculateAssignedPods | pkg/coscheduling/core/core.go:259-276 | the nested loops return the number of pods that the scheduler has assumed for the group |
| Coscheduling.Plugin.SignalWaiting | pkg/coscheduling/coscheduling.go:224-229 | visiting the waiting pods in any order signals exactly those of the group, and no pod that already has a signal |
| Coscheduling.Plugin.Permit | pkg/coscheduling/coscheduling.go:196-232 | performs the Permit step; Success exactly if the pod is released at once, Wait exactly if it waits |
| Coscheduling.Plugin.Unreserve | pkg/coscheduling/coscheduling.go:240-253 | performs the Unreserve step |
| Coscheduling.Plugin.PostFilter | pkg/coscheduling/coscheduling.go:145-188 | performs the PostFilter step, unless PreFilter had turned the pod away |
| Coscheduling.Plugin.PreFilter | pkg/coscheduling/core/core.go:100-149 | passes exactly the pods whose group is not denied, has enough pods, and fits or has fitted before; a group that does not fit is denied |
| ClusterCheck.CheckClusterResource | pkg/coscheduling/core/core.go:280-300 | returns no error if and only if there is a usable node and each requested amount is reached by the free amounts of some prefix of the nodes that ends in a usable one |
| ClusterCheck.TotalsDecideIff | pkg/coscheduling/core/core.go:280-300 | given a usable node, exactly the amounts up to the total free amount of all nodes are reached if and only if no prefix that ends in a usable node has more than that total |
| ClusterCheck.OrderIsIrrelevantIff | pkg/coscheduling/core/core.go:280-300 | for requests of positive amounts of given resources the verdict is the same for every order of the nodes if and only if none of the resources is overcommitted on one node and left over on another |
| ClusterCheck.OrderIsIrrelevantForAllIff | pkg/coscheduling/core/core.go:280-300 | for requests of any amounts, zero included, the order is irrelevant if and only if each of the resources is overcommitted on no node or all usable nodes have the same amount of it left |
| ClusterCheck.MixedRequest | pkg/coscheduling/core/core.go:280-300 | whenever a resource is overcommitted on one node and left over on another there are a positive request and two orders of the same nodes, one of which passes while the other fails |
| ClusterCheck.GetNodeResource | pkg/coscheduling/core/core.go:307-341 | what is left is allocatable less the requests of exactly the pods outside the group, and pod slots likewise |
| ClusterCheck.FreeWithOneMorePod | pkg/coscheduling/core/core.go:307-341 | one more pod on a node takes its request and a slot off what is left, and nothing if it is of the group itself |
| ClusterCheck.OneNodeEnough | pkg/coscheduling/core/core.go:280-300 | on a single node the check passes if and only if no requested amount exceeds what the node has left |
| QueueOrder.LessIsTotal | pkg/coscheduling/coscheduling.go:116-128 | Less is irreflexive and asymmetric, and leaves two pods unordered only if priority, timestamp and namespaced name all agree |
| QueueOrder.LessIsTransitive | pkg/coscheduling/coscheduling.go:116-128 | Less is transitive |
| QueueOrder.QueueGoesByPriorityThenAge | pkg/coscheduling/coscheduling.go:112-128 | a queue in order serves higher priorities first, then older groups and pods, then the lesser namespaced name |
| QueueOrder.StringLessIsLexicographic | pkg/coscheduling/coscheduling.go:125 | names are compared lexicographically: a proper prefix or a smaller character at the first difference |
| QueueOrder.GroupsStandTogether | pkg/coscheduling/coscheduling.go:112-128 | so groups stand back to back unless something else was created at the same time |
| PodGroupPhase.RunCountsBindings | pkg/coscheduling/core/core.go:173-210 | under every interleaving of syncs and bindings the status counts the bindings, and a Scheduled or Running group has at least MinMember of them |
| PodGroupPhase.OrderlyRunsAdvance | pkg/controller/podgroup.go:112-129 | if terminal groups are not synced and no pod is bound after the group runs, the phase never falls back |
| PodGroupPhase.SyncOutcome | pkg/controller/podgroup.go:203-256 | after a sync the counters are the numbers of pods in each phase, and for each resulting phase an exact condition on the counts, MinMember, the bindings and the former phase |
| PodGroupPhase.GroupGetsThere | pkg/controller/podgroup.go:203-256 | after any history, the completing binding, a sync that finds enough pods at work and none failed, and one that finds enough succeeded take the group to Scheduled, Running and Finished |
| PodGroupPhase.SyncLowersRankIff | pkg/controller/podgroup.go:203-256 | a sync moves a group backwards if and only if the group is finished, has lost succeeded pods, and has failed ones among enough others |
| PodGroupPhase.PostBindLowersRankIff | pkg/coscheduling/core/core.go:173-210 | PostBind moves a group backwards if and only if it was Running, Failed or Finished |
| PodGroupPhase.RunningGroupFallsBack | pkg/coscheduling/core/core.go:173-210 | a new group with MinMember 1 is bound, runs, and is put back to Scheduled by a second binding |
| PodGroupPhase.FinishedGroupFails | pkg/controller/podgroup.go:203-256 | a new group with MinMember 1 is bound, finishes, and turns into a failed one when a failed pod is there instead |
| PodGroupPhase.ThreeSyncsSettle | pkg/controller/podgroup.go:203-256 | with the pods fixed, three syncs reach a fixpoint from any status |
| PodGroupPhase.TwoSyncsMayNotSettle | pkg/controller/podgroup.go:203-256 | two do not suffice |
| PodGroupPhase.PodGroup.SyncHandler | pkg/controller/podgroup.go:189-262 | the in-place handler performs Sync; it crashes exactly for a pending group without pods whose MinMember is not positive |
| PodGroupPhase.PodGroup.Bind | pkg/coscheduling/core/core.go:173-210 | the in-place update performs PostBind |
| LoadCache.RunKeepsSorted | pkg/trimaran/handler.go:68-138 | every run of additions, updates, deletions and cleanups under a non-decreasing clock keeps every list in order of time |
| LoadCache.ExpireKeepsFresh | pkg/trimaran/handler.go:114-138 | on a list in order of time the binary-search cleanup leaves exactly the fresh entries if there is one, and the whole list otherwise |
| LoadCache.CleanupAlongRun | pkg/trimaran/handler.go:114-138 | along any run a cleanup drops no node and no fresh entry |
| LoadCache.RemoveFirstRemovesOne | pkg/trimaran/handler.go:90-98 | deletion takes out the first entry with the UID and keeps all others in order |
| LoadCache.EntriesAreKept | pkg/trimaran/handler.go:68-138 | an entry made by an event stays in its list until its pod is deleted or a cleanup comes sixty seconds after it |
| LoadCache.EntriesAreMade | pkg/trimaran/handler.go:68-111 | every entry of a list was made by the addition of its pod to that node or by its move there |
| LoadCache.CleanupLeavesRecent | pkg/trimaran/handler.go:114-138 | along any run a cleanup leaves exactly the entries of the last sixty seconds, or all if there is none |
| PodAssignEventHandler.Handler.OnAdd | pkg/trimaran/handler.go:68-71 | appending to the node's slice refines the Added step; no other list changes |
| PodAssignEventHandler.Handler.OnUpdate | pkg/trimaran/handler.go:73-80 | appends only if the pod has changed node |
| PodAssignEventHandler.Handler.OnDelete | pkg/trimaran/handler.go:82-101 | shifting down and truncating the slice refines the Deleted step |
| PodAssignEventHandler.Remove | pkg/trimaran/handler.go:90-98 | the in-place shift removes the first entry with the UID and zeroes the slot that falls free |
| PodAssignEventHandler.Search | pkg/trimaran/handler.go:119-122 | the search loop finds the index of SearchBetween, on ordered and unordered lists alike |
| PodAssignEventHandler.Handler.CleanupCache | pkg/trimaran/handler.go:114-138 | visiting the nodes in any order refines the Cleanup step; the branch that would drop a node is never taken |
| TargetLoadPacking.CleanupIsInvisible | pkg/trimaran/targetloadpacking/targetloadpacking.go:218-236 | after any run, a cleanup changes no score whose metrics end no earlier than the second in which the cleanup visits the node |
| TargetLoadPacking.UnreportedIsRecent | pkg/trimaran/targetloadpacking/targetloadpacking.go:226-227 | the two-sided window test is the same as timestamp > End - 60 |
| TargetLoadPacking.Score | pkg/trimaran/targetloadpacking/targetloadpacking.go:174-257 | the loops over containers, metrics and cached pods compute NodeScore |
| TargetLoadPacking.ScoreIsOfTheWholeLoad | pkg/trimaran/targetloadpacking/targetloadpacking.go:204-257 | the score is that of the load which the reported utilisation, the containers and overhead of the pod, and those of the pods placed less than sixty seconds before the end of the metrics add up to |
| TargetLoadPacking.MoreUseNeverScoresHigher | pkg/trimaran/targetloadpacking/targetloadpacking.go:242-251 | beyond the target a pod with more expected use never gets the higher score |
| TargetLoadPacking.ContainerIsExpectedToUse | pkg/trimaran/targetloadpacking/targetloadpacking.go:273-281 | a container counts with its limit, failing that with the nearest integer to its request times the multiplier, failing that with the default |
| TargetLoadPacking.ScoreIsOnTheLine | pkg/trimaran/targetloadpacking/targetloadpacking.go:244-256 | the score is within half a point of the line from target to 100 below the target, and of the line from 50 to 0 beyond it |
| TargetLoadPacking.ScoreClimbsToTarget | pkg/trimaran/targetloadpacking/targetloadpacking.go:253-256 | up to the target the score is between target and 100 and non-decreasing, and at the target it is 100 |
| TargetLoadPacking.ScoreFallsBeyondTarget | pkg/trimaran/targetloadpacking/targetloadpacking.go:244-251 | beyond the target it is between 0 and 50 and non-increasing, and 0 above 100 percent |
| Allocatable.ResourceScorer | pkg/noderesources/allocatable.go:120-131 | wrapping at every step of the loop is the same as wrapping the exact sums once, whatever the order of the map |
| Allocatable.ModesPreferAsNamed | pkg/noderesources/allocatable.go:120-143 | of two nodes mode Most never scores the larger one lower, and mode Least never the smaller one |
| Allocatable.EvenNodeScoresItsAmount | pkg/noderesources/allocatable.go:120-131 | a node with the same amount of every weighted resource scores that amount |
| Allocatable.ModesMirror | pkg/noderesources/allocatable.go:120-143 | unless the weighted sum overflows, the Least score is the negated Most score under truncating division |
| Allocatable.NormalizeScore | pkg/noderesources/allocatable.go:146-171 | the in-place loops compute Normalized |
| Allocatable.NormalizedIsShare | pkg/noderesources/allocatable.go:159-168 | with a range of at most (2^63-1)/100 nothing overflows and each score is its exact share of the range |
| Allocatable.NormalisationKeepsOrder | pkg/noderesources/allocatable.go:146-171 | normalised scores lie in 0..100 and keep the order; the extremes of a non-zero range become 0 and 100 |
| Allocatable.ModesComplement | pkg/noderesources/allocatable.go:120-171 | for any weights and node capacities, unless a weighted sum overflows or the raw scores lie too far apart, the normalised scores of the two modes sum to 99 or 100 for each node, or are both 0 if all nodes are alike |
| CrossNodePreemption.Dfs | pkg/crossnodepreemption/cross_node_preemption.go:159-168 | despite the shared buffer each pass is given the intended choice, in pick-first order, and the caller's path is as it was; every slice kept from an earlier pass reads its choice with the slots it shared with a later branch replaced by the last pod |
| CrossNodePreemption.BruteForceDryRunPreemption | pkg/crossnodepreemption/cross_node_preemption.go:133-191 | the passes are given all choices from the lower-priority pods in order, the candidates are the nodes that they find, and the victims of each candidate read, in the end, Retained of its choice |
| CrossNodePreemption.OutcomesAreExactly | pkg/crossnodepreemption/cross_node_preemption.go:159-191 | the findings are exactly the nodes that a pass names for a choice, with that choice |
| CrossNodePreemption.EvictableCounts | pkg/crossnodepreemption/cross_node_preemption.go:133-146 | the evictable pods are the lower-priority pods of all potential nodes, each as often as it occurs |
| CrossNodePreemption.SearchIsExhaustive | pkg/crossnodepreemption/cross_node_preemption.go:133-168 | the search makes 2^n calls, one for each subsequence of the n evictable pods and for nothing else, and no pod passed has the preemptor's priority or more |
| CrossNodePreemption.ChoicesDiffer | pkg/crossnodepreemption/cross_node_preemption.go:159-168 | no choice is tried twice |
| CrossNodePreemption.SurvivesIff | pkg/crossnodepreemption/cross_node_preemption.go:159-191 | a candidate still reads its choice after the search if and only if the choice goes one pod beyond what its array was created with, or two and ends with the last evictable pod |
| CrossNodePreemption.AllSurviveIff | pkg/crossnodepreemption/cross_node_preemption.go:159-191 | all choices survive if and only if no path shorter than the number of evictable pods less one has spare capacity, whatever capacities the runtime allots |
| CrossNodePreemption.FourPodsAreSafe | pkg/crossnodepreemption/cross_node_preemption.go:133-191 | where capacities double, that is: at most four evictable pods |
| CrossNodePreemption.FivePodsLoseAChoice | pkg/crossnodepreemption/cross_node_preemption.go:133-191 | a run on five evictable pods whose second pass is given the first four, while its candidate reads the first three and the fifth |

## Left out

- VictimSelection.SelectVictimsOnNode: asks that a resource without an entry in any ledger or in the request does not have a negative total Min, because otherwise entries that removed pods leave behind change the aggregate check (`ElasticQuota.LeftoversMatterIff`); and for the node's own invariant that a key names at most one pod.
- VictimTheorems.SelectionIsSound: a potential victim that no ledger lists is taken to request no negative amounts.
- Reprieve.GreedyIsLexGreatest: assumes that removing pods never makes the preemptor fit less; soundness does not need this.
- Ledger.RunIsExact: assumes that a pod key has one fixed request vector, as pod specs are immutable.
- Admission.RunKeepsQuotas: quotas are fixed during the run, and only pods that passed PreFilter are reserved; pods placed by other schedulers are not part of it.
- CapacityScheduling.Plugin.UpdateElasticQuota: an update keeps the namespace of the quota, as the API server guarantees.
- DryRun.DryRunPreemption: interleaves the goroutines at the granularity of copying, selecting and reporting; no cancellation, and the chunking of the work is not modelled.
- TargetLoadPacking.Score: floats are real numbers, target is between 1 and 100, and the lookup of the node in the snapshot has succeeded.
- Coscheduling.Plugin.Permit: the node snapshot and the decision are one step; the snapshot shows exactly the assumed pods.
- NodeTrial.NodeInfo.RemovePod: follows the scheduler framework's own node record, which is not part of the repository: the pod is looked up by key, and the last pod moves into its place.
- Requests are non-negative wherever usage is claimed not to grow when pods leave.
- QueueOrder.LessIsTotal: names are compared as sequences of characters.
- Integer width: quantities, counters and budgets are unbounded except in `Allocatable`, where 64-bit wrap-around is explicit.
- The filter plugins, `MoreImportantPod` and the sort routine are parameters: the filters are a predicate on the pods that stay on the node, and the sorts may be any rearrangement, so the order of importance is whatever order the sort yields.
- CrossNodePreemption.BruteForceDryRunPreemption: the capacity that the runtime gives to a full slice is any function of its length.
- Label selectors and disruption budgets' bookkeeping in the API server; a selector is a match function.
- Other plugins' AddPod and RemovePod extensions, nominated pods, eligibility of the preemptor, extenders, choice among candidates, and the preparation of the chosen one.
- The split between the API server's and the lister's copy of a pod group's status, patches and their failures, retries, `OccupiedBy`, and the 48-hour rule of the work queue.
- Failures and deletions of pods after they have been released to bind; expiry times of the coscheduling caches beyond the fact that entries may expire at any time.
- `dryRunOnePass` is a parameter of the search, as a function from the victims to the nodes that fit; each of its victims gets its own copy of its node, so nothing is claimed about a node with all of them gone.
- Clients, informers, listers, locks, logging, configuration, generated code, QOSSort, PodState and LoadVariationRiskBalancing.

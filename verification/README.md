# Verified models of the NRI resource policy plugins

A Dafny model of the parts of this repository where state, arithmetic or concurrency make mistakes
easy: the topology-aware CPU allocator and the discovery it relies on, the balloons policy with its
CPU tree, the interrupt affinity cache, the table from OOM adjustments to memory requests, the node
extended resource reconciler, the CPU class handler and the chain of OpenTelemetry log handlers.
`dafny verify dfyconfig.toml` checks everything.

## How it is organised

| file | models |
|---|---|
| `Options.dfy`, `CpuSets.dfy`, `Sorting.dfy`, `Ranking.dfy` | CPU sets; sorting, where any sorted permutation may come out; orders given by ranks |
| `Priorities.dfy`, `Orders.dfy` | every comparison the CPU allocator sorts by |
| `Topology.dfy`, `Sysfs.dfy`, `Discovery.dfy` | the hardware topology and how it is discovered |
| `Stages.dfy`, `Allocator.dfy` | the CPU allocator: which CPUs each stage takes, and `Helper`, which carries free CPUs, result and count through all stages |
| `CpuTree.dfy` | choosing CPUs for a balloon in the topology tree |
| `BalloonState.dfy`, `BalloonSteps.dfy`, `Placing.dfy`, `Policy.dfy` | the balloons policy: its invariants, what each step keeps of them, what becomes of a container and of a configuration, and the policy itself |
| `IrqCache.dfy` | the affinity cache, as interleaved critical sections and as a class |
| `OomScore.dfy` | the estimate table |
| `ExtendedResources.dfy`, `Reconciler.dfy` | the capacity patch, and the wakeup protocol of the reconciler |
| `CpuClass.dfy` | enforcing CPU classes on dirty CPUs |
| `OtelLog.dfy` | log handlers over a replaceable native handler |

Every comparison is shown to agree in sign with the lexicographic order of integer ranks; that makes
it a total preorder, whatever the counts and topologies are. Sorting then returns an arbitrary sorted
permutation, so no result depends on how ties are broken.

Which CPUs the allocator takes is stated stage by stage on its arguments and results
(`Stages.Allocated`): a package or core whose CPUs are all free is taken exactly if it fits what those
before it in the order leave of the request, clusters and cache groups are taken in their orders, and
threads that are taken come before all that are left. Packages, cores and threads are strictly ordered,
so there is just one outcome unless clusters or cache groups are looked for
(`Stages.AllocatedUnique`). What becomes of a container is stated in the same way: which fill method
decides, which balloon it suggests, and that the container is placed exactly if the balloon can get the
CPUs (`Placing.IsOutcome`).

The balloons policy is one class. Balloons live in a store by identity, because they are reached both
from the list of balloons and from composite balloons. `Policy.Balloons.Valid` is what every request,
configuration change and environment step requires and ensures, so it holds in every reachable state:

- managed CPUs are free or in exactly one leaf balloon (a plain balloon or a component),
- leaf balloons are within the CPU limits of their type, composite balloons have the CPUs of their components,
- types have at most their maximum of balloons, at least their minimum once it has been created, and different instance numbers,
- plain balloons have the CPUs their containers call for; composite ones have CPUs if their components get any, and all they call for but for rounding if component types set no limits,
- components of a composite balloon are of its type's component types, in order, or one of these if balanced, and have been sized for the same request,
- every known container is pinned to the CPUs of its balloon and the idle CPUs it shares, unless some container was placed while it was in a balloon,
- shared idle CPUs are free and not isolated, unless undoing a failed resize of a composite balloon has broken that, which never happens if the topology tree has a leaf for each CPU.

## What the code does not do

The model follows the code. Where the code falls short of what one would expect, the exact condition
is proved.

- `AllocateCpus` given offline CPUs may return nothing without an error and still remove all online CPUs from the set (`Allocator.AllocateCpus`, `Allocator.OfflineCpusLoseOnlineOnes`). The policy never does that, as it allows online CPUs only.
- The order of used cache groups compares package and die ids with CPU counts (`Orders.GroupContext.IdlePackageLeadsIff`). Idle groups are taken from every package, although used ones never cross the package boundary (`Allocator.Helper.TakeCacheGroups`, `Allocator.IdleGroupsLeavePackage`). The branch that takes used groups of one size is dead (`Allocator.Helper.SameSizeGroups`), the leftover error after taking the largest groups cannot occur.
- `ReleaseCpus` returns the kept CPUs and leaves the released ones in its argument; its log message names them the other way round.
- `setConfig` stores allowed CPUs and balloon types before it validates them. After a rejected configuration, CPUs are divided up according to the allowed CPUs only if these have not changed (`Policy.Balloons.SetConfig`), and balloons of types with contradicting limits can be created, of which the minimum wins. That is why the upper CPU limit is stated for limits that agree.
- `MaxAvailMilliCpus` may exceed the CPU limit of a balloon (`BalloonSteps.GrowableIsReachableIff`). Containers may then be placed where their requests do not fit, so full service of requests is stated for balloons without a limit, and service up to the limit for others (`BalloonState.Serves`).
- A composite balloon can be left without CPUs although it has containers: shares are rounded down, so that n components without minimum get nothing of a request for less than n mCPU (`BalloonSteps.CompositeHasCpusIff`). That happens with containers that request nothing, and also when the only container with a request leaves. Their pin is empty, which is no pin, and they run on CPUs of other balloons (`BalloonSteps.BestEffortRunsAnywhere`, `Policy.Balloons.ContainersStayApart`). Plain balloons always have a CPU, as the source intends.
- A container without request is sent to a balloon without CPUs when no CPU is free, and then fails although it fits by its request (`Placing.BestEffortNeedsCpu`, exactly then by `Placing.SuitedHasCpusIff`).
- A container that is placed while it is in a balloon is in two, or twice in one (`Policy.Balloons.AllocateResources`); pins are right as long as that does not happen, and synchronizing does not make it happen when containers to be placed are released before (`Policy.Balloons.Sync`).
- Undoing a failed resize of a composite balloon restores CPUs, but not which idle CPUs are shared (`Policy.Balloons.UndoResize`, `BalloonSteps.UndoneResizeBreaksSharing`). That matters only if a component has given up CPUs before another one fails to, which the topology tree must be incomplete for: components of a balloon grow together or shrink together, and shrinking fails only if the tree lacks a CPU.
- A flush of interrupt affinities that was decided on before a block may write under the block (`IrqCache.WriteUnderBlock`).
- `Commit` of CPU classes forgets CPUs whose write failed (`CpuClass.FailedWriteIsNotRetried`).
- A child log handler reads its parent's handler and stamp one after the other without a lock. If the parent is rebuilt in between, the child passes for current with the handler of a native one that has been replaced, until the next replacement (`OtelLog.Logging.ChildDuringRebuild`).
- The stamp of log handlers wraps around at 2^32 (`OtelLog.StampWrapsAround`, `OtelLog.StampsAgreeIff`).
- The table of estimates panics for large memory capacities, where 1000 times a request does not fit 64 bits, from about 9.2 * 10^15 bytes on (`OomScore.LargeCapacityPanics`, `OomScore.LargeCapacityFails`), and may be wrong for small ones, below 1999 bytes with guesses off by one (`OomScore.AlwaysRightIff`, `OomScore.SmallCapacityFails`, `OomScore.TinyCapacityFails`).

## Model

| member | source | states |
|---|---|---|
| Priorities.CmpCountsIsRankOrder | pkg/cpuallocator/allocator.go:1876-1935 | comparing CPU sets by priority, with the fallback between priorities and the required count, has the sign of a lexicographic comparison of fixed ranks, so it is transitive for all counts and preferences |
| Orders.PackageCmpLawful | pkg/cpuallocator/allocator.go:206-213 | the package order is a total preorder, and ties only a package with itself |
| Orders.CoreCmpLawful | pkg/cpuallocator/allocator.go:960-967 | the core order is a total preorder, and ties only a CPU with itself |
| Orders.ThreadContext.CmpLawful | pkg/cpuallocator/allocator.go:1010-1055 | the thread order is a strict total order, whatever is free, allocated and preferred |
| Orders.ThreadContext.PackagesAreContiguous | pkg/cpuallocator/allocator.go:1010-1055 | a thread ordered between two threads of one package is of that package |
| Orders.ClusterContext.CmpLawful | pkg/cpuallocator/allocator.go:270-350 | the tightest-fit cluster order, which reverses itself where a die or package is too small, is a total preorder |
| Orders.GroupContext.FitOrderCases | pkg/cpuallocator/allocator.go:532-572 | one level of the idle group order decides if and only if one of the groups' dies (packages) fits both the full and the partial part of the request |
| Orders.GroupContext.IdleCmpLawful | pkg/cpuallocator/allocator.go:505-614 | the idle cache group order is a total preorder that never ties groups of different ids |
| Orders.GroupContext.UsedCmpLawful | pkg/cpuallocator/allocator.go:616-703 | the used cache group order is a total preorder, even though it compares ids with CPU counts |
| Orders.GroupContext.IdlePackageLeadsIff | pkg/cpuallocator/allocator.go:616-703 | of two used groups, one of the package of the best idle group and one not, the former comes first if and only if that package's id happens to equal its idle CPU count |
| Allocator.PickIds | pkg/cpuallocator/allocator.go:160-172 | the ids that pass the filter, in order |
| Allocator.Helper.TakeFitting | pkg/cpuallocator/allocator.go:217-234 | takes whole disjoint units, conserving CPUs: each exactly if it fits what the units taken before it leave of the request; every unit left whole is larger than what is still wanted |
| Allocator.Helper.TakeIdlePackages | pkg/cpuallocator/allocator.go:187-235 | conserves CPUs; of the packages whose preferred online CPUs are all free, none is split, one is taken exactly if it fits what packages before it in the order of preference leave of the request, and one left whole has more CPUs than are still wanted |
| Allocator.Helper.CollectClusters | pkg/cpuallocator/allocator.go:1135-1190 | the clusters picked, their free CPUs and the totals per die and package are exactly those of the topology |
| Allocator.Helper.SortClusters | pkg/cpuallocator/allocator.go:1135-1199 | those clusters in tightest-fit order |
| Allocator.Helper.TakeIdleClusters | pkg/cpuallocator/allocator.go:242-423 | conserves CPUs and splits no idle cluster; in tightest-fit order it takes just the first cluster if that fits perfectly, none if it is too large, and else exactly the clusters up to the first that does not fit |
| Allocator.Helper.CollectGroups | pkg/cpuallocator/allocator.go:1254-1340 | idle and partly used cache groups, with totals per die and package, are exactly those of the topology; the request is split into whole groups and a remainder |
| Allocator.Helper.SortGroups | pkg/cpuallocator/allocator.go:1254-1351 | those groups in their idle and used orders |
| Allocator.Helper.SplitGroup | pkg/cpuallocator/allocator.go:762-774 | the nested allocation from one group gives exactly the CPUs asked for, which are whole cores in the order of preference and then threads, and terminates as it works without cache groups |
| Allocator.Helper.TakeIdleGroups | pkg/cpuallocator/allocator.go:746-775 | takes just as many leading idle groups as are needed, each whole but for the last one, of which it takes what is still wanted as SplitGroup does; what remains wanted is what all groups lack |
| Allocator.Helper.SumUsed | pkg/cpuallocator/allocator.go:795-813 | running totals of the leading used groups of the chosen package, and all of these groups by size |
| Allocator.Helper.SameSizeGroups | pkg/cpuallocator/allocator.go:842-856 | the search for groups of one size never finds any, so the branch that takes them is dead |
| Allocator.Helper.GroupsNeeded | pkg/cpuallocator/allocator.go:878-897 | how many used groups suffice, and no fewer do |
| Allocator.Helper.TakeWholeGroups | pkg/cpuallocator/allocator.go:899-912 | all leading groups but perhaps the last are gone as a whole; what is still wanted is less than the last group, which is then untouched |
| Allocator.Helper.TakeLargest | pkg/cpuallocator/allocator.go:899-942 | the leading groups are gone, of the last one what was still wanted, split as SplitGroup does; nothing remains wanted: the leftover error cannot occur |
| Allocator.Helper.TakeUsedGroups | pkg/cpuallocator/allocator.go:795-942 | takes the first leading used group of the chosen package that has just the wanted size, or else as few leading ones as suffice, the last one in part, and nothing from others; it does so if and only if there is such a group or together they have enough |
| Allocator.Helper.TakeCacheGroups | pkg/cpuallocator/allocator.go:426-942 | all or nothing, with exact conservation: all that was wanted is taken if and only if the package of the best group has enough CPUs and idle groups, of any package, have enough or leave what leading used groups of that package can complete; then as few idle groups as are needed go in their order, and used ones complete the rest; all that is taken is of that package if and only if its leading idle groups have enough or are the only ones |
| Allocator.IdleGroupsLeavePackage | pkg/cpuallocator/allocator.go:746-775 | a topology and a request for just the CPUs that groups of the chosen package have, met by splitting an idle group of another package |
| Allocator.Helper.TakeIdleCores | pkg/cpuallocator/allocator.go:945-986 | conserves CPUs; of the cores whose online threads are all free, none is split, one is taken exactly if it fits what cores before it in the order of preference leave of the request, and one left whole has more threads than are still wanted |
| Allocator.Helper.TakeIdleThreads | pkg/cpuallocator/allocator.go:989-1072 | takes all that is wanted or all usable CPUs, and every thread taken comes before every free one that is left in the order for that preference; at most one package both loses a thread and keeps a free one |
| Allocator.Helper.Allocate | pkg/cpuallocator/allocator.go:1089-1120 | succeeds if and only if there are enough usable CPUs; otherwise it has used up all usable ones; returns the states between the stages, each of which is run if and only if the flags ask for it and CPUs are still wanted |
| Allocator.AllocateCpus | pkg/cpuallocator/allocator.go:1353-1384 | exactly the wanted number of CPUs of `from`, leaving exactly the rest, for every count, flag set, preference and topology, if and only if `from` is Allocatable (all wanted, or enough of it online); otherwise nothing is returned and the online CPUs of `from` are lost; the CPUs are the ones that the stages take, in order, for the given flags and preference |
| Stages.UnitStageUnique | pkg/cpuallocator/allocator.go:187-235 | taking whole units in a strict order, each exactly if it fits, has one outcome, for packages and cores alike |
| Stages.NotPassedOver | pkg/cpuallocator/allocator.go:217-234 | no idle package or core is passed over for a later one that is no smaller |
| Stages.ThreadStageUnique | pkg/cpuallocator/allocator.go:989-1072 | there is one set of threads to take such that each comes before all that are left |
| Stages.SplitUnique | pkg/cpuallocator/allocator.go:762-774 | there is one way to split a cache group |
| Stages.AllocatedUnique | pkg/cpuallocator/allocator.go:1089-1120 | unless clusters or cache groups are looked for, arguments determine which CPUs are allocated and left |
| Stages.IdlePackageIsUsed | pkg/cpuallocator/allocator.go:187-235 | if the preferred CPUs of a package are all free and fit the request, the result has all preferred CPUs of some package |
| Stages.PreferredThreadsFirst | pkg/cpuallocator/allocator.go:1010-1055 | the thread stage takes no thread of another priority while a free one of the preferred priority is left in its package |
| Stages.ColocatedFirst | pkg/cpuallocator/allocator.go:1010-1055 | no free thread is left in a package that has more of the CPUs allocated before than a package it takes a thread of |
| Stages.TightestClusterFirst | pkg/cpuallocator/allocator.go:270-350 | if a single idle cluster has enough CPUs, the first in order does, and no other that does is smaller |
| Stages.ClusterKindFits | pkg/cpuallocator/allocator.go:1135-1190 | with several kinds of cores, clusters of efficient cores are taken for low priority only and others never for it |
| Stages.GroupKindFits | pkg/cpuallocator/allocator.go:1254-1340 | the same for cache groups |
| Allocator.OfflineCpusLoseOnlineOnes | pkg/cpuallocator/allocator.go:1353-1378 | a topology and a set of CPUs where this happens |
| Allocator.UsableIsAllocatable | pkg/cpuallocator/allocator.go:1353-1378 | sets of online CPUs are always Allocatable |
| Allocator.ReleaseCpus | pkg/cpuallocator/allocator.go:1387-1395 | exactly the given number of CPUs is released and left in `from`, the kept ones are returned; a negative count fails, one that is too large releases everything, and where the kept ones are not Allocatable nothing is kept and the online CPUs are lost; the kept CPUs are the ones that the stages take |
| Sysfs.SortIntoPackages | pkg/sysfs/system.go:1783-1830 | packages, dies and clusters hold exactly the online CPUs that name them, in whatever order CPUs come |
| Sysfs.MergeClusters | pkg/sysfs/system.go:1832-1851 | core-only clusters of a die become one, all others stay |
| Sysfs.LogicalClustersPartition | pkg/sysfs/system.go:1832-1851 | logical clusters are nonempty, share no CPU, and lose none: the merged cluster never takes the id of another one |
| Sysfs.DiscoverPackages | pkg/sysfs/system.go:1776-1855 | online CPUs are partitioned by package, each package by die and each die by logical cluster |
| Sysfs.SingleThreadForCpus | pkg/sysfs/system.go:857-875 | of each core, the smallest thread in the set, and nothing else |
| Discovery.DiscoverClusters | pkg/cpuallocator/allocator.go:1675-1710 | a logical cluster that is not empty is listed if and only if its package has several; nothing else is listed, and nothing twice |
| Discovery.SortAndNumber | pkg/cpuallocator/allocator.go:1795-1815 | groups are put in order by package, die unless dies are ignored, NUMA node and first CPU, and numbered; none is lost, and disjoint ones stay so |
| Discovery.CheckGroups | pkg/cpuallocator/allocator.go:1814-1837 | groups are kept as they are only if all CPUs of each agree in package, die and node; sorted again only if some CPU differs in die, dropped only if some CPU differs in package or node, and if none differs in die then always |
| Discovery.MisplacedIffSpans | pkg/cpuallocator/allocator.go:1776-1837 | a group has a misplaced CPU if and only if CPUs that share the cache are in different NUMA nodes, and one on another die if and only if they are on different dies |
| Discovery.DiscoverCacheGroups | pkg/cpuallocator/allocator.go:1742-1857 | cache groups are nonempty sets of online CPUs that share no CPU, numbered in order; the groups found hold every CPU whose cache groups it, in packages with two such groups, and none of their CPUs is lost unless all are dropped, which takes a group found whose cache spans NUMA nodes; then all are dropped unless one spans dies |
| Discovery.BuildTopology | pkg/cpuallocator/allocator.go:1407-1430 | what discovery builds has all the properties the allocator needs, its usable CPUs are the online ones, its packages, cores and priorities those of the hardware, and its clusters and cache groups exactly the ones discovered |
| OomScore.AdjustmentInterval | pkg/kubernetes/resources.go:124-126 | the requests with adjustment 1000-i are exactly those from ceil(i*C/1000) up to below ceil((i+1)*C/1000) |
| OomScore.EstimateOfRequest | pkg/kubernetes/resources.go:124-126 | that estimate is the smallest request with the adjustment, never above the real request, and low by less than C/1000 |
| OomScore.SearchDown | pkg/kubernetes/resources.go:165-174 | the downward search, as a function of guess and number of steps |
| OomScore.DownFindsIff | pkg/kubernetes/resources.go:165-174 | the downward search ends at the smallest request with the wanted adjustment if and only if it has more steps than it starts above it |
| OomScore.SearchUp | pkg/kubernetes/resources.go:175-185 | the upward search, as a function of guess and number of steps |
| OomScore.RoundIsExact | pkg/kubernetes/resources.go:156-193 | a round from the right request finds the next one if neither its guess nor that request wraps around when multiplied by 1000, and panics otherwise |
| OomScore.RoundsAreExact | pkg/kubernetes/resources.go:156-193 | after every number of rounds all entries so far are right, or a product has wrapped around and the builder has panicked |
| OomScore.CalculateEstimates | pkg/kubernetes/resources.go:143-197 | for capacities that leave the searches enough steps, and any guesses within the slack that allows, the table holds exactly ceil(i*C/1000) for every i, or a product wraps around and the builder panics; one of the two, decided by whether 1000 times some guess or estimate exceeds 64 bits |
| OomScore.AlwaysRightIff | pkg/kubernetes/resources.go:143-197 | all guesses off by at most a slack give the right table if and only if 1000*(slack+1) <= C+1 (a little less above 2^53) and the product of the largest guess fits 64 bits; with a slack of one that means from 1999 bytes on |
| OomScore.TinyCapacityFails | pkg/kubernetes/resources.go:156-193 | below 1000 bytes no guess at all gives the right table, which is left with its two initial entries or panics |
| OomScore.LargeCapacityPanics | pkg/kubernetes/resources.go:143-197 | there is no panic if the last estimate plus the slack fits 64 bits when multiplied by 1000, and always one if the last estimate itself does not |
| OomScore.LargeCapacityFails | pkg/kubernetes/resources.go:156-193 | with 10^16 bytes the adjustment of the guess of round 923 exceeds the previous one, and the round panics |
| OomScore.EstimateRoundTrip | pkg/kubernetes/resources.go:129-139 | looking up the adjustment of a request gives an estimate at most C/1000 below it, and no answer only at the ends of the range or beyond the limit |
| OomScore.SmallCapacityFails | pkg/kubernetes/resources.go:143-197 | with 1500 bytes a guess off by one misleads round 2 |
| IrqCache.StepKeepsValid | pkg/irq/irq-cache.go:223-353 | every step, failed writes included, keeps: pending entries are cached and writable, other cached entries equal procfs, and nothing is pending when unblocked unless a flush is under way |
| IrqCache.StepRefinesDirect | pkg/irq/irq-cache.go:223-353 | when writes succeed, each step of the buffered cache is a step of unbuffered writes |
| IrqCache.ViewIsDirect | pkg/irq/irq-cache.go:223-242 | a read gives what unbuffered writes would have left in procfs |
| IrqCache.BufferingIsTransparent | pkg/irq/irq-cache.go:223-340 | over every run with nested blocking, reads agree with unbuffered writes, and so does procfs once nothing is pending |
| IrqCache.FlushWritesOnce | pkg/irq/irq-cache.go:305-340 | a flush writes each pending interrupt once, with its last value, in number order |
| IrqCache.WritesAtMostSets | pkg/irq/irq-cache.go:247-340 | over every run there are at most as many writes as affinities set |
| IrqCache.BlockedWriteIff | pkg/irq/irq-cache.go:276-301 | while blocked, a step can write if and only if a flush decided before is still under way and something is pending |
| IrqCache.BlockHolds | pkg/irq/irq-cache.go:276-301 | without such a flush, blocking holds until unblocked |
| IrqCache.WriteUnderBlock | pkg/irq/irq-cache.go:284-301 | a run in which an interrupt set after a new block is written under it |
| IrqCache.Cache.AffinityOf | pkg/irq/irq-cache.go:223-242 | reads through the cache; new state given exactly |
| IrqCache.Cache.SetAffinity | pkg/irq/irq-cache.go:247-272 | caches and queues a changed affinity and flushes if not blocked; new state given exactly; there is an error if and only if the affinity was written right away and that write failed |
| IrqCache.Cache.WritePending | pkg/irq/irq-cache.go:305-340 | flushes everything in order and returns the first error |
| IrqCache.Cache.BlockWrites | pkg/irq/irq-cache.go:276-280 | one more level of blocking |
| IrqCache.Cache.UnblockWrites | pkg/irq/irq-cache.go:284-301 | one level less, with a flush at the last |
| IrqCache.Cache.Reset | pkg/irq/irq-cache.go:345-353 | empty caches over the new procfs |
| ExtendedResources.Split | pkg/agent/node-extended-resources.go:174-204 | the accepted published names, names to remove and patterns are exactly those of the request |
| ExtendedResources.FindRemoved | pkg/agent/node-extended-resources.go:211-233 | the names to remove are exactly the owned ones that are not published |
| ExtendedResources.ComputePatch | pkg/agent/node-extended-resources.go:174-250 | the patch is a function of request and node, so independent of map order |
| ExtendedResources.PatchReachesTarget | pkg/agent/node-extended-resources.go:211-250 | applying it gives exactly the target capacity |
| ExtendedResources.TargetMeetsRequest | pkg/agent/node-extended-resources.go:174-233 | in the target every published name has its value, every owned unpublished name in the domain is gone and every other name is unchanged |
| ExtendedResources.NextPatchIsEmpty | pkg/agent/node-extended-resources.go:235-250 | the next round has nothing to do |
| ExtendedResources.EmptyPatchMeansDone | pkg/agent/node-extended-resources.go:235-250 | the patch is empty if and only if the node is as requested |
| ExtendedResources.MergeCapacity | pkg/agent/node-extended-resources.go:235-250 | JSON Merge Patch (section 2 of RFC 7396) on the capacity object does what applying the patch means |
| ExtendedResources.MergeBody | pkg/agent/node-extended-resources.go:252-269 | merging the whole request body changes capacity to the target and nothing else in the node |
| Reconciler.StepKeepsInv | pkg/agent/node-extended-resources.go:75-172 | every step of any number of updaters and the worker keeps the wakeup invariant |
| Reconciler.NothingIsLost | pkg/agent/node-extended-resources.go:75-172 | in every run, a newest state that no round has read has a wakeup token, an updater about to send, a worker about to read, or a retry timer |
| Reconciler.RestMeansSettled | pkg/agent/node-extended-resources.go:113-152 | a worker that waits with nothing due and no retry has settled the newest state |
| Reconciler.CatchesUp | pkg/agent/node-extended-resources.go:113-278 | from every state a bounded number of successful worker steps settles the newest state |
| CpuClass.CommitIsFullRewriteIff | pkg/resmgr/cpuclass/cpuclass.go:214-247 | committing dirty CPUs equals rewriting all of them if and only if no dirty managed CPU's write fails, unless it would not have changed anything |
| CpuClass.FailedWriteIsNotRetried | pkg/resmgr/cpuclass/cpuclass.go:214-247 | a CPU whose write failed is no longer dirty, and the next commit does not touch it |
| CpuClass.Handler.Configure | pkg/resmgr/cpuclass/cpuclass.go:144-167 | forgets definitions, assignments and dirty CPUs |
| CpuClass.Handler.SetClassDef | pkg/resmgr/cpuclass/cpuclass.go:180-194 | exactly the CPUs of the class become dirty if the definition changed, none if not; CPUs that are not dirty stay up to date |
| CpuClass.Handler.AssignCpus | pkg/resmgr/cpuclass/cpuclass.go:200-209 | the CPUs get the class, and exactly those that had another one or none become dirty |
| CpuClass.Handler.Commit | pkg/resmgr/cpuclass/cpuclass.go:214-247 | when writes succeed, hardware is as after a full rewrite, also for definitions that came later than the assignment |
| OtelLog.Native.Swap | pkg/log/otel.go:34-45 | installs a native handler, or the discarding one, under the next 32-bit stamp and returns the previous one |
| OtelLog.ChildMeansReplay | pkg/log/otel.go:76-95 | a child made from a cached handler means the same as its path replayed |
| OtelLog.CachedAfterSwap | pkg/log/otel.go:34-45 | replacing the native handler leaves what is cached the replay on the native handler it was made from |
| OtelLog.StampsAgreeIff | pkg/log/otel.go:116-125 | stamps of two native handlers agree if and only if a multiple of 2^32 replacements lies between |
| OtelLog.StampedIsCurrent | pkg/log/otel.go:116-125 | a handler with the current stamp is its whole path replayed on the current native handler if and only if the native handler it was made from means the same, within 2^32 replacements |
| OtelLog.ReplaysAgreeIff | pkg/log/otel.go:141-156 | a path gives handlers that mean the same on two native handlers if and only if these mean the same |
| OtelLog.StampWrapsAround | pkg/log/otel.go:34-45 | after any multiple of 2^32 replacements a handler of another native handler passes for current |
| OtelLog.Handler.Root | pkg/log/otel.go:67-74 | a root handler caches the current native handler |
| OtelLog.Handler.Child | pkg/log/otel.go:76-95 | a child, made from a handler and a stamp its parent had, each at any time, is its path on the native handler the former was made from, under the stamp read |
| OtelLog.Handler.GetHandler | pkg/log/otel.go:116-125 | a handler of another stamp is rebuilt with all its ancestors, one of the current stamp is returned and nothing changes |
| OtelLog.Handler.Update | pkg/log/otel.go:127-159 | the rebuilt handler is exactly its path replayed, and so is each ancestor |
| OtelLog.Rebuild | pkg/log/otel.go:141-156 | rebuilding root first in place gives every handler of the chain its replay |
| OtelLog.Logging.SetOtelHandler | pkg/log/otel.go:34-45 | a swap leaves every handler there is its path replayed on the native handler it was made from |
| OtelLog.Logging.NewOtelHandler | pkg/log/otel.go:67-74 | so does creating a root handler |
| OtelLog.Logging.NewChildHandler | pkg/log/otel.go:76-95 | so does creating a child of any handler, whatever happens between the reads of the parent's handler and stamp |
| OtelLog.Logging.GetHandler | pkg/log/otel.go:116-159 | so does getting a handler, rebuilt in place or not; what is returned is the path replayed on the current native handler if and only if it was rebuilt or made from one that means the same, within 2^32 replacements |
| OtelLog.Logging.StampedAreCurrent | pkg/log/otel.go:116-159 | in every state any mix of these leads to, every handler with the current stamp that was stamped for the native handler it was made from is its whole path replayed on the current one, within 2^32 replacements |
| OtelLog.Logging.ChildDuringRebuild | pkg/log/otel.go:76-95 | in any state, a replacement and a rebuild of the parent between the two reads give a child that passes for current and is not |
| CpuTree.Allocator.ResizeCpus | cmd/plugins/balloons/policy/cputree.go:554-563 | CPUs to add are free ones, CPUs to remove are current ones, each at least as many as the change, for any device hints, else an error; with a tree that has a leaf for each CPU there is no error if there are enough CPUs; nothing, all free or all current CPUs where the change leaves no choice, and else those that hints and the order of tree nodes lead to |
| CpuTree.Allocator.WithDynamicHints | cmd/plugins/balloons/policy/cputree.go:612-651 | the same when hints are recomputed after every CPU: each added CPU is the first of a choice made with the hints that CPUs added so far lead to |
| CpuTree.Allocator.WithDevices | cmd/plugins/balloons/policy/cputree.go:656-746 | the same with hints for and against devices: growing, from free CPUs narrowed by hints; shrinking, CPUs with fewer hints than those at the cut, and as many of those at the cut as are missing |
| CpuTree.Allocator.NarrowByHints | cmd/plugins/balloons/policy/cputree.go:676-700 | free CPUs narrowed by each hint in turn that leaves as many as needed |
| CpuTree.HintsAreSettled | cmd/plugins/balloons/policy/cputree.go:676-700 | the CPUs that remain are all hinted at by a hint, or too few of them are, for every hint |
| CpuTree.Allocator.LeastHinted | cmd/plugins/balloons/policy/cputree.go:701-729 | CPUs with a smaller value of hints than the one at the cut go surely, those of that value may go: enough in all, not too many surely |
| CpuTree.Allocator.OneAtATime | cmd/plugins/balloons/policy/cputree.go:765-825 | growing takes the CPUs of a best node, or an error if there is none; if it spreads and that has more than is wanted, CPU by CPU, each from a best node for one at its time, also after no node had enough for all; shrinking always does so; with the same guarantee of success |
| CpuTree.Allocator.MaxLocalSet | cmd/plugins/balloons/policy/cputree.go:827-852 | an error if and only if no tree node has enough CPUs, else the CPUs of a node that has and that no other such node comes before; with a tree that has a leaf for each CPU, just one CPU where one is wanted |
| CpuTree.NodeCmpLawful | cmd/plugins/balloons/policy/cputree.go:473-535 | the orders of tree nodes for growing and shrinking, by depth, CPU counts from the root down and name, are total preorders |
| CpuTree.NodesTieIff | cmd/plugins/balloons/policy/cputree.go:473-535 | nodes tie if and only if they agree in depth, in all counts and in name |
| Policy.Balloons.PinBalloon | cmd/plugins/balloons/policy/balloons-policy.go:2567-2587 | the cached containers of a balloon are pinned to its CPUs and shared idle CPUs, or to single threads of these; no other pin changes |
| Policy.Balloons.UpdatePinning | cmd/plugins/balloons/policy/balloons-policy.go:2567-2587 | the same for many balloons |
| BalloonState.RepinChanged | cmd/plugins/balloons/policy/balloons-policy.go:2567-2656 | repinning only balloons whose CPUs changed leaves all balloons pinned as repinning all of them would |
| Policy.Balloons.ShareIdleCpus | cmd/plugins/balloons/policy/balloons-policy.go:2604-2656 | shared idle CPUs are exactly the old ones without those taken, plus new idle ones near the balloon; every balloon whose shared CPUs changed is returned |
| BalloonSteps.ReshareKeepsAll | cmd/plugins/balloons/policy/balloons-policy.go:2604-2656 | sharing changes nothing but shared CPUs, and these stay free and not isolated |
| Policy.Balloons.ResizePlain | cmd/plugins/balloons/policy/balloons-policy.go:2500-2565 | the balloon has exactly the clamped number of CPUs, which above the minimum is not enough without its last CPU, and less than is requested only at the maximum; idle CPUs are shared anew and nothing else changes, or nothing at all changes; it succeeds if and only if there are enough free CPUs, the tree having all CPUs; the partition, sharing and pins stay right |
| BalloonState.CpuCountWithinLimits | cmd/plugins/balloons/policy/balloons-policy.go:2504-2512 | the clamped number is at least the minimum, at most the maximum if and only if the limits agree, too small for the request only at the maximum, and above the minimum not one CPU too large |
| Policy.Balloons.Grow | cmd/plugins/balloons/policy/balloons-policy.go:2526-2543 | free CPUs are added up to the given number, if and only if there are that many, the tree having all CPUs; CPUs of balloon and free ones together stay as many; or nothing changes |
| Policy.Balloons.Shrink | cmd/plugins/balloons/policy/balloons-policy.go:2544-2561 | CPUs are given up down to the given number, always if the tree has all CPUs; or nothing changes |
| Policy.Balloons.ResizeComposite | cmd/plugins/balloons/policy/balloons-policy.go:2473-2497 | each component is resized to an equal share and the balloon has their CPUs, with sharing and pins right, if and only if there are CPUs for all components, the tree having all CPUs; or free CPUs and the CPUs of all balloons are exactly what they were, pins are right, and sharing is, always so if the tree has all CPUs |
| Policy.Balloons.ResizeEach | cmd/plugins/balloons/policy/balloons-policy.go:2478-2488 | components are resized in order up to the first failure, with sharing and pins right; if all were sized for the same request before, a failure means that none has given up CPUs, and there is none if and only if free CPUs and those of the components are as many as all need |
| Policy.Balloons.UndoResize | cmd/plugins/balloons/policy/balloons-policy.go:2481-2484 | undoing a failed resize keeps pins right, and keeps shared CPUs free if and only if no balloon shares a CPU that goes back to a component |
| BalloonSteps.UndoneResizeBreaksSharing | cmd/plugins/balloons/policy/balloons-policy.go:2481-2484 | a component, a balloon nearby and a deflation whose undoing leaves the balloon sharing a CPU of the component |
| BalloonSteps.CompositeServesRequest | cmd/plugins/balloons/policy/balloons-policy.go:2473-2497 | with n components without CPU limits, a resize to m mCPU gives at least m-(n-1) mCPU of distinct CPUs |
| BalloonSteps.CompositeHasCpusIff | cmd/plugins/balloons/policy/balloons-policy.go:2473-2497 | with n components, a resize to m mCPU leaves a balloon with CPUs if and only if m is at least n or some component type has a minimum |
| BalloonSteps.BestEffortRunsAnywhere | cmd/plugins/balloons/policy/balloons-policy.go:315-329 | a composite balloon resized for a container without request, whose pin is empty so that it can run on any CPU |
| BalloonSteps.NestedUndoBreaksPartition | cmd/plugins/balloons/policy/balloons-policy.go:2473-2497 | undoing the resize of a composite balloon that is a component itself leaves a CPU both free and in a balloon |
| Policy.Balloons.ResizeBalloon | cmd/plugins/balloons/policy/balloons-policy.go:2500-2565 | the two together, for any listed or new balloon, with the exact condition for success |
| Policy.Balloons.BalloonsByDef | cmd/plugins/balloons/policy/balloons-policy.go:678-682 | exactly the listed balloons of a type, each once |
| Policy.Balloons.FreeInstance | cmd/plugins/balloons/policy/balloons-policy.go:1192-1205 | the smallest instance number no balloon of the type has, by pigeonhole when the loop runs out |
| Policy.Balloons.MayCreate | cmd/plugins/balloons/policy/balloons-policy.go:1184-1205 | refuses if and only if the type has as many balloons as it may |
| Policy.Balloons.NewPlain | cmd/plugins/balloons/policy/balloons-policy.go:1184-1274 | a new balloon with exactly its minimum of CPUs and an unused number, or no CPUs moved; nothing is created if and only if the type has as many balloons as it may or there are too few free CPUs, the tree having all CPUs |
| Policy.Balloons.LeastUsed | cmd/plugins/balloons/policy/balloons-policy.go:1112-1133 | the first of the component types with the fewest balloons, listed or components |
| Policy.Balloons.ComponentNames | cmd/plugins/balloons/policy/balloons-policy.go:1092-1139 | components are of all types named, in order, or if balanced of the first of those with the fewest balloons; none if and only if balanced and some component type is unknown |
| Policy.Balloons.CreateComponents | cmd/plugins/balloons/policy/balloons-policy.go:1093-1111 | new plain balloons, the k-th of the k-th type named, up to the first that fails; none does if and only if all types are known and may have as many more balloons, and there are CPUs for their minimums, the tree having all CPUs |
| Policy.Balloons.DeleteComponents | cmd/plugins/balloons/policy/balloons-policy.go:1085-1091 | deleting them gives their CPUs back |
| Policy.Balloons.NewComposite | cmd/plugins/balloons/policy/balloons-policy.go:1083-1182 | a new composite balloon of new components, of the types ComponentNames gives, with the CPUs of these, or no CPUs moved and no components left, wherever creation failed; it is created if and only if the components can be and there are CPUs for an equal share of its minimum for each |
| Policy.Balloons.New | cmd/plugins/balloons/policy/balloons-policy.go:1184-1274 | the two together, created if and only if the type may have one more and the CPUs it starts with are there |
| Policy.Balloons.DeleteBalloon | cmd/plugins/balloons/policy/balloons-policy.go:1277-1291 | the balloon is unlisted and its CPUs are free, with the partition kept |
| Policy.Balloons.FreeBalloon | cmd/plugins/balloons/policy/balloons-policy.go:1294-1300 | deletes the emptied balloon if and only if its type has more than it must; keeps everything every request keeps |
| Policy.Balloons.Discard | cmd/plugins/balloons/policy/balloons-policy.go:1338-1378 | undoing the creation of a balloon restores exactly the free CPUs there were |
| Policy.Balloons.FillNew | cmd/plugins/balloons/policy/balloons-policy.go:1305-1378 | an empty balloon of the type if there is one; otherwise a new one, if and only if it can be created, it could hold the request and its CPU class applies, after which all balloons share the idle CPUs near them; when there is nothing to return, free CPUs and the list are as before; an error if and only if only the CPU class does not apply |
| Policy.Balloons.Candidates | cmd/plugins/balloons/policy/balloons-policy.go:1379-1428 | exactly the listed balloons a fill method suggests |
| Policy.Balloons.Roomiest | cmd/plugins/balloons/policy/balloons-policy.go:1493-1511 | a balloon with the most room among candidates, and with the fewest containers among those |
| Policy.Largest | cmd/plugins/balloons/policy/balloons-policy.go:819-838 | exactly the indices of the largest values, in order |
| Policy.Balloons.AllocateBalloonOfDef | cmd/plugins/balloons/policy/balloons-policy.go:1463-1514 | the balloon is what the first applicable fill method of the chain suggests, with the most room of those and the fewest containers among equally roomy ones; no earlier method applies; an error stops the search if and only if the pod is unknown to the method for its balloon or the CPU class of a new balloon does not apply; nothing is returned only then or if no method applies |
| Placing.FailureMeansNoRoom | cmd/plugins/balloons/policy/balloons-policy.go:1463-1514 | when no method of the chain applies, no balloon of the type has room for the container even if inflated, none is empty, and none can be added |
| Placing.RoomMeansPlaced | cmd/plugins/balloons/policy/balloons-policy.go:1463-1514 | a container is placed if a plain balloon of its type has room for it when inflated, the chain starts with balloons there are, the pod is known where that matters, and a CPU is free or no balloon of the type lacks CPUs |
| Policy.Balloons.RoomIsUsed | cmd/plugins/balloons/policy/balloons-policy.go:281-335 | so it is in every reachable state |
| Placing.SuitedHasCpusIff | cmd/plugins/balloons/policy/balloons-policy.go:308-329 | a plain balloon that a method suggests can be resized for the container if and only if it has a CPU or one is free |
| Placing.BestEffortNeedsCpu | cmd/plugins/balloons/policy/balloons-policy.go:315-329 | a container without request is sent to a balloon without CPUs although no CPU is free, and fails |
| BalloonSteps.GrowableIsReachableIff | cmd/plugins/balloons/policy/balloons-policy.go:182-203 | the size a balloon is thought to be able to reach is the reachable one if and only if there is no CPU limit, free CPUs alone can meet it, or there are too few to reach it |
| BalloonSteps.GrowableCanExceedLimit | cmd/plugins/balloons/policy/balloons-policy.go:182-203 | a balloon that is thought to grow beyond its CPU limit |
| Policy.Balloons.RequestedMilliCpus | cmd/plugins/balloons/policy/balloons-policy.go:796-802 | the sum of the requests of a balloon's cached containers |
| Policy.Balloons.AssignContainer | cmd/plugins/balloons/policy/balloons-policy.go:2742-2749 | adds the container and pins the balloon; keeps everything every request keeps |
| Policy.Balloons.BalloonByContainer | cmd/plugins/balloons/policy/balloons-policy.go:628-637 | finds a balloon that has the container if and only if there is one |
| Policy.Balloons.RemoveString | cmd/plugins/balloons/policy/balloons-policy.go:2892-2900 | removes one occurrence |
| Policy.Balloons.AllocateResources | cmd/plugins/balloons/policy/balloons-policy.go:281-335 | the container is preserved, placed, or fails for a named cause: no type, unknown pod, a CPU class that does not apply, no fill method that applies, or a chosen balloon that cannot get the CPUs; which of these, and which balloon, is decided by the state before, the tree having all CPUs; placed, it is added to one balloon of its type and to no other, and the balloon has the CPU time for all its containers or has been resized for it; otherwise no balloon's containers change; keeps everything every request keeps, pins included if and only if the container was not in a balloon already |
| Policy.Balloons.ReleaseResources | cmd/plugins/balloons/policy/balloons-policy.go:338-372 | a container in no balloon changes nothing; otherwise it leaves exactly one balloon, which is resized for what remains or deflated if and only if there are CPUs for that, always if plain or empty, the tree having all CPUs; only an emptied balloon goes, if and only if its type has more than it must; keeps everything every request keeps |
| Policy.Balloons.Sync | cmd/plugins/balloons/policy/balloons-policy.go:254-278 | a trace of states in which every release and then every allocation has its outcome; containers released and not to be placed again are in no balloon afterwards; everything every request keeps is kept, pins included, if containers to be placed are to be placed once and those in a balloon are to be released |
| Policy.Balloons.ValidateConfig | cmd/plugins/balloons/policy/balloons-policy.go:1704-1730 | accepts names and limits if and only if names are nonempty and unique and no minimum exceeds its maximum |
| Policy.Balloons.ApplyBalloonDef | cmd/plugins/balloons/policy/balloons-policy.go:1689-1702 | creates as many balloons as the type must have, for a plain type if and only if there are CPUs for that many minimums, or fails because no more can be created, in a state that still has all invariants |
| Policy.Balloons.SetConfig | cmd/plugins/balloons/policy/balloons-policy.go:1875-1995 | a configuration is rejected if and only if it is invalid; an applied one has its CPUs divided up, at least the minimum of balloons of every type, none of other types, and shared idle CPUs; with plain types it is applied if and only if the minimums of all types fit the allowed CPUs, the tree having all CPUs, and otherwise just types before the first, in the order of priorities, whose minimum does not fit have theirs; a rejected one changes no balloon, and leaves CPUs divided up as its allowed CPUs say if and only if these are the ones already in force |
| Policy.Balloons.constructor | cmd/plugins/balloons/policy/balloons-policy.go:206-208 | an unconfigured policy has all invariants |
| Policy.Balloons.ContainersStayApart | cmd/plugins/balloons/policy/balloons-policy.go:2567-2656 | in every reachable state with pinning in which no container was placed twice, no container is pinned to a CPU of another balloon, plain or composite, nor to an isolated CPU that is not its balloon's, if the tree has all CPUs or no undone resize has broken sharing; it runs on no CPU of another balloon if and only if its pin is not empty, which is so in plain balloons and in composite ones whose components get CPUs |
| Policy.Balloons.RequestsAreServed | cmd/plugins/balloons/policy/balloons-policy.go:315-329 | in every reachable state a plain balloon with containers has a CPU, and all the CPU time they request without CPU limit; a composite one of n components without limits has all they request but for n-1 mCPU |

## Left out

- Discovery of sysfs and procfs contents, SST and cpufreq priorities: topology and priority sets are inputs, required to be sane (sharing a core or a cache is an equivalence within a package).
- Hints from devices, loads and CPU classes to the CPU tree: any lists of CPU sets, or any function of current CPUs where they change with every CPU. Weights of hints are unbounded integers.
- Policy.Balloons.Grow: says how many free CPUs are added, not which, as hints can single out any CPUs; which ones is said for given hints by CpuTree.Allocator.ResizeCpus and for given CPUs by Allocator.AllocateCpus.
- Policy.Balloons.Shrink: likewise for the CPUs given up.
- Memory pinning, scheduling classes, metrics, topology zones, CPU class and interrupt side effects of the balloons policy: they do not change which CPUs belong to whom. Whether the CPU class of a new balloon can be applied is an input, as a failure of that stops a placement.
- Choosing the balloon type of a container, and which balloons have containers of its group, pod or namespace: any type and any sets of balloons.
- Containers of a balloon are one list rather than lists by pod, and counts of groups are not kept.
- Composite balloons of composite balloons: types are required to have plain components, as a failed resize of a nested balloon does not restore its components' components (`BalloonSteps.NestedUndoBreaksPartition`).
- Whether containers are pinned at all is fixed, a configuration cannot change it.
- A container that changes its request while it is in a balloon: the policy does not react to that.
- Policy.Balloons.ValidateConfig: names and limits only; all other validation is one input that accepts or rejects.
- The minimum size of the reserved balloon, which is 0 when its type has no CPU limit.
- Floating point in the table of estimates: guesses are any integers within a slack of the exact value, and the number of steps is exact below 2^53 bytes and off by at most one above.
- Policy.Balloons.SetConfig: types must have plain components, see above.
- Reconciler.CatchesUp: runs the worker alone and successfully; a retry timer and updaters in between only delay it.
- MilliCPU to quota and share conversions, cache save and restore, annotation parsing, NRI and Kubernetes plumbing and the other plugins: easy members or foreign interfaces.

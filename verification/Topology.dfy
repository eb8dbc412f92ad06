/** The hardware topology the CPU allocator works on (cpuallocator's topologyCache). */
module Topology {
  import opened CpuSets
  import opened Sorting
  import opened Priorities

  datatype CoreKind = PerformanceCore | EfficientCore

  datatype Cluster = Cluster(pkg: int, die: int, cluster: int, cpus: CpuSet, kind: CoreKind)

  datatype CacheGroup = CacheGroup(id: int, pkg: int, die: int, node: int, cpus: CpuSet, kind: CoreKind)

  ghost predicate PairwiseDisjoint(sets: seq<CpuSet>) {
    forall i, j :: 0 <= i < j < |sets| ==> sets[i] !! sets[j]
  }

  datatype Topo = Topo(
    cpuIds: seq<int>,            // all present CPUs, in increasing order
    offline: CpuSet,             // present but offline CPUs
    packageIds: seq<int>,        // packages, in increasing order
    pkg: map<int, CpuSet>,       // package id to its CPUs
    core: map<int, CpuSet>,      // CPU id to the threads of its core
    packageOf: map<int, int>,    // CPU id to its package id
    kindCount: nat,              // number of different core kinds
    prios: PriorityMap,          // CPUs by priority
    clusters: seq<Cluster>,      // CPU clusters
    cacheGroups: seq<CacheGroup> // last-level cache groups
  ) {
    function PkgSet(id: int): CpuSet {
      if id in pkg then pkg[id] else {}
    }

    function CoreSet(id: int): CpuSet {
      if id in core then core[id] else {}
    }

    function PackageOf(id: int): int {
      if id in packageOf then packageOf[id] else -1
    }

    /** CPUs that can be allocated at all. */
    ghost function Usable(): CpuSet {
      (set c | c in cpuIds) - offline
    }

    /** Online threads of the core of a CPU. */
    function OnlineCore(id: int): CpuSet {
      CoreSet(id) - offline
    }

    /** What discovery guarantees: the structures of one kind never share a CPU. */
    ghost predicate WellFormed() {
      && Distinct(cpuIds) && Distinct(packageIds)
      && PackagesPartition() && CoresPartition()
      && ClustersDisjoint() && CacheGroupsDisjoint()
    }

    ghost predicate PackagesPartition() {
      && (forall p, q :: p in packageIds && q in packageIds && p != q ==> PkgSet(p) !! PkgSet(q))
      && (forall p, c :: p in packageIds && c in PkgSet(p) ==> c in cpuIds)
      && (forall c :: c in Usable() ==> PackageOf(c) in packageIds && c in PkgSet(PackageOf(c)))
    }

    ghost predicate CoresPartition() {
      && (forall c :: c in Usable() ==> c in CoreSet(c))
      && (forall c, d :: c in Usable() && d in OnlineCore(c) ==> d in Usable() && CoreSet(d) == CoreSet(c))
    }

    ghost predicate ClustersDisjoint() {
      && (forall i :: 0 <= i < |clusters| ==> clusters[i].cpus != {} && clusters[i].cpus - offline <= Usable())
      && (forall i, j :: 0 <= i < j < |clusters| ==> clusters[i].cpus !! clusters[j].cpus)
    }

    ghost predicate CacheGroupsDisjoint() {
      && (forall i :: 0 <= i < |cacheGroups| ==>
            cacheGroups[i].cpus != {} && cacheGroups[i].cpus - offline <= Usable())
      && (forall i, j :: 0 <= i < j < |cacheGroups| ==> cacheGroups[i].cpus !! cacheGroups[j].cpus)
    }
  }
}

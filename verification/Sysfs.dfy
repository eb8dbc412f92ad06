/**
 Discovery of packages, dies and logical clusters from the CPUs found in sysfs
 (pkg/sysfs/system.go, discoverPackages), and single-thread CPU sets.
 */
module Sysfs {
  import opened CpuSets

  /** A CPU as read from sysfs. */
  datatype Cpu = Cpu(pkg: int, die: int, cluster: int, node: int, online: bool, threads: CpuSet)

  type Cpus = map<int, Cpu>

  datatype Package = Package(
    cpus: CpuSet,
    nodes: set<int>,
    dies: set<int>,
    dieCpus: map<int, CpuSet>,
    dieNodes: map<int, set<int>>,
    clusterCpus: map<int, map<int, CpuSet>>,
    logicalClusters: map<int, map<int, CpuSet>>)

  const NO_PACKAGE := Package({}, {}, {}, map[], map[], map[], map[])

  // ---- what discovery is about: online CPUs by where they are
  ghost function OnlineCpus(cpus: Cpus): CpuSet {
    set c | c in cpus && cpus[c].online
  }

  ghost function InPackage(cpus: Cpus, p: int): CpuSet {
    set c | c in cpus && cpus[c].online && cpus[c].pkg == p
  }

  ghost function InDie(cpus: Cpus, p: int, d: int): CpuSet {
    set c | c in cpus && cpus[c].online && cpus[c].pkg == p && cpus[c].die == d
  }

  ghost function InCluster(cpus: Cpus, p: int, d: int, l: int): CpuSet {
    set c | c in cpus && cpus[c].online && cpus[c].pkg == p && cpus[c].die == d && cpus[c].cluster == l
  }

  function At(m: map<int, set<int>>, k: int): set<int> {
    if k in m then m[k] else {}
  }

  function ClustersAt(m: map<int, map<int, CpuSet>>, d: int): map<int, CpuSet> {
    if d in m then m[d] else map[]
  }

  ghost predicate DescribesDies(dieCpus: map<int, CpuSet>, cpus: Cpus, p: int) {
    && (forall d :: At(dieCpus, d) == InDie(cpus, p, d))
    && (forall d :: d in dieCpus ==> dieCpus[d] != {})
  }

  ghost predicate DescribesClusters(clusters: map<int, map<int, CpuSet>>, cpus: Cpus, p: int) {
    && (forall d, l :: At(ClustersAt(clusters, d), l) == InCluster(cpus, p, d, l))
    && (forall d, l :: d in clusters && l in clusters[d] ==> clusters[d][l] != {})
  }

  /** A package lists exactly its online CPUs, under exactly the dies and clusters that have some. */
  ghost predicate Describes(pkg: Package, cpus: Cpus, p: int) {
    && pkg.cpus == InPackage(cpus, p)
    && pkg.dies == pkg.dieCpus.Keys == pkg.clusterCpus.Keys
    && DescribesDies(pkg.dieCpus, cpus, p)
    && DescribesClusters(pkg.clusterCpus, cpus, p)
  }

  function PackageAt(packages: map<int, Package>, p: int): Package {
    if p in packages then packages[p] else NO_PACKAGE
  }

  ghost predicate Describe(packages: map<int, Package>, cpus: Cpus) {
    && (forall p :: Describes(PackageAt(packages, p), cpus, p))
    && (forall p :: p in packages ==> packages[p].cpus != {})
  }

  function Grow(pkg: Package, c: int, cpu: Cpu): Package {
    pkg.(cpus := pkg.cpus + {c},
         nodes := pkg.nodes + {cpu.node},
         dies := pkg.dies + {cpu.die},
         dieCpus := pkg.dieCpus[cpu.die := At(pkg.dieCpus, cpu.die) + {c}],
         dieNodes := pkg.dieNodes[cpu.die := At(pkg.dieNodes, cpu.die) + {cpu.node}],
         clusterCpus := pkg.clusterCpus[cpu.die :=
           ClustersAt(pkg.clusterCpus, cpu.die)[cpu.cluster :=
             At(ClustersAt(pkg.clusterCpus, cpu.die), cpu.cluster) + {c}]])
  }

  /** One more CPU joins its package, die and cluster, if it is online, and no other. */
  lemma Joins(cpus: Cpus, c: int, cpu: Cpu, p: int, d: int, l: int)
    requires c !in cpus
    ensures InPackage(cpus[c := cpu], p) == InPackage(cpus, p) + if cpu.online && cpu.pkg == p then {c} else {}
    ensures InDie(cpus[c := cpu], p, d) ==
            InDie(cpus, p, d) + if cpu.online && cpu.pkg == p && cpu.die == d then {c} else {}
    ensures InCluster(cpus[c := cpu], p, d, l) ==
            InCluster(cpus, p, d, l) +
            if cpu.online && cpu.pkg == p && cpu.die == d && cpu.cluster == l then {c} else {}
  {
  }

  lemma GrowDies(pkg: Package, cpus: Cpus, c: int, cpu: Cpu)
    requires c !in cpus && cpu.online && DescribesDies(pkg.dieCpus, cpus, cpu.pkg)
    ensures DescribesDies(Grow(pkg, c, cpu).dieCpus, cpus[c := cpu], cpu.pkg)
  {
    var dieCpus := Grow(pkg, c, cpu).dieCpus;
    forall d ensures At(dieCpus, d) == InDie(cpus[c := cpu], cpu.pkg, d) {
      Joins(cpus, c, cpu, cpu.pkg, d, 0);
      assert At(pkg.dieCpus, d) == InDie(cpus, cpu.pkg, d);
    }
  }

  lemma GrowClusters(pkg: Package, cpus: Cpus, c: int, cpu: Cpu)
    requires c !in cpus && cpu.online && DescribesClusters(pkg.clusterCpus, cpus, cpu.pkg)
    ensures DescribesClusters(Grow(pkg, c, cpu).clusterCpus, cpus[c := cpu], cpu.pkg)
  {
    var clusters := Grow(pkg, c, cpu).clusterCpus;
    forall d, l ensures At(ClustersAt(clusters, d), l) == InCluster(cpus[c := cpu], cpu.pkg, d, l) {
      Joins(cpus, c, cpu, cpu.pkg, d, l);
      assert At(ClustersAt(pkg.clusterCpus, d), l) == InCluster(cpus, cpu.pkg, d, l);
    }
    forall d, l | d in clusters && l in clusters[d] ensures clusters[d][l] != {} {
      if d == cpu.die && l == cpu.cluster {
        assert c in clusters[d][l];
      } else if d == cpu.die {
        assert clusters[d][l] == ClustersAt(pkg.clusterCpus, d)[l];
      }
    }
  }

  lemma GrowDescribes(pkg: Package, cpus: Cpus, c: int, cpu: Cpu)
    requires c !in cpus && cpu.online && Describes(pkg, cpus, cpu.pkg)
    ensures Describes(Grow(pkg, c, cpu), cpus[c := cpu], cpu.pkg)
    ensures Grow(pkg, c, cpu).cpus != {}
  {
    hide DescribesDies, DescribesClusters;
    GrowDies(pkg, cpus, c, cpu);
    GrowClusters(pkg, cpus, c, cpu);
    Joins(cpus, c, cpu, cpu.pkg, 0, 0);
    assert c in Grow(pkg, c, cpu).cpus;
  }

  lemma OthersDescribed(pkg: Package, cpus: Cpus, c: int, cpu: Cpu, p: int)
    requires c !in cpus && Describes(pkg, cpus, p) && (!cpu.online || cpu.pkg != p)
    ensures Describes(pkg, cpus[c := cpu], p)
  {
    var cpus' := cpus[c := cpu];
    Joins(cpus, c, cpu, p, 0, 0);
    forall d ensures At(pkg.dieCpus, d) == InDie(cpus', p, d) {
      Joins(cpus, c, cpu, p, d, 0);
      assert At(pkg.dieCpus, d) == InDie(cpus, p, d);
    }
    forall d, l ensures At(ClustersAt(pkg.clusterCpus, d), l) == InCluster(cpus', p, d, l) {
      Joins(cpus, c, cpu, p, d, l);
      assert At(ClustersAt(pkg.clusterCpus, d), l) == InCluster(cpus, p, d, l);
    }
  }

  lemma DescribeStep(packages: map<int, Package>, cpus: Cpus, c: int, cpu: Cpu)
    requires c !in cpus && Describe(packages, cpus)
    ensures Describe(if cpu.online then packages[cpu.pkg := Grow(PackageAt(packages, cpu.pkg), c, cpu)]
                     else packages, cpus[c := cpu])
  {
    forall p ensures Describes(PackageAt(packages, p), cpus, p) {
    }
    forall p | !cpu.online || p != cpu.pkg ensures Describes(PackageAt(packages, p), cpus[c := cpu], p) {
      OthersDescribed(PackageAt(packages, p), cpus, c, cpu, p);
    }
    if cpu.online {
      var grown := Grow(PackageAt(packages, cpu.pkg), c, cpu);
      GrowDescribes(PackageAt(packages, cpu.pkg), cpus, c, cpu);
      var packages' := packages[cpu.pkg := grown];
      forall p ensures Describes(PackageAt(packages', p), cpus[c := cpu], p) {
        assert PackageAt(packages', p) == if p == cpu.pkg then grown else PackageAt(packages, p);
      }
    }
  }

  lemma NothingDescribed()
    ensures Describe(map[], map[])
  {
  }

  /** Sorts the online CPUs into packages, dies and clusters, whatever order they come in. */
  method SortIntoPackages(cpus: Cpus) returns (packages: map<int, Package>)
    ensures Describe(packages, cpus)
  {
    hide Describe, Grow;
    packages := map[];
    var todo := cpus.Keys;
    ghost var done: Cpus := map[];
    NothingDescribed();
    while todo != {}
      invariant todo <= cpus.Keys && done == cpus - todo
      invariant Describe(packages, done)
      decreases todo
    {
      ghost var w := Pick(todo);
      var c :| c in todo;
      var cpu := cpus[c];
      DescribeStep(packages, done, c, cpu);
      if cpu.online {
        packages := packages[cpu.pkg := Grow(PackageAt(packages, cpu.pkg), c, cpu)];
      }
      todo := todo - {c};
      done := done[c := cpu];
    }
    assert done == cpus;
  }

  // ---- logical clusters

  /** The CPUs of one die by cluster: nonempty sets of known CPUs that name their cluster. */
  ghost predicate AreClusters(cpus: Cpus, clusters: map<int, CpuSet>) {
    forall l :: l in clusters ==> clusters[l] != {} && forall c :: c in clusters[l] ==> c in cpus && cpus[c].cluster == l
  }

  /** A cluster that is nothing but the threads of one core. */
  ghost predicate IsCore(cpus: Cpus, cluster: CpuSet)
    requires cluster != {} && forall c :: c in cluster ==> c in cpus
  {
    cluster == cpus[MinOf(cluster)].threads
  }

  ghost function CoreClusters(cpus: Cpus, clusters: map<int, CpuSet>): set<int>
    requires AreClusters(cpus, clusters)
  {
    set l | l in clusters && IsCore(cpus, clusters[l])
  }

  /** All CPUs of the given clusters. */
  ghost function CpusOf(clusters: map<int, CpuSet>, ls: set<int>): CpuSet
    requires ls <= clusters.Keys
  {
    set l, c | l in ls && c in clusters[l] :: c
  }

  /** Clusters stay as they are, except that all core-only clusters become one. */
  ghost predicate IsLogical(cpus: Cpus, clusters: map<int, CpuSet>, logical: map<int, CpuSet>)
    requires AreClusters(cpus, clusters)
  {
    var cores := CoreClusters(cpus, clusters);
    && (forall l :: l in clusters && l !in cores ==> l in logical && logical[l] == clusters[l])
    && (cores == {} ==> logical.Keys == clusters.Keys)
    && (cores != {} ==> exists key ::
          && key in cores && key in logical && logical[key] == CpusOf(clusters, cores)
          && logical.Keys == (clusters.Keys - cores) + {key})
  }

  /**
   Merging core-only clusters loses no CPU and mixes no two clusters otherwise: the logical clusters
   of a die are nonempty, share no CPU, and have exactly the CPUs of the original clusters.
   */
  lemma LogicalClustersPartition(cpus: Cpus, clusters: map<int, CpuSet>, logical: map<int, CpuSet>)
    requires AreClusters(cpus, clusters) && IsLogical(cpus, clusters, logical)
    ensures forall k :: k in logical ==> logical[k] != {}
    ensures forall k, l :: k in logical && l in logical && k != l ==> logical[k] !! logical[l]
    ensures CpusOf(logical, logical.Keys) == CpusOf(clusters, clusters.Keys)
  {
    var cores := CoreClusters(cpus, clusters);
    var merged := CpusOf(clusters, cores);
    forall k | k in logical
      ensures logical[k] != {} && logical[k] == if k in cores then merged else clusters[k]
    {
      if k in cores {
        var c := Pick(clusters[k]);
        assert c in merged;
      }
    }
    forall k, l | k in logical && l in logical && k != l ensures logical[k] !! logical[l] {
      LogicalApart(cpus, clusters, logical, k, l);
    }
    forall c | c in CpusOf(clusters, clusters.Keys) ensures c in CpusOf(logical, logical.Keys) {
      var l :| l in clusters && c in clusters[l];
      if l in cores {
        assert c in merged;
      } else {
        assert c in logical[l];
      }
    }
  }

  lemma LogicalApart(cpus: Cpus, clusters: map<int, CpuSet>, logical: map<int, CpuSet>, k: int, l: int)
    requires AreClusters(cpus, clusters) && IsLogical(cpus, clusters, logical)
    requires k in logical && l in logical && k != l
    ensures logical[k] !! logical[l]
  {
    var cores := CoreClusters(cpus, clusters);
    if !(logical[k] !! logical[l]) {
      var c := CommonMember(logical[k], logical[l]);
      var i := OriginalCluster(cpus, clusters, logical, k, c);
      var j := OriginalCluster(cpus, clusters, logical, l, c);
      assert false;
    }
  }

  lemma OriginalCluster(cpus: Cpus, clusters: map<int, CpuSet>, logical: map<int, CpuSet>, k: int, c: int)
    returns (l: int)
    requires AreClusters(cpus, clusters) && IsLogical(cpus, clusters, logical)
    requires k in logical && c in logical[k]
    ensures l in clusters && c in clusters[l]
    ensures if k in CoreClusters(cpus, clusters) then l in CoreClusters(cpus, clusters) else l == k
  {
    var cores := CoreClusters(cpus, clusters);
    if k in cores {
      assert c in CpusOf(clusters, cores);
      l :| l in cores && c in clusters[l];
    } else {
      l := k;
    }
  }

  /** Merges the core-only clusters of a die, whatever order the clusters come in. */
  method MergeClusters(cpus: Cpus, clusters: map<int, CpuSet>) returns (logical: map<int, CpuSet>)
    requires AreClusters(cpus, clusters)
    ensures IsLogical(cpus, clusters, logical)
  {
    logical := map[];
    var todo := clusters.Keys;
    var htClusters: set<int>, allHt: CpuSet := {}, {};
    ghost var cores := CoreClusters(cpus, clusters);
    while todo != {}
      invariant todo <= clusters.Keys
      invariant htClusters == cores - todo && allHt == CpusOf(clusters, htClusters)
      invariant logical == map l | l in clusters.Keys - todo - cores :: clusters[l]
      decreases todo
    {
      ghost var w := Pick(todo);
      var l :| l in todo;
      var ids := clusters[l];
      var first := FindMin(ids);
      CpusOfOneMore(clusters, htClusters, l);
      if ids == cpus[first].threads {
        htClusters := htClusters + {l};
        allHt := allHt + cpus[first].threads;
      } else {
        logical := logical[l := ids];
      }
      todo := todo - {l};
    }
    if htClusters != {} {
      SomeCpu(cpus, clusters, htClusters);
      var first := FindMin(allHt);
      ghost var key :| key in htClusters && first in clusters[key];
      logical := logical[cpus[first].cluster := allHt];
      assert cpus[first].cluster == key;
    }
  }

  lemma SomeCpu(cpus: Cpus, clusters: map<int, CpuSet>, ls: set<int>)
    requires AreClusters(cpus, clusters) && {} != ls <= clusters.Keys
    ensures CpusOf(clusters, ls) != {}
  {
    var l := Pick(ls);
    var c := Pick(clusters[l]);
    assert c in CpusOf(clusters, ls);
  }

  lemma CpusOfOneMore(clusters: map<int, CpuSet>, ls: set<int>, l: int)
    requires ls <= clusters.Keys && l in clusters
    ensures CpusOf(clusters, ls + {l}) == CpusOf(clusters, ls) + clusters[l]
  {
    forall c | c in clusters[l] ensures c in CpusOf(clusters, ls + {l}) {
      assert l in ls + {l};
    }
    forall c | c in CpusOf(clusters, ls) ensures c in CpusOf(clusters, ls + {l}) {
      var k :| k in ls && c in clusters[k];
      assert k in ls + {l};
    }
  }

  // ---- discovery as a whole

  lemma DescribedAreClusters(pkg: Package, cpus: Cpus, p: int, d: int)
    requires Describes(pkg, cpus, p) && d in pkg.clusterCpus
    ensures AreClusters(cpus, pkg.clusterCpus[d])
    ensures CpusOf(pkg.clusterCpus[d], pkg.clusterCpus[d].Keys) == InDie(cpus, p, d)
  {
    var clusters := pkg.clusterCpus[d];
    forall l | l in clusters ensures clusters[l] == InCluster(cpus, p, d, l) {
      assert At(ClustersAt(pkg.clusterCpus, d), l) == InCluster(cpus, p, d, l);
    }
    forall c | c in InDie(cpus, p, d) ensures c in CpusOf(clusters, clusters.Keys) {
      assert c in InCluster(cpus, p, d, cpus[c].cluster);
      assert At(ClustersAt(pkg.clusterCpus, d), cpus[c].cluster) == InCluster(cpus, p, d, cpus[c].cluster);
    }
    forall c | c in CpusOf(clusters, clusters.Keys) ensures c in InDie(cpus, p, d) {
      var l :| l in clusters && c in clusters[l];
    }
  }

  /** The logical clusters of a package share no CPU within a die and cover each die. */
  ghost predicate LogicallyPartitioned(pkg: Package, cpus: Cpus, p: int) {
    && pkg.logicalClusters.Keys == pkg.dies
    && forall d :: d in pkg.dies ==> LogicalDie(pkg.logicalClusters[d], InDie(cpus, p, d))
  }

  ghost predicate LogicalDie(logical: map<int, CpuSet>, dieCpus: CpuSet) {
    && (forall k :: k in logical ==> logical[k] != {})
    && (forall k, l :: k in logical && l in logical && k != l ==> logical[k] !! logical[l])
    && CpusOf(logical, logical.Keys) == dieCpus
  }

  lemma IsLogicalDie(logical: map<int, CpuSet>, dieCpus: CpuSet)
    requires forall k :: k in logical ==> logical[k] != {}
    requires forall k, l :: k in logical && l in logical && k != l ==> logical[k] !! logical[l]
    requires CpusOf(logical, logical.Keys) == dieCpus
    ensures LogicalDie(logical, dieCpus)
  {
  }

  /** Logical clusters of all dies of a package. */
  method MergeDies(cpus: Cpus, pkg: Package, ghost p: int) returns (logical: map<int, map<int, CpuSet>>)
    requires Describes(pkg, cpus, p)
    ensures LogicallyPartitioned(pkg.(logicalClusters := logical), cpus, p)
  {
    hide IsLogical, AreClusters, LogicalDie, DescribesDies, DescribesClusters, InDie, CpusOf;
    logical := map[];
    var todo := pkg.clusterCpus.Keys;
    while todo != {}
      invariant todo <= pkg.clusterCpus.Keys && logical.Keys == pkg.clusterCpus.Keys - todo
      invariant forall d :: d in logical ==> LogicalDie(logical[d], InDie(cpus, p, d))
      decreases todo
    {
      ghost var w := Pick(todo);
      var d :| d in todo;
      DescribedAreClusters(pkg, cpus, p, d);
      var merged := MergeClusters(cpus, pkg.clusterCpus[d]);
      LogicalClustersPartition(cpus, pkg.clusterCpus[d], merged);
      IsLogicalDie(merged, InDie(cpus, p, d));
      logical := logical[d := merged];
      todo := todo - {d};
    }
    if |logical| == 0 {
      logical := pkg.clusterCpus;
    }
  }

  /**
   Package discovery. Every online CPU is in its package, in its die and in exactly one logical
   cluster of that die, and nothing else is.
   */
  method DiscoverPackages(cpus: Cpus) returns (packages: map<int, Package>)
    ensures Describe(packages, cpus)
    ensures forall p :: p in packages ==> LogicallyPartitioned(packages[p], cpus, p)
  {
    packages := SortIntoPackages(cpus);
    var todo := packages.Keys;
    while todo != {}
      invariant todo <= packages.Keys
      invariant Describe(packages, cpus)
      invariant forall p :: p in packages && p !in todo ==> LogicallyPartitioned(packages[p], cpus, p)
      decreases todo
    {
      ghost var w := Pick(todo);
      var p :| p in todo;
      assert Describes(PackageAt(packages, p), cpus, p);
      var logical := MergeDies(cpus, packages[p], p);
      LogicalKeepsDescription(packages, cpus, p, logical);
      packages := packages[p := packages[p].(logicalClusters := logical)];
      todo := todo - {p};
    }
  }

  lemma LogicalKeepsDescription(packages: map<int, Package>, cpus: Cpus, p: int, logical: map<int, map<int, CpuSet>>)
    requires Describe(packages, cpus) && p in packages
    ensures Describe(packages[p := packages[p].(logicalClusters := logical)], cpus)
  {
    var packages' := packages[p := packages[p].(logicalClusters := logical)];
    forall q ensures Describes(PackageAt(packages', q), cpus, q) {
      assert Describes(PackageAt(packages, q), cpus, q);
    }
  }

  // ---- one thread per core

  function ThreadsOf(cpus: Cpus, c: int): CpuSet {
    if c in cpus then cpus[c].threads else {}
  }

  /** Sharing a core is an equivalence among the given CPUs. */
  ghost predicate CoresAgree(cpus: Cpus, s: CpuSet) {
    && (forall c :: c in s && c in cpus ==> c in cpus[c].threads)
    && (forall c, d :: c in s && d in s && d in ThreadsOf(cpus, c) ==> ThreadsOf(cpus, d) == ThreadsOf(cpus, c))
  }

  /** From each core, the smallest of the given CPUs. */
  ghost function SmallestThreads(cpus: Cpus, s: CpuSet): CpuSet {
    set c | c in s && forall d :: d in s && d in ThreadsOf(cpus, c) ==> c <= d
  }

  method SingleThreadForCpus(cpus: Cpus, s: CpuSet) returns (result: CpuSet)
    requires CoresAgree(cpus, s)
    ensures result == SmallestThreads(cpus, s)
  {
    result := {};
    var todo, handled: CpuSet := s, {};
    while todo != {}
      invariant todo <= s
      invariant forall x, y :: x in s - todo && y in todo ==> x < y
      invariant result == SmallestThreads(cpus, s) - todo
      invariant forall x :: x in handled <==> x in s - todo || exists r :: r in result && x in ThreadsOf(cpus, r)
      decreases todo
    {
      var c := FindMin(todo);
      HandledIffNotSmallest(cpus, s, todo, handled, result, c);
      assert forall y :: y in todo - {c} ==> c < y;
      todo := todo - {c};
      if c !in handled {
        handled := handled + {c} + ThreadsOf(cpus, c);
        result := result + {c};
      }
    }
  }

  lemma HandledIffNotSmallest(cpus: Cpus, s: CpuSet, todo: CpuSet, handled: CpuSet, result: CpuSet, c: int)
    requires CoresAgree(cpus, s) && todo <= s && IsMin(todo, c)
    requires forall x, y :: x in s - todo && y in todo ==> x < y
    requires result == SmallestThreads(cpus, s) - todo
    requires forall x :: x in handled <==> x in s - todo || exists r :: r in result && x in ThreadsOf(cpus, r)
    ensures c in handled <==> c !in SmallestThreads(cpus, s)
  {
    if c in handled {
      var r :| r in result && c in ThreadsOf(cpus, r);
      assert r in ThreadsOf(cpus, c) && r < c;
    }
    if c !in SmallestThreads(cpus, s) {
      var core := ThreadsOf(cpus, c) * s;
      var d :| d in s && d in ThreadsOf(cpus, c) && d < c;
      assert d in core;
      var m := MinOf(core);
      assert ThreadsOf(cpus, m) == ThreadsOf(cpus, c);
      forall e | e in s && e in ThreadsOf(cpus, m) ensures m <= e {
        assert e in core;
      }
      assert m in SmallestThreads(cpus, s) && m <= d && m !in todo;
      assert c in ThreadsOf(cpus, m);
    }
  }
}

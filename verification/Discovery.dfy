/**
 Building the allocator's view of the hardware from discovered packages (cpuallocator's
 newTopologyCache, discoverCPUClusters and discoverCacheGroups). The outcome is a topology in which
 structures of one kind never share a CPU, which is what the allocator relies on.
 */
module Discovery {
  import opened CpuSets
  import opened Sorting
  import opened Ranking
  import opened Priorities
  import opened Topology
  import opened Sysfs

  /** What the kernel reports besides the placement of CPUs. */
  datatype Hardware = Hardware(
    cpus: Cpus,
    caches: map<int, CpuSet>,  // CPUs sharing the cache used for grouping, per CPU
    kinds: map<int, CoreKind>, // core kind per CPU
    prios: PriorityMap)
  {
    /** "Shares a core" and "shares a cache" are equivalences, and no cache spans packages. */
    ghost predicate Sane() {
      && (forall c :: c in OnlineCpus(cpus) ==> c in cpus[c].threads)
      && (forall c, d :: c in OnlineCpus(cpus) && d in cpus[c].threads ==>
            d in cpus && (cpus[d].online ==> cpus[d].threads == cpus[c].threads))
      && (forall c, d :: c in OnlineCpus(cpus) && d in OnlineCpus(cpus) && d in CacheOf(c) ==>
            c in CacheOf(d) && CacheOf(d) == CacheOf(c) && cpus[d].pkg == cpus[c].pkg)
    }

    function CacheOf(c: int): CpuSet {
      if c in caches then caches[c] else {}
    }

    function KindOf(c: int): CoreKind {
      if c in kinds then kinds[c] else PerformanceCore
    }
  }

  // ---- clusters

  ghost predicate DistinctKeys(clusters: seq<Cluster>) {
    forall i, j :: 0 <= i < j < |clusters| ==>
      (clusters[i].pkg, clusters[i].die, clusters[i].cluster) != (clusters[j].pkg, clusters[j].die, clusters[j].cluster)
  }

  /** The cluster is one of the logical clusters of the packages. */
  ghost predicate IsFrom(packages: map<int, Package>, c: Cluster) {
    && c.pkg in packages && c.die in packages[c.pkg].logicalClusters
    && c.cluster in packages[c.pkg].logicalClusters[c.die]
    && c.cpus == packages[c.pkg].logicalClusters[c.die][c.cluster]
  }

  /** It has CPUs, and is of the kind of the first of them. */
  ghost predicate IsCluster(hw: Hardware, packages: map<int, Package>, c: Cluster) {
    IsFrom(packages, c) && c.cpus != {} && c.kind == hw.KindOf(MinOf(c.cpus))
  }

  /** All clusters of packages that have several, each once. */
  ghost predicate AreClustersOf(hw: Hardware, packages: map<int, Package>, clusters: seq<Cluster>) {
    && DistinctKeys(clusters) && (forall i :: 0 <= i < |clusters| ==> IsCluster(hw, packages, clusters[i]))
    && (forall p, d, l :: IsLogicalCluster(packages, p, d, l) ==> (Lists(clusters, p, d, l) <==> Several(packages, p)))
  }

  /** A logical cluster that is not empty. */
  ghost predicate IsLogicalCluster(packages: map<int, Package>, p: int, d: int, l: int) {
    && p in packages && d in packages[p].logicalClusters && l in packages[p].logicalClusters[d]
    && packages[p].logicalClusters[d][l] != {}
  }

  ghost predicate Lists(clusters: seq<Cluster>, p: int, d: int, l: int) {
    exists i :: 0 <= i < |clusters| && clusters[i].pkg == p && clusters[i].die == d && clusters[i].cluster == l
  }

  lemma ListsMore(clusters: seq<Cluster>, more: seq<Cluster>, p: int, d: int, l: int)
    ensures Lists(clusters, p, d, l) || Lists(more, p, d, l) <==> Lists(clusters + more, p, d, l)
  {
    var all := clusters + more;
    if Lists(clusters, p, d, l) {
      var i :| 0 <= i < |clusters| && clusters[i].pkg == p && clusters[i].die == d && clusters[i].cluster == l;
      assert all[i] == clusters[i];
    }
    if Lists(more, p, d, l) {
      var i :| 0 <= i < |more| && more[i].pkg == p && more[i].die == d && more[i].cluster == l;
      assert all[|clusters| + i] == more[i];
    }
    if Lists(all, p, d, l) {
      var i :| 0 <= i < |all| && all[i].pkg == p && all[i].die == d && all[i].cluster == l;
      assert all[i] == if i < |clusters| then clusters[i] else more[i - |clusters|];
    }
  }

  /** A package with at least two logical clusters. */
  ghost predicate Several(packages: map<int, Package>, p: int) {
    exists d, l, e, m :: IsLogicalCluster(packages, p, d, l) && IsLogicalCluster(packages, p, e, m) && (d, l) != (e, m)
  }

  lemma SeveralIff(packages: map<int, Package>, p: int, clusters: seq<Cluster>)
    requires DistinctKeys(clusters)
    requires forall i :: 0 <= i < |clusters| ==> clusters[i].pkg == p && IsFrom(packages, clusters[i]) && clusters[i].cpus != {}
    requires forall d, l :: IsLogicalCluster(packages, p, d, l) ==> Lists(clusters, p, d, l)
    ensures Several(packages, p) <==> |clusters| > 1
  {
    if |clusters| > 1 {
      var a, b := clusters[0], clusters[1];
      assert IsLogicalCluster(packages, p, a.die, a.cluster) && IsLogicalCluster(packages, p, b.die, b.cluster);
    }
    if Several(packages, p) {
      var d, l, e, m :| IsLogicalCluster(packages, p, d, l) && IsLogicalCluster(packages, p, e, m) && (d, l) != (e, m);
      var i :| 0 <= i < |clusters| && clusters[i].pkg == p && clusters[i].die == d && clusters[i].cluster == l;
      var j :| 0 <= j < |clusters| && clusters[j].pkg == p && clusters[j].die == e && clusters[j].cluster == m;
      assert i != j;
    }
  }

  method ClustersOfDie(hw: Hardware, packages: map<int, Package>, p: int, d: int) returns (clusters: seq<Cluster>)
    requires p in packages && d in packages[p].logicalClusters
    ensures DistinctKeys(clusters)
    ensures forall i :: 0 <= i < |clusters| ==>
              && clusters[i].pkg == p && clusters[i].die == d
              && IsCluster(hw, packages, clusters[i])
    ensures forall l :: IsLogicalCluster(packages, p, d, l) ==> Lists(clusters, p, d, l)
  {
    var logical := packages[p].logicalClusters[d];
    var ids := SortedList(logical.Keys);
    clusters := [];
    for k := 0 to |ids|
      invariant DistinctKeys(clusters)
      invariant forall i :: 0 <= i < |clusters| ==>
                  && clusters[i].pkg == p && clusters[i].die == d
                  && IsCluster(hw, packages, clusters[i]) && clusters[i].cluster in ids[..k]
      invariant forall l :: l in ids[..k] && logical[l] != {} ==> Lists(clusters, p, d, l)
    {
      var id := ids[k];
      assert id in ids && id !in ids[..k] && ids[..k+1] == ids[..k] + [id];
      var cset := logical[id];
      if |cset| > 0 {
        var first := FindMin(cset);
        var cluster := Cluster(p, d, id, cset, hw.KindOf(first));
        assert [cluster][0] == cluster && Lists([cluster], p, d, id);
        forall l ensures Lists(clusters, p, d, l) || Lists([cluster], p, d, l) <==> Lists(clusters + [cluster], p, d, l) {
          ListsMore(clusters, [cluster], p, d, l);
        }
        clusters := clusters + [cluster];
      }
    }
    assert ids[..|ids|] == ids;
    forall l | IsLogicalCluster(packages, p, d, l) ensures Lists(clusters, p, d, l) {
      assert l in ids;
    }
  }

  method ClustersOfPackage(hw: Hardware, packages: map<int, Package>, p: int) returns (clusters: seq<Cluster>)
    requires p in packages && packages[p].logicalClusters.Keys == packages[p].dies
    ensures DistinctKeys(clusters)
    ensures forall i :: 0 <= i < |clusters| ==>
              clusters[i].pkg == p && IsCluster(hw, packages, clusters[i])
    ensures forall d, l :: IsLogicalCluster(packages, p, d, l) ==> Lists(clusters, p, d, l)
  {
    var dies := SortedList(packages[p].dies);
    clusters := [];
    for k := 0 to |dies|
      invariant DistinctKeys(clusters)
      invariant forall i :: 0 <= i < |clusters| ==>
                  && clusters[i].pkg == p && IsCluster(hw, packages, clusters[i])
                  && clusters[i].die in dies[..k]
      invariant forall d, l :: d in dies[..k] && IsLogicalCluster(packages, p, d, l) ==> Lists(clusters, p, d, l)
    {
      var d := dies[k];
      assert d in dies && d !in dies[..k] && dies[..k+1] == dies[..k] + [d];
      var more := ClustersOfDie(hw, packages, p, d);
      forall e, l | e in dies[..k+1] && IsLogicalCluster(packages, p, e, l) ensures Lists(clusters + more, p, e, l) {
        ListsMore(clusters, more, p, e, l);
        assert e in dies[..k] || e == d;
      }
      clusters := clusters + more;
    }
    assert dies[..|dies|] == dies;
    forall d, l | IsLogicalCluster(packages, p, d, l) ensures Lists(clusters, p, d, l) {
      assert d in dies;
    }
  }

  /** Clusters of those packages that have several. */
  method DiscoverClusters(hw: Hardware, packages: map<int, Package>) returns (clusters: seq<Cluster>)
    requires forall p :: p in packages ==> packages[p].logicalClusters.Keys == packages[p].dies
    ensures AreClustersOf(hw, packages, clusters)
  {
    hide Several, Lists, IsLogicalCluster;
    var pkgs := SortedList(packages.Keys);
    clusters := [];
    for k := 0 to |pkgs|
      invariant DistinctKeys(clusters)
      invariant forall i :: 0 <= i < |clusters| ==>
                  IsCluster(hw, packages, clusters[i]) && clusters[i].pkg in pkgs[..k]
      invariant forall p, d, l :: p in pkgs[..k] && IsLogicalCluster(packages, p, d, l) ==>
                  (Lists(clusters, p, d, l) <==> Several(packages, p))
    {
      var p := pkgs[k];
      assert p in pkgs && p !in pkgs[..k] && pkgs[..k+1] == pkgs[..k] + [p];
      var more := ClustersOfPackage(hw, packages, p);
      SeveralIff(packages, p, more);
      ListedPackages(packages, pkgs[..k], p, clusters, more);
      if |more| > 1 {
        clusters := clusters + more;
      }
    }
    assert pkgs[..|pkgs|] == pkgs;
    forall p, d, l | IsLogicalCluster(packages, p, d, l)
      ensures Lists(clusters, p, d, l) <==> Several(packages, p)
    {
      LogicalPackage(packages, p, d, l);
      assert p in pkgs;
    }
  }

  lemma LogicalPackage(packages: map<int, Package>, p: int, d: int, l: int)
    requires IsLogicalCluster(packages, p, d, l)
    ensures p in packages
  {
  }

  /** Clusters of one more package are listed if there are several. */
  lemma ListedPackages(packages: map<int, Package>, done: seq<int>, p: int, clusters: seq<Cluster>, more: seq<Cluster>)
    requires p !in done && (forall i :: 0 <= i < |clusters| ==> clusters[i].pkg in done)
    requires forall i :: 0 <= i < |more| ==> more[i].pkg == p
    requires forall q, d, l :: q in done && IsLogicalCluster(packages, q, d, l) ==>
               (Lists(clusters, q, d, l) <==> Several(packages, q))
    requires forall d, l :: IsLogicalCluster(packages, p, d, l) ==> Lists(more, p, d, l)
    requires Several(packages, p) <==> |more| > 1
    ensures var clusters' := if |more| > 1 then clusters + more else clusters;
            forall q, d, l :: q in done + [p] && IsLogicalCluster(packages, q, d, l) ==>
              (Lists(clusters', q, d, l) <==> Several(packages, q))
  {
    forall q, d, l | q in done + [p] && IsLogicalCluster(packages, q, d, l)
      ensures Lists(if |more| > 1 then clusters + more else clusters, q, d, l) <==> Several(packages, q)
    {
      ListsMore(clusters, more, q, d, l);
      assert q in done || q == p;
    }
  }

  lemma ClusterWithin(cpus: Cpus, packages: map<int, Package>, c: Cluster)
    requires Describe(packages, cpus) && (forall p :: p in packages ==> LogicallyPartitioned(packages[p], cpus, p))
    requires IsFrom(packages, c)
    ensures c.cpus <= InDie(cpus, c.pkg, c.die)
  {
    var logical := packages[c.pkg].logicalClusters[c.die];
    forall x | x in c.cpus ensures x in InDie(cpus, c.pkg, c.die) {
      assert x in CpusOf(logical, logical.Keys);
    }
  }

  lemma ClustersShareNothing(cpus: Cpus, packages: map<int, Package>, c: Cluster, d: Cluster)
    requires Describe(packages, cpus) && (forall p :: p in packages ==> LogicallyPartitioned(packages[p], cpus, p))
    requires IsFrom(packages, c) && IsFrom(packages, d) && (c.pkg, c.die, c.cluster) != (d.pkg, d.die, d.cluster)
    ensures c.cpus !! d.cpus
  {
    ClusterWithin(cpus, packages, c);
    ClusterWithin(cpus, packages, d);
    assert LogicallyPartitioned(packages[c.pkg], cpus, c.pkg);
  }

  // ---- cache groups

  /** Distinct, nonempty groups of online CPUs that share a cache. */
  ghost predicate AreGroups(hw: Hardware, groups: seq<CacheGroup>) {
    && (forall i :: 0 <= i < |groups| ==> IsGroup(hw, groups[i]))
    && (forall i, j :: 0 <= i < j < |groups| ==> groups[i].cpus !! groups[j].cpus)
  }

  ghost predicate IsGroup(hw: Hardware, g: CacheGroup) {
    g.cpus != {} && exists c :: c in OnlineCpus(hw.cpus) && IsGroupOf(hw, g, c)
  }

  /** The group of the CPUs that share a cache with the given one, placed where that CPU is. */
  ghost predicate IsGroupOf(hw: Hardware, g: CacheGroup, c: int)
    requires c in hw.cpus
  {
    && g.cpus == hw.CacheOf(c) * OnlineCpus(hw.cpus)
    && g.pkg == hw.cpus[c].pkg && g.die == hw.cpus[c].die && g.node == hw.cpus[c].node && g.kind == hw.KindOf(c)
  }

  lemma GroupMember(hw: Hardware, g: CacheGroup, x: int)
    requires hw.Sane() && IsGroup(hw, g) && x in g.cpus
    ensures x in OnlineCpus(hw.cpus) && g.cpus == hw.CacheOf(x) * OnlineCpus(hw.cpus) && hw.cpus[x].pkg == g.pkg
  {
    var c :| c in OnlineCpus(hw.cpus) && IsGroupOf(hw, g, c);
    assert x in hw.CacheOf(c);
  }

  /** A cache whose CPUs are one CPU, one core, one die or one package tells nothing new. */
  predicate Groups(cset: CpuSet, threads: CpuSet, die: CpuSet, pkg: CpuSet) {
    |cset| > 1 && cset != threads && cset != die && cset != pkg
  }

  /** A CPU whose cache groups CPUs of its package. */
  ghost predicate IsGrouped(hw: Hardware, pkg: Package, c: int) {
    && c in pkg.cpus * OnlineCpus(hw.cpus)
    && var online := OnlineCpus(hw.cpus);
       Groups(hw.CacheOf(c) * online, hw.cpus[c].threads * online, At(pkg.dieCpus, hw.cpus[c].die) * online, pkg.cpus * online)
  }

  ghost predicate InSome(groups: seq<CacheGroup>, c: int) {
    exists i :: 0 <= i < |groups| && c in groups[i].cpus
  }

  lemma InSomeMore(groups: seq<CacheGroup>, more: seq<CacheGroup>, c: int)
    ensures InSome(groups, c) || InSome(more, c) <==> InSome(groups + more, c)
  {
    var all := groups + more;
    if InSome(groups, c) {
      var i :| 0 <= i < |groups| && c in groups[i].cpus;
      assert all[i] == groups[i];
    }
    if InSome(more, c) {
      var i :| 0 <= i < |more| && c in more[i].cpus;
      assert all[|groups| + i] == more[i];
    }
    if InSome(all, c) {
      var i :| 0 <= i < |all| && c in all[i].cpus;
      assert all[i] == if i < |groups| then groups[i] else more[i - |groups|];
    }
  }

  method GroupsOfPackage(hw: Hardware, pkg: Package, p: int, online: CpuSet) returns (groups: seq<CacheGroup>)
    requires hw.Sane() && online == OnlineCpus(hw.cpus)
    requires forall c :: c in pkg.cpus ==> c in online && hw.cpus[c].pkg == p
    ensures AreGroups(hw, groups) && forall i :: 0 <= i < |groups| ==> groups[i].pkg == p
    ensures forall c :: IsGrouped(hw, pkg, c) ==> InSome(groups, c)
  {
    var ids := SortedList(pkg.cpus * online);
    groups := [];
    var seen: CpuSet := {};
    for k := 0 to |ids|
      invariant AreGroups(hw, groups) && forall i :: 0 <= i < |groups| ==> groups[i].pkg == p
      invariant forall i :: 0 <= i < |groups| ==> groups[i].cpus <= seen
      invariant forall c :: c in seen ==> InSome(groups, c)
      invariant forall c :: c in ids[..k] && IsGrouped(hw, pkg, c) ==> InSome(groups, c)
    {
      var c := ids[k];
      assert c in ids && ids[..k+1] == ids[..k] + [c];
      if c !in seen {
        var cpu := hw.cpus[c];
        var cset := hw.CacheOf(c) * online;
        if Groups(cset, cpu.threads * online, At(pkg.dieCpus, cpu.die) * online, pkg.cpus * online) {
          var g := CacheGroup(0, p, cpu.die, cpu.node, cset, hw.KindOf(c));
          assert |cset| != 0;
          NewGroupApart(hw, groups, seen, g, c);
          CacheHasItself(hw, c);
          GroupAdded(groups, g);
          groups := groups + [g];
          seen := seen + cset;
        }
      }
    }
    assert ids[..|ids|] == ids;
    forall c | IsGrouped(hw, pkg, c) ensures InSome(groups, c) {
      assert c in ids;
    }
  }

  lemma CacheHasItself(hw: Hardware, c: int)
    requires hw.Sane() && c in OnlineCpus(hw.cpus) && hw.CacheOf(c) * OnlineCpus(hw.cpus) != {}
    ensures c in hw.CacheOf(c)
  {
    var d := Pick(hw.CacheOf(c) * OnlineCpus(hw.cpus));
    assert d in hw.CacheOf(c);
  }

  lemma GroupAdded(groups: seq<CacheGroup>, g: CacheGroup)
    ensures forall c :: InSome(groups + [g], c) <==> InSome(groups, c) || c in g.cpus
  {
    assert [g][0] == g;
    forall c ensures InSome(groups + [g], c) <==> InSome(groups, c) || c in g.cpus {
      InSomeMore(groups, [g], c);
      assert InSome([g], c) <==> c in g.cpus;
    }
  }

  lemma NewGroupApart(hw: Hardware, groups: seq<CacheGroup>, seen: CpuSet, g: CacheGroup, c: int)
    requires hw.Sane() && AreGroups(hw, groups) && c in OnlineCpus(hw.cpus) && c !in seen
    requires forall i :: 0 <= i < |groups| ==> groups[i].cpus <= seen
    requires g.cpus != {} && IsGroupOf(hw, g, c)
    ensures AreGroups(hw, groups + [g])
  {
    assert IsGroup(hw, g);
    forall i | 0 <= i < |groups| ensures groups[i].cpus !! g.cpus {
      if !(groups[i].cpus !! g.cpus) {
        var x := CommonMember(groups[i].cpus, g.cpus);
        GroupMember(hw, groups[i], x);
        assert false;
      }
    }
  }

  lemma GroupsOfPackagesApart(hw: Hardware, groups: seq<CacheGroup>, more: seq<CacheGroup>, p: int)
    requires hw.Sane() && AreGroups(hw, groups) && AreGroups(hw, more)
    requires forall i :: 0 <= i < |groups| ==> groups[i].pkg != p
    requires forall i :: 0 <= i < |more| ==> more[i].pkg == p
    ensures AreGroups(hw, groups + more)
  {
    forall i, j | 0 <= i < |groups| && 0 <= j < |more| ensures groups[i].cpus !! more[j].cpus {
      if !(groups[i].cpus !! more[j].cpus) {
        var x := CommonMember(groups[i].cpus, more[j].cpus);
        GroupMember(hw, groups[i], x);
        GroupMember(hw, more[j], x);
        assert false;
      }
    }
  }

  /** A group with its first CPU. */
  type Keyed = (CacheGroup, int)

  /** Compares groups by package, die unless dies are ignored, NUMA node and first CPU. */
  function GroupOrder(byDie: bool): (Keyed, Keyed) -> int {
    (a: Keyed, b: Keyed) =>
      if a.0.pkg != b.0.pkg then a.0.pkg - b.0.pkg
      else if byDie && a.0.die != b.0.die then a.0.die - b.0.die
      else if a.0.node != b.0.node then a.0.node - b.0.node
      else a.1 - b.1
  }

  lemma GroupOrderLawful(byDie: bool)
    ensures Lawful(GroupOrder(byDie))
  {
    var rank := (k: Keyed) => [k.0.pkg, if byDie then k.0.die else 0, k.0.node, k.1];
    forall a, b ensures SameSign(GroupOrder(byDie)(a, b), LexCmp(rank(a), rank(b))) {
      LexOfFour(rank(a), rank(b));
    }
    RankedIsLawful(GroupOrder(byDie), rank);
  }

  /** One of the groups, with the given number. */
  ghost predicate IsNumbered(groups: seq<CacheGroup>, g: CacheGroup, i: nat) {
    exists j :: 0 <= j < |groups| && g == groups[j].(id := i)
  }

  /** Sorts groups and numbers them in that order. */
  method SortAndNumber(groups: seq<CacheGroup>, byDie: bool) returns (sorted: seq<CacheGroup>)
    requires forall i :: 0 <= i < |groups| ==> groups[i].cpus != {}
    ensures |sorted| == |groups|
    ensures forall i :: 0 <= i < |sorted| ==> sorted[i].id == i && IsNumbered(groups, sorted[i], i)
    ensures DisjointGroups(groups) ==> DisjointGroups(sorted)
    ensures forall c :: InSome(groups, c) <==> InSome(sorted, c)
    ensures forall i, j :: 0 <= i < j < |sorted| ==> InOrder(byDie, sorted[i], sorted[j])
  {
    var keyed: seq<Keyed> := [];
    for k := 0 to |groups|
      invariant |keyed| == k && forall i :: 0 <= i < k ==> keyed[i] == KeyOf(groups[i])
    {
      var first := FindMin(groups[k].cpus);
      keyed := keyed + [(groups[k], first)];
    }
    GroupOrderLawful(byDie);
    var order := Sort(keyed, GroupOrder(byDie));
    sorted := seq(|order|, i requires 0 <= i < |order| => order[i].0.(id := i));
    hide Ordered, InSome, InOrder, GroupOrder, Lawful, DisjointGroups;
    SortedGroups(groups, keyed, order, sorted);
    SortedHaveSame(groups, keyed, order, sorted);
    SortedInOrder(byDie, groups, keyed, order, sorted);
  }

  lemma SortedInOrder(byDie: bool, groups: seq<CacheGroup>, keyed: seq<Keyed>, order: seq<Keyed>, sorted: seq<CacheGroup>)
    requires forall i :: 0 <= i < |groups| ==> groups[i].cpus != {}
    requires |keyed| == |groups| && forall i :: 0 <= i < |keyed| ==> keyed[i] == KeyOf(groups[i])
    requires multiset(order) == multiset(keyed) && Ordered(order, GroupOrder(byDie))
    requires |sorted| == |order| && forall i :: 0 <= i < |sorted| ==> sorted[i] == order[i].0.(id := i)
    ensures forall i, j :: 0 <= i < j < |sorted| ==> InOrder(byDie, sorted[i], sorted[j])
  {
    forall i | 0 <= i < |order| ensures order[i].0.cpus != {} && order[i].1 == MinOf(order[i].0.cpus) {
      assert order[i] in multiset(keyed);
      var k :| 0 <= k < |keyed| && keyed[k] == order[i];
    }
    forall i, j | 0 <= i < j < |sorted| ensures InOrder(byDie, sorted[i], sorted[j]) {
      assert GroupOrder(byDie)(order[i], order[j]) <= 0;
    }
  }

  ghost function KeyOf(g: CacheGroup): Keyed
    requires g.cpus != {}
  {
    (g, MinOf(g.cpus))
  }

  /** The groups are in the order groups are sorted by. */
  ghost predicate InOrder(byDie: bool, a: CacheGroup, b: CacheGroup) {
    a.cpus != {} && b.cpus != {} && GroupOrder(byDie)(KeyOf(a), KeyOf(b)) <= 0
  }

  ghost predicate DisjointGroups(groups: seq<CacheGroup>) {
    forall i, j :: 0 <= i < j < |groups| ==> groups[i].cpus !! groups[j].cpus
  }

  lemma SortedGroups(groups: seq<CacheGroup>, keyed: seq<Keyed>, order: seq<Keyed>, sorted: seq<CacheGroup>)
    requires forall i :: 0 <= i < |groups| ==> groups[i].cpus != {}
    requires |keyed| == |groups| && forall i :: 0 <= i < |keyed| ==> keyed[i] == KeyOf(groups[i])
    requires multiset(order) == multiset(keyed)
    requires |sorted| == |order| && forall i :: 0 <= i < |sorted| ==> sorted[i] == order[i].0.(id := i)
    ensures |sorted| == |groups|
    ensures forall i :: 0 <= i < |sorted| ==> IsNumbered(groups, sorted[i], i)
    ensures DisjointGroups(groups) ==> DisjointGroups(sorted)
  {
    assert |order| == |multiset(order)| == |keyed|;
    forall i | 0 <= i < |sorted| ensures IsNumbered(groups, sorted[i], i) {
      assert order[i] in multiset(keyed);
      var j :| 0 <= j < |keyed| && keyed[j] == order[i];
    }
    if DisjointGroups(groups) {
      forall i, j | 0 <= i < j < |keyed| ensures keyed[i] != keyed[j] {
        var x := Pick(groups[i].cpus);
        assert groups[i].cpus !! groups[j].cpus;
      }
      PermutationKeepsDistinct(keyed, order);
      forall i, j | 0 <= i < j < |sorted| ensures sorted[i].cpus !! sorted[j].cpus {
        assert order[i] in multiset(keyed) && order[j] in multiset(keyed);
        var k :| 0 <= k < |keyed| && keyed[k] == order[i];
        var l :| 0 <= l < |keyed| && keyed[l] == order[j];
        assert k != l;
        assert groups[if k < l then k else l].cpus !! groups[if k < l then l else k].cpus;
      }
    }
  }

  lemma SortedHaveSame(groups: seq<CacheGroup>, keyed: seq<Keyed>, order: seq<Keyed>, sorted: seq<CacheGroup>)
    requires |keyed| == |groups| && forall i :: 0 <= i < |keyed| ==> keyed[i].0 == groups[i]
    requires multiset(order) == multiset(keyed)
    requires |sorted| == |order| && forall i :: 0 <= i < |sorted| ==> sorted[i] == order[i].0.(id := i)
    ensures forall c :: InSome(groups, c) <==> InSome(sorted, c)
  {
    forall c ensures InSome(groups, c) <==> InSome(sorted, c) {
      if InSome(groups, c) {
        var i :| 0 <= i < |groups| && c in groups[i].cpus;
        assert keyed[i] in multiset(order);
        var j :| 0 <= j < |order| && order[j] == keyed[i];
        assert c in sorted[j].cpus;
      }
      if InSome(sorted, c) {
        var j :| 0 <= j < |sorted| && c in sorted[j].cpus;
        assert order[j] in multiset(keyed);
        var i :| 0 <= i < |keyed| && keyed[i] == order[j];
        assert c in groups[i].cpus;
      }
    }
  }

  datatype Check = Keep | Resort | Drop

  /** Some CPU of the group is in another package or NUMA node. */
  ghost predicate Misplaced(hw: Hardware, g: CacheGroup) {
    exists c :: c in g.cpus && c in hw.cpus && (hw.cpus[c].pkg != g.pkg || hw.cpus[c].node != g.node)
  }

  /** Some CPU of the group is on another die. */
  ghost predicate CrossesDies(hw: Hardware, g: CacheGroup) {
    exists c :: c in g.cpus && c in hw.cpus && hw.cpus[c].die != g.die
  }

  /** Some CPUs that share a cache are in different NUMA nodes. */
  ghost predicate SpansNodes(hw: Hardware, g: CacheGroup) {
    exists c, d :: c in g.cpus && d in g.cpus && c in hw.cpus && d in hw.cpus && hw.cpus[c].node != hw.cpus[d].node
  }

  /** Some CPUs that share a cache are on different dies. */
  ghost predicate SpansDies(hw: Hardware, g: CacheGroup) {
    exists c, d :: c in g.cpus && d in g.cpus && c in hw.cpus && d in hw.cpus && hw.cpus[c].die != hw.cpus[d].die
  }

  /** A group is placed where one of its CPUs is, so a CPU that is misplaced shares a cache across nodes. */
  lemma MisplacedIffSpans(hw: Hardware, g: CacheGroup)
    requires hw.Sane() && IsGroup(hw, g)
    ensures Misplaced(hw, g) <==> SpansNodes(hw, g)
    ensures CrossesDies(hw, g) <==> SpansDies(hw, g)
  {
    var c :| c in OnlineCpus(hw.cpus) && IsGroupOf(hw, g, c);
    CacheHasItself(hw, c);
    assert c in g.cpus;
    forall d | d in g.cpus ensures d in hw.cpus && hw.cpus[d].pkg == g.pkg {
      GroupMember(hw, g, d);
    }
  }

  /** Looks for CPUs that are not where their group is, in any order. */
  method CheckGroup(hw: Hardware, g: CacheGroup) returns (check: Check)
    requires g.cpus <= hw.cpus.Keys
    ensures check == Keep ==> !Misplaced(hw, g) && !CrossesDies(hw, g)
    ensures check == Resort ==> CrossesDies(hw, g)
    ensures check == Drop ==> Misplaced(hw, g)
  {
    var todo := g.cpus;
    while todo != {}
      invariant todo <= g.cpus
      invariant forall c :: c in g.cpus - todo ==>
                  hw.cpus[c].pkg == g.pkg && hw.cpus[c].die == g.die && hw.cpus[c].node == g.node
      decreases todo
    {
      ghost var w := Pick(todo);
      var c :| c in todo;
      if hw.cpus[c].pkg != g.pkg {
        assert Misplaced(hw, g);
        return Drop;
      }
      if hw.cpus[c].die != g.die {
        assert CrossesDies(hw, g);
        return Resort;
      }
      if hw.cpus[c].node != g.node {
        assert Misplaced(hw, g);
        return Drop;
      }
      todo := todo - {c};
    }
    assert forall c :: c in g.cpus ==> c in g.cpus - todo;
    check := Keep;
  }

  /** Groups are dropped only if one is misplaced, and always so unless one crosses dies. */
  method CheckGroups(hw: Hardware, groups: seq<CacheGroup>) returns (check: Check)
    requires forall i :: 0 <= i < |groups| ==> groups[i].cpus <= hw.cpus.Keys
    ensures check == Keep ==> forall i :: 0 <= i < |groups| ==> !Misplaced(hw, groups[i]) && !CrossesDies(hw, groups[i])
    ensures check == Resort ==> exists i :: 0 <= i < |groups| && CrossesDies(hw, groups[i])
    ensures check == Drop ==> exists i :: 0 <= i < |groups| && Misplaced(hw, groups[i])
    ensures (forall i :: 0 <= i < |groups| ==> !CrossesDies(hw, groups[i])) ==>
              (check == Drop <==> exists i :: 0 <= i < |groups| && Misplaced(hw, groups[i]))
  {
    hide Misplaced, CrossesDies;
    check := Keep;
    for k := 0 to |groups|
      invariant check != Drop
      invariant check == Resort ==> exists i :: 0 <= i < k && CrossesDies(hw, groups[i])
      invariant check == Keep ==> forall i :: 0 <= i < k ==> !Misplaced(hw, groups[i]) && !CrossesDies(hw, groups[i])
    {
      var one := CheckGroup(hw, groups[k]);
      match one {
        case Drop => return Drop;
        case Resort => check := Resort;
        case Keep =>
      }
    }
  }

  /**
   Cache groups of all packages that have several, sorted and numbered. `found` are the groups before
   they are checked; they are dropped only if a cache spans NUMA nodes, and then always unless one
   spans dies as well.
   */
  method DiscoverCacheGroups(hw: Hardware, packages: map<int, Package>, online: CpuSet)
    returns (groups: seq<CacheGroup>, ghost found: seq<CacheGroup>)
    requires hw.Sane() && online == OnlineCpus(hw.cpus) && Describe(packages, hw.cpus)
    ensures DisjointGroups(groups)
    ensures forall i :: 0 <= i < |groups| ==> groups[i].id == i && {} != groups[i].cpus <= online
    ensures AreGroupsOf(hw, packages, groups, found)
  {
    hide HaveAll, Misplaced, SpansNodes, SpansDies, CrossesDies, InSome, InOrder, Describe, IsGroup, AreGroups, Hardware.Sane;
    var collected := CollectCacheGroups(hw, packages, online);
    GroupsAreOnline(hw, collected);
    groups := SortAndNumber(collected, true);
    found := groups;
    HaveStill(hw, packages, collected, groups);
    StillGroups(hw, collected, found);
    forall i | 0 <= i < |found|
      ensures Misplaced(hw, found[i]) <==> SpansNodes(hw, found[i])
      ensures CrossesDies(hw, found[i]) <==> SpansDies(hw, found[i])
    {
      MisplacedIffSpans(hw, found[i]);
    }
    var check := CheckGroups(hw, groups);
    match check {
      case Drop => groups := [];
      case Resort => groups := SortAndNumber(groups, false);
      case Keep =>
    }
  }

  /** The groups found are all there are, and are kept in some order unless a cache spans NUMA nodes. */
  ghost predicate AreGroupsOf(hw: Hardware, packages: map<int, Package>, groups: seq<CacheGroup>, found: seq<CacheGroup>) {
    && AllGroups(hw, found) && HaveAll(hw, packages, found)
    && (SameGroups(found, groups) || (groups == [] && exists i :: 0 <= i < |found| && SpansNodes(hw, found[i])))
    && ((forall i :: 0 <= i < |found| ==> !SpansDies(hw, found[i])) ==>
          (exists i :: 0 <= i < |found| && SpansNodes(hw, found[i])) ==> groups == [])
  }

  /** The same groups, up to order and number. */
  ghost predicate SameGroups(a: seq<CacheGroup>, b: seq<CacheGroup>) {
    && |a| == |b| && (forall i :: 0 <= i < |b| ==> IsNumbered(a, b[i], i))
    && (forall c :: InSome(a, c) <==> InSome(b, c))
  }

  ghost predicate AllGroups(hw: Hardware, groups: seq<CacheGroup>) {
    forall i :: 0 <= i < |groups| ==> IsGroup(hw, groups[i])
  }

  /** Numbering groups keeps them groups. */
  lemma StillGroups(hw: Hardware, before: seq<CacheGroup>, after: seq<CacheGroup>)
    requires AreGroups(hw, before)
    requires forall i :: 0 <= i < |after| ==> IsNumbered(before, after[i], i)
    ensures AllGroups(hw, after)
  {
    forall i | 0 <= i < |after| ensures IsGroup(hw, after[i]) {
      var j :| 0 <= j < |before| && after[i] == before[j].(id := i);
      var c :| c in OnlineCpus(hw.cpus) && IsGroupOf(hw, before[j], c);
      assert IsGroupOf(hw, after[i], c);
    }
  }

  /** Groups hold all CPUs whose cache groups them, in packages that have two such groups. */
  ghost predicate HaveAll(hw: Hardware, packages: map<int, Package>, groups: seq<CacheGroup>) {
    forall p, c :: p in packages && IsGrouped(hw, packages[p], c) && TwoGroups(hw, packages[p]) ==> InSome(groups, c)
  }

  lemma HaveStill(hw: Hardware, packages: map<int, Package>, before: seq<CacheGroup>, after: seq<CacheGroup>)
    requires HaveAll(hw, packages, before) && forall c :: InSome(before, c) <==> InSome(after, c)
    ensures HaveAll(hw, packages, after)
  {
  }

  lemma GroupsAreOnline(hw: Hardware, groups: seq<CacheGroup>)
    requires AreGroups(hw, groups)
    ensures DisjointGroups(groups) && forall i :: 0 <= i < |groups| ==> {} != groups[i].cpus <= OnlineCpus(hw.cpus)
  {
    forall i | 0 <= i < |groups| ensures {} != groups[i].cpus <= OnlineCpus(hw.cpus) {
      assert IsGroup(hw, groups[i]);
    }
  }

  method CollectCacheGroups(hw: Hardware, packages: map<int, Package>, online: CpuSet) returns (groups: seq<CacheGroup>)
    requires hw.Sane() && online == OnlineCpus(hw.cpus) && Describe(packages, hw.cpus)
    ensures AreGroups(hw, groups)
    ensures HaveAll(hw, packages, groups)
  {
    hide Hardware.Sane, Describe, Describes, IsGrouped, TwoGroups, InSome, AreGroups;
    var pkgs := SortedList(packages.Keys);
    groups := [];
    NoGroups(hw);
    for k := 0 to |pkgs|
      invariant AreGroups(hw, groups) && forall i :: 0 <= i < |groups| ==> groups[i].pkg in pkgs[..k]
      invariant HaveAllOf(hw, packages, pkgs[..k], groups)
    {
      var p := pkgs[k];
      assert p in pkgs && p !in pkgs[..k] && pkgs[..k+1] == pkgs[..k] + [p];
      PackageIsOnline(hw, packages, p);
      var more := GroupsOfPackage(hw, packages[p], p, online);
      GroupsOfPackagesApart(hw, groups, more, p);
      HaveMore(hw, packages, pkgs[..k], p, groups, more);
      if |more| > 1 {
        groups := groups + more;
      }
    }
    assert pkgs[..|pkgs|] == pkgs;
  }

  /** Groups hold all CPUs they should of the given packages. */
  ghost predicate HaveAllOf(hw: Hardware, packages: map<int, Package>, pkgs: seq<int>, groups: seq<CacheGroup>) {
    forall p, c :: p in pkgs && p in packages && IsGrouped(hw, packages[p], c) && TwoGroups(hw, packages[p]) ==> InSome(groups, c)
  }

  lemma NoGroups(hw: Hardware)
    ensures AreGroups(hw, [])
  {
  }

  lemma PackageIsOnline(hw: Hardware, packages: map<int, Package>, p: int)
    requires Describe(packages, hw.cpus) && p in packages
    ensures forall c :: c in packages[p].cpus ==> c in OnlineCpus(hw.cpus) && hw.cpus[c].pkg == p
  {
    assert Describes(PackageAt(packages, p), hw.cpus, p);
  }

  lemma HaveMore(hw: Hardware, packages: map<int, Package>, done: seq<int>, p: int, groups: seq<CacheGroup>, more: seq<CacheGroup>)
    requires hw.Sane() && p in packages && HaveAllOf(hw, packages, done, groups) && AreGroups(hw, more)
    requires forall c :: IsGrouped(hw, packages[p], c) ==> InSome(more, c)
    ensures HaveAllOf(hw, packages, done + [p], if |more| > 1 then groups + more else groups)
  {
    hide Hardware.Sane, IsGrouped, TwoGroups, InSome, AreGroups;
    if TwoGroups(hw, packages[p]) {
      TwoGroupsAreListed(hw, packages[p], more);
    }
    forall c ensures InSome(groups, c) || InSome(more, c) <==> InSome(groups + more, c) {
      InSomeMore(groups, more, c);
    }
    forall q | q in done + [p] ensures q in done || q == p {
    }
  }

  /** CPUs of the package are grouped by at least two different caches. */
  ghost predicate TwoGroups(hw: Hardware, pkg: Package) {
    exists c, d :: IsGrouped(hw, pkg, c) && IsGrouped(hw, pkg, d) && d !in hw.CacheOf(c)
  }

  lemma TwoGroupsAreListed(hw: Hardware, pkg: Package, groups: seq<CacheGroup>)
    requires hw.Sane() && AreGroups(hw, groups) && TwoGroups(hw, pkg)
    requires forall c :: IsGrouped(hw, pkg, c) ==> InSome(groups, c)
    ensures |groups| > 1
  {
    var c, d :| IsGrouped(hw, pkg, c) && IsGrouped(hw, pkg, d) && d !in hw.CacheOf(c);
    var i :| 0 <= i < |groups| && c in groups[i].cpus;
    var j :| 0 <= j < |groups| && d in groups[j].cpus;
    GroupMember(hw, groups[i], c);
    assert i != j;
  }

  // ---- the whole topology

  /**
   The topology of sane hardware is well formed, and the CPUs that can be allocated are exactly
   the online ones.
   */
  method BuildTopology(hw: Hardware, kindCount: nat)
    returns (topo: Topo, ghost packages: map<int, Package>, ghost found: seq<CacheGroup>)
    requires hw.Sane()
    ensures topo.WellFormed() && topo.Usable() == OnlineCpus(hw.cpus)
    ensures Mirrors(hw, topo) && topo.kindCount == kindCount && topo.prios == hw.prios
    ensures Describe(packages, hw.cpus) && forall p :: p in packages ==> LogicallyPartitioned(packages[p], hw.cpus, p)
    ensures topo.pkg == map p | p in packages :: packages[p].cpus
    ensures AreClustersOf(hw, packages, topo.clusters) && AreGroupsOf(hw, packages, topo.cacheGroups, found)
  {
    var discovered := DiscoverPackages(hw.cpus);
    packages := discovered;
    var online := set c | c in hw.cpus && hw.cpus[c].online;
    var cpuIds := SortedList(hw.cpus.Keys);
    var packageIds := SortedList(discovered.Keys);
    var clusters := DiscoverClusters(hw, discovered);
    var groups;
    groups, found := DiscoverCacheGroups(hw, discovered, online);
    topo := Topo(cpuIds, hw.cpus.Keys - online, packageIds,
                 map p | p in discovered :: discovered[p].cpus,
                 map c | c in hw.cpus :: hw.cpus[c].threads,
                 map c | c in hw.cpus :: hw.cpus[c].pkg,
                 kindCount, hw.prios, clusters, groups);
    UsableIsOnline(hw, topo);
    PackagesArePartition(hw, packages, topo);
    CoresArePartition(hw, topo);
    forall i | 0 <= i < |clusters| ensures clusters[i].cpus - topo.offline <= topo.Usable() {
      ClusterWithin(hw.cpus, packages, clusters[i]);
    }
    forall i, j | 0 <= i < j < |clusters| ensures clusters[i].cpus !! clusters[j].cpus {
      ClustersShareNothing(hw.cpus, packages, clusters[i], clusters[j]);
    }
  }

  ghost predicate Mirrors(hw: Hardware, topo: Topo) {
    && topo.offline == hw.cpus.Keys - OnlineCpus(hw.cpus)
    && (forall c :: c in topo.cpuIds <==> c in hw.cpus)
    && topo.core == (map c | c in hw.cpus :: hw.cpus[c].threads)
    && topo.packageOf == (map c | c in hw.cpus :: hw.cpus[c].pkg)
  }

  lemma UsableIsOnline(hw: Hardware, topo: Topo)
    requires Mirrors(hw, topo)
    ensures topo.Usable() == OnlineCpus(hw.cpus)
  {
    forall c ensures c in topo.Usable() <==> c in OnlineCpus(hw.cpus) {
    }
  }

  lemma CoresArePartition(hw: Hardware, topo: Topo)
    requires hw.Sane() && Mirrors(hw, topo)
    ensures topo.CoresPartition()
  {
    UsableIsOnline(hw, topo);
    forall c, d | c in topo.Usable() && d in topo.OnlineCore(c)
      ensures d in topo.Usable() && topo.CoreSet(d) == topo.CoreSet(c)
    {
      assert d in hw.cpus[c].threads;
    }
  }

  lemma PackagesArePartition(hw: Hardware, packages: map<int, Package>, topo: Topo)
    requires Mirrors(hw, topo) && Describe(packages, hw.cpus)
    requires forall p :: p in topo.packageIds <==> p in packages
    requires topo.pkg == map p | p in packages :: packages[p].cpus
    ensures topo.PackagesPartition()
  {
    forall p | p in packages ensures topo.PkgSet(p) == InPackage(hw.cpus, p) {
      assert Describes(PackageAt(packages, p), hw.cpus, p);
    }
    UsableIsOnline(hw, topo);
    forall c | c in topo.Usable() ensures topo.PackageOf(c) in topo.packageIds && c in topo.PkgSet(topo.PackageOf(c)) {
      var p := hw.cpus[c].pkg;
      assert Describes(PackageAt(packages, p), hw.cpus, p);
      assert c in InPackage(hw.cpus, p);
    }
  }
}

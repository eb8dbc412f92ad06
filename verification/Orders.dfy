/**
 The comparison functions the CPU allocator hands to sort, and the rank vectors behind them. Each
 comparison agrees in sign with the lexicographic order of the ranks, so each is a total preorder.
 */
module Orders {
  import opened CpuSets
  import opened Sorting
  import opened Ranking
  import opened Priorities
  import opened Topology

  // ---- packages and cores: by CPU priority, then by id

  function SetOrder(prios: PriorityMap, a: CpuSet, b: CpuSet, idA: int, idB: int, prefer: CpuPriority): int {
    var res := CmpCpuSet(prios, a, b, prefer, -1);
    if res != 0 then -res else idA - idB
  }

  ghost function SetRank(prios: PriorityMap, s: CpuSet, id: int, prefer: CpuPriority): seq<int> {
    CpuSetRank(prios, s, prefer, -1) + [id]
  }

  lemma SetOrderIsRankOrder(prios: PriorityMap, a: CpuSet, b: CpuSet, idA: int, idB: int, prefer: CpuPriority)
    ensures SameSign(SetOrder(prios, a, b, idA, idB, prefer),
                     LexCmp(SetRank(prios, a, idA, prefer), SetRank(prios, b, idB, prefer)))
  {
    CmpCountsIsRankOrder(CountsOf(prios, a), CountsOf(prios, b), prefer, -1);
    LexConcat(CpuSetRank(prios, a, prefer, -1), CpuSetRank(prios, b, prefer, -1), [idA], [idB]);
    LexCons(idA, idB, [], []);
    assert [idA] + [] == [idA] && [idB] + [] == [idB];
  }

  lemma SetOrderTies(prios: PriorityMap, a: CpuSet, b: CpuSet, idA: int, idB: int, prefer: CpuPriority)
    requires idA == idB ==> a == b
    ensures SetOrder(prios, a, b, idA, idB, prefer) == 0 <==> idA == idB
  {
    CmpCountsIsRankOrder(CountsOf(prios, a), CountsOf(prios, b), prefer, -1);
    LexTotal(CpuSetRank(prios, a, prefer, -1), CpuSetRank(prios, b, prefer, -1));
  }

  function PackageCmp(topo: Topo, prefer: CpuPriority): (int, int) -> int {
    (i, j) => SetOrder(topo.prios, topo.PkgSet(i), topo.PkgSet(j), i, j, prefer)
  }

  function CoreCmp(topo: Topo, prefer: CpuPriority): (int, int) -> int {
    (i, j) => SetOrder(topo.prios, topo.CoreSet(i), topo.CoreSet(j), i, j, prefer)
  }

  /** Packages are strictly and totally ordered for sorting. */
  lemma PackageCmpLawful(topo: Topo, prefer: CpuPriority)
    ensures Lawful(PackageCmp(topo, prefer))
    ensures forall i, j :: PackageCmp(topo, prefer)(i, j) == 0 <==> i == j
  {
    var cmp := PackageCmp(topo, prefer);
    var rank := (i: int) => SetRank(topo.prios, topo.PkgSet(i), i, prefer);
    forall i, j ensures SameSign(cmp(i, j), LexCmp(rank(i), rank(j))) {
      SetOrderIsRankOrder(topo.prios, topo.PkgSet(i), topo.PkgSet(j), i, j, prefer);
    }
    RankedIsLawful(cmp, rank);
    forall i, j ensures cmp(i, j) == 0 <==> i == j {
      SetOrderTies(topo.prios, topo.PkgSet(i), topo.PkgSet(j), i, j, prefer);
    }
  }

  /** Cores, named by a CPU each, are strictly and totally ordered for sorting. */
  lemma CoreCmpLawful(topo: Topo, prefer: CpuPriority)
    ensures Lawful(CoreCmp(topo, prefer))
    ensures forall i, j :: CoreCmp(topo, prefer)(i, j) == 0 <==> i == j
  {
    var cmp := CoreCmp(topo, prefer);
    var rank := (i: int) => SetRank(topo.prios, topo.CoreSet(i), i, prefer);
    forall i, j ensures SameSign(cmp(i, j), LexCmp(rank(i), rank(j))) {
      SetOrderIsRankOrder(topo.prios, topo.CoreSet(i), topo.CoreSet(j), i, j, prefer);
    }
    RankedIsLawful(cmp, rank);
    forall i, j ensures cmp(i, j) == 0 <==> i == j {
      SetOrderTies(topo.prios, topo.CoreSet(i), topo.CoreSet(j), i, j, prefer);
    }
  }

  // ---- threads

  /** The allocator state that decides the order of threads. */
  datatype ThreadContext = ThreadContext(topo: Topo, from: CpuSet, result: CpuSet, prefer: CpuPriority, cnt: int) {
    function Colocated(pkg: int): int { |topo.PkgSet(pkg) * result| }
    function PkgFree(pkg: int): CpuSet { topo.PkgSet(pkg) * from }
    function CoreFree(id: int): int { |topo.CoreSet(id) * from| }

    function Order(i: int, j: int): int {
      var iPkg, jPkg := topo.PackageOf(i), topo.PackageOf(j);
      if Colocated(iPkg) != Colocated(jPkg) then Colocated(jPkg) - Colocated(iPkg)
      else
        var res := CmpCpuSet(topo.prios, PkgFree(iPkg), PkgFree(jPkg), prefer, cnt);
        if res != 0 then -res
        else if iPkg != jPkg then iPkg - jPkg
        else
          var cpu := CmpCpuSet(topo.prios, {i}, {j}, prefer, 0);
          if cpu != 0 then -cpu
          else if |PkgFree(iPkg)| != |PkgFree(jPkg)| then |PkgFree(iPkg)| - |PkgFree(jPkg)|
          else if CoreFree(i) != CoreFree(j) then CoreFree(i) - CoreFree(j)
          else i - j
    }

    /** What a package contributes to the rank of its threads. */
    ghost function PkgRank(pkg: int): (r: seq<int>)
      ensures |r| == 6
    {
      [-Colocated(pkg)] + CpuSetRank(topo.prios, PkgFree(pkg), prefer, cnt) + [pkg]
    }

    ghost function CpuRank(i: int): (r: seq<int>)
      ensures |r| == 7
    {
      CpuSetRank(topo.prios, {i}, prefer, 0) + [|PkgFree(topo.PackageOf(i))|, CoreFree(i), i]
    }

    ghost function Rank(i: int): seq<int> { PkgRank(topo.PackageOf(i)) + CpuRank(i) }

    lemma PkgRankOrder(p: int, q: int)
      ensures LexCmp(PkgRank(p), PkgRank(q)) ==
              if Colocated(p) != Colocated(q) then Colocated(q) - Colocated(p)
              else if LexCmp(CpuSetRank(topo.prios, PkgFree(p), prefer, cnt),
                             CpuSetRank(topo.prios, PkgFree(q), prefer, cnt)) != 0
              then LexCmp(CpuSetRank(topo.prios, PkgFree(p), prefer, cnt),
                          CpuSetRank(topo.prios, PkgFree(q), prefer, cnt))
              else p - q
    {
      var a, b := CpuSetRank(topo.prios, PkgFree(p), prefer, cnt), CpuSetRank(topo.prios, PkgFree(q), prefer, cnt);
      LexCons(-Colocated(p), -Colocated(q), a + [p], b + [q]);
      assert PkgRank(p) == [-Colocated(p)] + (a + [p]) && PkgRank(q) == [-Colocated(q)] + (b + [q]);
      LexConcat(a, b, [p], [q]);
      LexCons(p, q, [], []);
      assert [p] + [] == [p] && [q] + [] == [q];
    }

    lemma CpuRankOrder(i: int, j: int)
      ensures LexCmp(CpuRank(i), CpuRank(j)) ==
              First(LexCmp(CpuSetRank(topo.prios, {i}, prefer, 0), CpuSetRank(topo.prios, {j}, prefer, 0)),
              First(|PkgFree(topo.PackageOf(i))| - |PkgFree(topo.PackageOf(j))|,
              First(CoreFree(i) - CoreFree(j), i - j)))
    {
      var pi, pj := |PkgFree(topo.PackageOf(i))|, |PkgFree(topo.PackageOf(j))|;
      LexConcat(CpuSetRank(topo.prios, {i}, prefer, 0), CpuSetRank(topo.prios, {j}, prefer, 0),
                [pi, CoreFree(i), i], [pj, CoreFree(j), j]);
      LexCons(pi, pj, [CoreFree(i), i], [CoreFree(j), j]);
      LexCons(CoreFree(i), CoreFree(j), [i], [j]);
      LexCons(i, j, [], []);
      assert [pi, CoreFree(i), i] == [pi] + [CoreFree(i), i] && [pj, CoreFree(j), j] == [pj] + [CoreFree(j), j];
      assert [CoreFree(i), i] == [CoreFree(i)] + [i] && [CoreFree(j), j] == [CoreFree(j)] + [j];
      assert [i] + [] == [i] && [j] + [] == [j];
    }

    lemma OrderIsRankOrder(i: int, j: int)
      ensures SameSign(Order(i, j), LexCmp(Rank(i), Rank(j)))
    {
      hide CmpCounts, PriorityRank;
      var iPkg, jPkg := topo.PackageOf(i), topo.PackageOf(j);
      LexConcat(PkgRank(iPkg), PkgRank(jPkg), CpuRank(i), CpuRank(j));
      PkgRankOrder(iPkg, jPkg);
      CpuRankOrder(i, j);
      CmpCountsIsRankOrder(CountsOf(topo.prios, PkgFree(iPkg)), CountsOf(topo.prios, PkgFree(jPkg)), prefer, cnt);
      CmpCountsIsRankOrder(CountsOf(topo.prios, {i}), CountsOf(topo.prios, {j}), prefer, 0);
    }

    function Cmp(): (int, int) -> int {
      (i, j) => Order(i, j)
    }

    /** Threads are strictly and totally ordered for sorting. */
    lemma CmpLawful()
      ensures Lawful(Cmp())
      ensures forall i, j :: Order(i, j) == 0 <==> i == j
    {
      var rank := (i: int) => Rank(i);
      forall i, j ensures SameSign(Cmp()(i, j), LexCmp(rank(i), rank(j))) {
        OrderIsRankOrder(i, j);
      }
      RankedIsLawful(Cmp(), rank);
      forall i, j ensures Order(i, j) == 0 <==> i == j {
        OrderIsRankOrder(i, j);
        LexTotal(Rank(i), Rank(j));
        assert Rank(i)[12] == i && Rank(j)[12] == j;
      }
    }

    /** A thread between two threads of one package belongs to that package too. */
    lemma PackagesAreContiguous(i: int, j: int, k: int)
      requires Order(i, j) <= 0 && Order(j, k) <= 0
      requires topo.PackageOf(i) == topo.PackageOf(k)
      ensures topo.PackageOf(j) == topo.PackageOf(i)
    {
      hide CmpCounts, Order, LexCmp, PriorityRank, CountsOf, CpuRank;
      var p, q := topo.PackageOf(i), topo.PackageOf(j);
      OrderIsRankOrder(i, j);
      OrderIsRankOrder(j, k);
      LexBetween(PkgRank(p), PkgRank(q), CpuRank(i), CpuRank(j), CpuRank(k));
      assert PkgRank(p)[5] == p && PkgRank(q)[5] == q;
    }

    /** In sorted threads, the threads of a package are next to each other. */
    lemma ContiguousWhenSorted(threads: seq<int>, i: nat, j: nat, k: nat)
      requires Ordered(threads, Cmp()) && i < j < k < |threads|
      requires topo.PackageOf(threads[i]) == topo.PackageOf(threads[k])
      ensures topo.PackageOf(threads[j]) == topo.PackageOf(threads[i])
    {
      assert Cmp()(threads[i], threads[j]) <= 0 && Cmp()(threads[j], threads[k]) <= 0;
      PackagesAreContiguous(threads[i], threads[j], threads[k]);
    }
  }

  function Get<K(==)>(m: map<K, int>, k: K): int {
    if k in m then m[k] else 0
  }

  function Add<K(==)>(m: map<K, int>, k: K, v: int): map<K, int> {
    m[k := Get(m, k) + v]
  }

  function SizeIn<K(==)>(m: map<K, CpuSet>, k: K): int {
    if k in m then |m[k]| else 0
  }

  // ---- clusters: the tightest cluster, die or package that alone satisfies the request

  datatype ClusterContext = ClusterContext(
    pkgCnt: map<int, int>,        // usable CPUs per package
    dieCnt: map<(int, int), int>, // usable CPUs per package and die
    cpus: map<Cluster, CpuSet>,   // usable CPUs per cluster
    cnt: int)
  {
    function ById(a: Cluster, b: Cluster): int {
      if a.pkg != b.pkg then a.pkg - b.pkg
      else if a.die != b.die then a.die - b.die
      else a.cluster - b.cluster
    }

    /** One level, cluster, die or package, of the comparison; .0 tells if it decides. */
    function LevelOrder(cpusA: int, cpusB: int, tie: int): (r: (bool, int)) {
      if cpusA >= cnt && cpusB < cnt then (true, -1)
      else if cpusA < cnt && cpusB >= cnt then (true, 1)
      else if cpusA >= cnt && cpusB >= cnt then (true, if cpusA != cpusB then cpusA - cpusB else tie)
      else (false, 0)
    }

    function Order(a: Cluster, b: Cluster): int {
      var (byCluster, r) := LevelOrder(SizeIn(cpus, a), SizeIn(cpus, b), ById(a, b));
      if byCluster then r else OrderByDie(a, b)
    }

    function OrderByDie(a: Cluster, b: Cluster): int {
      var (byDie, r) := LevelOrder(Get(dieCnt, (a.pkg, a.die)), Get(dieCnt, (b.pkg, b.die)), ById(a, b));
      if byDie then r else OrderByPkg(a, b)
    }

    function OrderByPkg(a: Cluster, b: Cluster): int {
      var (byPkg, r) := LevelOrder(Get(pkgCnt, a.pkg), Get(pkgCnt, b.pkg), ById(a, b));
      if byPkg then r else 0
    }

    ghost function Rank(c: Cluster): (r: seq<int>)
      ensures |r| == 6
    {
      if SizeIn(cpus, c) >= cnt then [0, SizeIn(cpus, c), c.pkg, c.die, c.cluster, 0]
      else RankByDie(c)
    }

    ghost function RankByDie(c: Cluster): (r: seq<int>)
      ensures |r| == 6 && r[0] > 0
    {
      if Get(dieCnt, (c.pkg, c.die)) >= cnt then [1, Get(dieCnt, (c.pkg, c.die)), c.pkg, c.die, c.cluster, 0]
      else RankByPkg(c)
    }

    ghost function RankByPkg(c: Cluster): (r: seq<int>)
      ensures |r| == 6 && r[0] > 1
    {
      if Get(pkgCnt, c.pkg) >= cnt then [2, Get(pkgCnt, c.pkg), c.pkg, c.die, c.cluster, 0]
      else [3, 0, 0, 0, 0, 0]
    }

    function Cmp(): (Cluster, Cluster) -> int {
      (a, b) => Order(a, b)
    }

    lemma OrderByPkgIsRankOrder(a: Cluster, b: Cluster)
      ensures SameSign(OrderByPkg(a, b), LexCmp(RankByPkg(a), RankByPkg(b)))
    {
      LexOfSix(RankByPkg(a), RankByPkg(b));
    }

    lemma OrderByDieIsRankOrder(a: Cluster, b: Cluster)
      ensures SameSign(OrderByDie(a, b), LexCmp(RankByDie(a), RankByDie(b)))
    {
      LexOfSix(RankByDie(a), RankByDie(b));
      OrderByPkgIsRankOrder(a, b);
    }

    /** Clusters are ordered by the tightest level that alone satisfies the request. */
    lemma OrderIsRankOrder(a: Cluster, b: Cluster)
      ensures SameSign(Order(a, b), LexCmp(Rank(a), Rank(b)))
    {
      LexOfSix(Rank(a), Rank(b));
      OrderByDieIsRankOrder(a, b);
    }

    lemma CmpLawful()
      ensures Lawful(Cmp())
    {
      var rank := (c: Cluster) => Rank(c);
      forall a, b ensures SameSign(Cmp()(a, b), LexCmp(rank(a), rank(b))) {
        OrderIsRankOrder(a, b);
      }
      RankedIsLawful(Cmp(), rank);
    }
  }

  // ---- cache groups

  datatype GroupContext = GroupContext(
    preferPkg: map<int, int>,        // CPUs in idle groups per package
    preferDie: map<(int, int), int>, // CPUs in idle groups per package and die
    usablePkg: map<int, int>,        // free CPUs in used groups per package
    usableDie: map<(int, int), int>, // free CPUs in used groups per package and die
    cpus: map<CacheGroup, CpuSet>,   // free CPUs per group
    full: int,                       // requested CPUs that fill whole groups
    part: int)                       // the remaining requested CPUs
  {
    function DieFull(g: CacheGroup): int { Get(preferDie, (g.pkg, g.die)) }
    function DiePart(g: CacheGroup): int { Get(usableDie, (g.pkg, g.die)) }
    function PkgFull(g: CacheGroup): int { Get(preferPkg, g.pkg) }
    function PkgPart(g: CacheGroup): int { Get(usablePkg, g.pkg) }

    function ById(a: CacheGroup, b: CacheGroup): int {
      if a.pkg != b.pkg then a.pkg - b.pkg
      else if a.die != b.die then a.die - b.die
      else a.id - b.id
    }

    /** One level, die or package, of the comparison of idle groups; 0 in .0 if it does not decide. */
    function FitOrder(fullA: int, partA: int, fullB: int, partB: int, tie: int): (r: (bool, int)) {
      if fullA >= full && fullB < full && partA >= part then (true, -1)
      else if fullA < full && fullB >= full && partB >= part then (true, 1)
      else if fullA >= full && fullB >= full && partA >= part && partB < part then (true, -1)
      else if fullA >= full && fullB >= full && partA < part && partB >= part then (true, 1)
      else if fullA >= full && fullB >= full && partA >= part && partB >= part then
        (true, if fullA != fullB then fullA - fullB else if partA != partB then partA - partB else tie)
      else (false, 0)
    }

    predicate Fits(fullCpus: int, partCpus: int) {
      fullCpus >= full && partCpus >= part
    }

    /** A level decides exactly if it satisfies the request for one of the groups. */
    lemma FitOrderCases(fullA: int, partA: int, fullB: int, partB: int, tie: int)
      ensures FitOrder(fullA, partA, fullB, partB, tie) ==
              if Fits(fullA, partA) && Fits(fullB, partB)
              then (true, First(fullA - fullB, First(partA - partB, tie)))
              else if Fits(fullA, partA) then (true, -1)
              else if Fits(fullB, partB) then (true, 1)
              else (false, 0)
    {
    }

    function IdleOrder(a: CacheGroup, b: CacheGroup): int {
      var (byDie, r) := FitOrder(DieFull(a), DiePart(a), DieFull(b), DiePart(b), ById(a, b));
      if byDie then r
      else
        var (byPkg, r) := FitOrder(PkgFull(a), PkgPart(a), PkgFull(b), PkgPart(b), ById(a, b));
        if byPkg then r else a.id - b.id
    }

    ghost function IdleRank(g: CacheGroup): (r: seq<int>)
      ensures |r| == 6
    {
      if Fits(DieFull(g), DiePart(g)) then [0, DieFull(g), DiePart(g), g.pkg, g.die, g.id]
      else if Fits(PkgFull(g), PkgPart(g)) then [1, PkgFull(g), PkgPart(g), g.pkg, g.die, g.id]
      else [2, 0, 0, 0, 0, g.id]
    }

    function IdleCmp(): (CacheGroup, CacheGroup) -> int {
      (a, b) => IdleOrder(a, b)
    }

    /** Idle groups are strictly and totally ordered by their ids within equal fits. */
    lemma IdleOrderIsRankOrder(a: CacheGroup, b: CacheGroup)
      ensures SameSign(IdleOrder(a, b), LexCmp(IdleRank(a), IdleRank(b)))
      ensures a.id != b.id ==> IdleOrder(a, b) != 0
    {
      LexOfSix(IdleRank(a), IdleRank(b));
      FitOrderCases(DieFull(a), DiePart(a), DieFull(b), DiePart(b), ById(a, b));
      FitOrderCases(PkgFull(a), PkgPart(a), PkgFull(b), PkgPart(b), ById(a, b));
    }

    lemma IdleCmpLawful()
      ensures Lawful(IdleCmp())
      ensures forall a: CacheGroup, b: CacheGroup :: a.id != b.id ==> IdleCmp()(a, b) != 0
    {
      var rank := (g: CacheGroup) => IdleRank(g);
      forall a, b ensures SameSign(IdleCmp()(a, b), LexCmp(rank(a), rank(b))) {
        IdleOrderIsRankOrder(a, b);
      }
      RankedIsLawful(IdleCmp(), rank);
    }

    /**
     The comparison of used groups. With idle groups in use, `idle` is the best of them, and the
     source compares package and die ids with the idle CPU counts of its package and die.
     */
    function UsedOrder(idle: seq<CacheGroup>, a: CacheGroup, b: CacheGroup): int {
      var sizeA, sizeB := SizeIn(cpus, a), SizeIn(cpus, b);
      if full > 0 && idle != [] then
        var dieIdle, pkgIdle := DieFull(idle[0]), PkgFull(idle[0]);
        if a.pkg == pkgIdle && b.pkg != pkgIdle then -1
        else if a.pkg != pkgIdle && b.pkg == pkgIdle then 1
        else if a.pkg == pkgIdle && b.pkg == pkgIdle then
          if a.die == dieIdle && b.die != dieIdle then -1
          else if a.die != dieIdle && b.die == dieIdle then 1
          else if a.die == dieIdle && b.die == dieIdle then
            if sizeA != sizeB then sizeB - sizeA else a.id - b.id
          else 0
        else 0
      else
        var total := full + part;
        if DiePart(a) >= total && DiePart(b) < total then -1
        else if DiePart(a) < total && DiePart(b) >= total then 1
        else if DiePart(a) >= total && DiePart(b) >= total then
          if DiePart(a) != DiePart(b) then DiePart(a) - DiePart(b)
          else if sizeA != sizeB then sizeB - sizeA
          else ById(a, b)
        else 0
    }

    ghost function UsedRank(idle: seq<CacheGroup>, g: CacheGroup): (r: seq<int>)
      ensures |r| == 6
    {
      var size := SizeIn(cpus, g);
      if full > 0 && idle != [] then
        if g.pkg == PkgFull(idle[0]) && g.die == DieFull(idle[0]) then [0, -size, g.id, 0, 0, 0]
        else if g.pkg == PkgFull(idle[0]) then [1, 0, 0, 0, 0, 0]
        else [2, 0, 0, 0, 0, 0]
      else if DiePart(g) >= full + part then [0, DiePart(g), -size, g.pkg, g.die, g.id]
      else [1, 0, 0, 0, 0, 0]
    }

    function UsedCmp(idle: seq<CacheGroup>): (CacheGroup, CacheGroup) -> int {
      (a, b) => UsedOrder(idle, a, b)
    }

    lemma UsedOrderIsRankOrder(idle: seq<CacheGroup>, a: CacheGroup, b: CacheGroup)
      ensures SameSign(UsedOrder(idle, a, b), LexCmp(UsedRank(idle, a), UsedRank(idle, b)))
    {
      LexOfSix(UsedRank(idle, a), UsedRank(idle, b));
    }

    /** Used groups are ordered consistently, whichever idle group leads. */
    lemma UsedCmpLawful(idle: seq<CacheGroup>)
      ensures Lawful(UsedCmp(idle))
    {
      var rank := (g: CacheGroup) => UsedRank(idle, g);
      forall a, b ensures SameSign(UsedCmp(idle)(a, b), LexCmp(rank(a), rank(b))) {
        UsedOrderIsRankOrder(idle, a, b);
      }
      RankedIsLawful(UsedCmp(idle), rank);
    }

    /**
     The intention is that used groups of the best idle group's package come before all others. The
     comparison does that for none of them, or for all if the idle CPU count of the package happens
     to equal the package id it is compared with.
     */
    lemma IdlePackageLeadsIff(idle: seq<CacheGroup>, a: CacheGroup, b: CacheGroup)
      requires full > 0 && idle != [] && a.pkg == idle[0].pkg != b.pkg
      ensures UsedOrder(idle, a, b) < 0 <==> PkgFull(idle[0]) == idle[0].pkg
    {
    }
  }
}

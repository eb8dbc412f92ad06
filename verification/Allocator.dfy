/**
 The topology-aware CPU allocator: greedy stages over packages, clusters, cache groups, cores and
 threads, and the AllocateCpus and ReleaseCpus entry points (pkg/cpuallocator/allocator.go).
 */
module Allocator {
  import opened CpuSets
  import opened Sorting
  import opened Priorities
  import opened Topology
  import opened Orders
  import opened Stages

  function Filter(ids: seq<int>, f: int -> bool): seq<int> {
    if ids == [] then []
    else Filter(ids[..|ids|-1], f) + if f(ids[|ids|-1]) then [ids[|ids|-1]] else []
  }

  lemma {:induction false} FilterMembers(ids: seq<int>, f: int -> bool)
    ensures forall x :: x in Filter(ids, f) <==> x in ids && f(x)
    ensures Distinct(ids) ==> Distinct(Filter(ids, f))
  {
    if ids != [] {
      var init, last := ids[..|ids|-1], ids[|ids|-1];
      FilterMembers(init, f);
      assert ids == init + [last];
    }
  }

  /** Picks ids by a filter, keeping their order. */
  method PickIds(ids: seq<int>, f: int -> bool) returns (r: seq<int>)
    ensures r == Filter(ids, f)
  {
    r := [];
    for i := 0 to |ids|
      invariant r == Filter(ids[..i], f)
    {
      assert ids[..i+1][..i] == ids[..i];
      if f(ids[i]) {
        r := r + [ids[i]];
      }
    }
    assert ids[..|ids|] == ids;
  }

  class Helper {
    const topo: Topo
    const flags: Flags
    const prefer: CpuPriority
    var from: CpuSet
    var result: CpuSet
    var cnt: int

    constructor (topo: Topo, flags: Flags, prefer: CpuPriority, from: CpuSet, cnt: int)
      ensures this.topo == topo && this.flags == flags && this.prefer == prefer
      ensures S() == State(from, {}, cnt)
    {
      this.topo, this.flags, this.prefer := topo, flags, prefer;
      this.from, this.result, this.cnt := from, {}, cnt;
    }

    ghost function S(): State
      reads this
    {
      State(from, result, cnt)
    }

    function V(): View
      reads this
    {
      View(topo, prefer, from, result, cnt)
    }

    /** Takes, one unit after another, each unit that still fits into the request. */
    method TakeFitting(units: seq<CpuSet>)
      requires PairwiseDisjoint(units)
      requires forall k :: 0 <= k < |units| ==> units[k] <= from && units[k] <= topo.Usable()
      modifies this`from, this`result, this`cnt
      ensures Took(topo, old(S()), S())
      ensures forall k :: 0 <= k < |units| ==> Greedy(units[k], old(S()), S())
      ensures TookFrom(units, old(S()), S()) && InTurn(units, |units|, old(S()), S())
    {
      hide View.Fitting, InTurn, Took, TookFrom, Greedy;
      ghost var v := V();
      v.FittingNothing(units, S());
      var i := 0;
      while i < |units|
        invariant 0 <= i <= |units| && v.Fitting(units, i, old(S()), S())
      {
        var cset := units[i];
        if cnt >= |cset| {
          v.FittingTake(units, i, old(S()), S());
          result := result + cset;
          from := from - cset;
          cnt := cnt - |cset|;
          i := i + 1;
          if cnt == 0 {
            break;
          }
        } else {
          v.FittingSkip(units, i, old(S()), S());
          i := i + 1;
        }
      }
      v.FittingDone(units, i, old(S()), S());
    }

    /** The packages whose preferred online CPUs are all free, best first. */
    method IdlePackages() returns (pkgs: seq<int>)
      requires Distinct(topo.packageIds)
      ensures Distinct(pkgs) && Ordered(pkgs, PackageCmp(topo, prefer))
      ensures forall p :: p in pkgs <==> p in topo.packageIds && PackageCpus(topo, prefer, p) <= from
    {
      var free := from;
      var isIdle := (id: int) => PackageCpus(topo, prefer, id) * free == PackageCpus(topo, prefer, id);
      var picked := PickIds(topo.packageIds, isIdle);
      FilterMembers(topo.packageIds, isIdle);
      PackageCmpLawful(topo, prefer);
      pkgs := Sort(picked, PackageCmp(topo, prefer));
      PermutationKeepsDistinct(picked, pkgs);
      forall p ensures p in pkgs <==> p in topo.packageIds && PackageCpus(topo, prefer, p) <= from {
        assert PackageCpus(topo, prefer, p) * free == PackageCpus(topo, prefer, p) <==> PackageCpus(topo, prefer, p) <= free;
      }
    }

    method TakeIdlePackages()
      requires Distinct(topo.packageIds) && topo.PackagesPartition()
      modifies this`from, this`result, this`cnt
      ensures Took(topo, old(S()), S())
      ensures forall p :: p in topo.packageIds ==> Greedy(PackageCpus(topo, prefer, p), old(S()), S())
      ensures PackageStage(topo, prefer, old(S()), S())
    {
      hide InTurn, PackageStage;
      var pkgs := IdlePackages();
      var units := seq(|pkgs|, i requires 0 <= i < |pkgs| => PackageCpus(topo, prefer, pkgs[i]));
      forall k | 0 <= k < |units| ensures units[k] <= from && units[k] <= topo.Usable() {
        V().PackageCpusUsable(pkgs[k]);
      }
      forall i, j | 0 <= i < j < |units| ensures units[i] !! units[j] {
        V().PackageCpusApart(pkgs[i], pkgs[j]);
      }
      TakeFitting(units);
      forall p | p in topo.packageIds ensures Greedy(PackageCpus(topo, prefer, p), old(S()), S()) {
        V().PackagesGreedy(pkgs, units, old(S()), S(), p);
      }
      V().PackagesInTurn(pkgs, units, old(S()), S());
    }

    // ---- the whole allocation

    /** The stages that look for whole units bigger than a core. */
    method TakeGroups() returns (ghost trace: Trace)
      requires topo.WellFormed()
      modifies this`from, this`result, this`cnt
      ensures Took(topo, old(S()), S()) && StagedGroups(topo, flags, prefer, old(S()), trace, S())
      decreases if flags.cacheGroups then 2 else 0, 0
    {
      hide Took, PackageStage, ClusterStage, GroupStage;
      TookNothing(topo, S());
      if flags.idlePackages {
        TakeIdlePackages();
      }
      trace := Trace(S(), S(), S(), S());
      if topo.kindCount > 1 && cnt > 0 && flags.idleClusters {
        ghost var s := S();
        var order, ctx, n := TakeIdleClusters();
        TookTwice(topo, old(S()), s, S());
      }
      trace := trace.(clusters := S(), groups := S());
      if cnt > 0 && flags.cacheGroups {
        ghost var s := S();
        TookNothing(topo, s);
        var idle, used, groupCtx := TakeCacheGroups();
        TookTwice(topo, old(S()), s, S());
      }
      trace := trace.(groups := S());
    }

    /** The stages for single cores and threads. */
    method TakeRest() returns (ghost cores: State)
      requires topo.WellFormed()
      modifies this`from, this`result, this`cnt
      ensures Took(topo, old(S()), S()) && StagedRest(topo, flags, prefer, old(S()), cores, S())
      ensures cnt <= 0 || from * topo.Usable() == {}
    {
      hide Took, CoreStage, ThreadStage, Greedy;
      TookNothing(topo, S());
      if cnt > 0 && flags.idleCores {
        TakeIdleCores();
      }
      cores := S();
      if cnt > 0 {
        ghost var s := S();
        TakeIdleThreads();
        TookTwice(topo, old(S()), s, S());
      }
    }

    /** The CPUs allocated, or none at all if the request could not be met. */
    method Allocate() returns (r: CpuSet, ghost trace: Trace)
      requires topo.WellFormed()
      modifies this`from, this`result, this`cnt
      ensures r == if cnt == 0 then result else {}
      ensures Took(topo, old(S()), S())
      ensures old(cnt) >= 0 ==> (cnt == 0 <==> old(cnt) <= |old(from) * topo.Usable()|)
      ensures cnt > 0 ==> from == old(from) - topo.Usable()
      ensures old(cnt) < 0 ==> S() == old(S())
      ensures Staged(topo, flags, prefer, old(S()), trace, S())
      decreases if flags.cacheGroups then 2 else 0, 1
    {
      hide Took, StagedRest, PackageStage, ClusterStage, GroupStage;
      trace := TakeGroups();
      ghost var s := S();
      ghost var cores := TakeRest();
      trace := trace.(groups := s, cores := cores);
      TookTwice(topo, old(S()), s, S());
      V().TookAllOrEnough(old(S()), S());
      r := if cnt == 0 then result else {};
    }

    // ---- idle cores

    /** Each idle core by its first online thread, best first. */
    method IdleCores() returns (cores: seq<int>)
      requires Distinct(topo.cpuIds)
      ensures Ordered(cores, CoreCmp(topo, prefer)) && V().AreIdleCores(cores, from)
    {
      var free := from;
      var isIdle := (id: int) =>
        var cset := topo.OnlineCore(id);
        cset != {} && cset * free == cset && id in cset && forall x | x in cset :: id <= x;
      var picked := PickIds(topo.cpuIds, isIdle);
      FilterMembers(topo.cpuIds, isIdle);
      CoreCmpLawful(topo, prefer);
      cores := Sort(picked, CoreCmp(topo, prefer));
      PermutationKeepsDistinct(picked, cores);
      forall c ensures isIdle(c) <==> topo.OnlineCore(c) <= from && IsMin(topo.OnlineCore(c), c) {
        var cset := topo.OnlineCore(c);
        assert cset * free == cset <==> cset <= free;
      }
    }

    method TakeIdleCores()
      requires Distinct(topo.cpuIds) && topo.CoresPartition()
      modifies this`from, this`result, this`cnt
      ensures Took(topo, old(S()), S())
      ensures forall c :: c in topo.Usable() ==> Greedy(topo.OnlineCore(c), old(S()), S())
      ensures CoreStage(topo, prefer, old(S()), S())
    {
      hide Greedy, Unsplit, PairwiseDisjoint, TookFrom, View.AreIdleCores, InTurn, CoreStage, Ordered;
      var cores := IdleCores();
      var units := seq(|cores|, i requires 0 <= i < |cores| => topo.OnlineCore(cores[i]));
      ghost var v := V();
      v.CoreUnits(cores, units);
      TakeFitting(units);
      forall c | c in topo.Usable() ensures Greedy(topo.OnlineCore(c), old(S()), S()) {
        v.CoresGreedy(cores, units, old(S()), S(), c);
      }
      v.CoresInTurn(cores, units, old(S()), S());
    }

    // ---- idle threads

    function Context(): ThreadContext
      reads this
    {
      ThreadContext(topo, from, result, prefer, cnt)
    }

    /** All free online threads, best first. */
    method IdleThreads() returns (threads: seq<int>)
      requires Distinct(topo.cpuIds)
      ensures Ordered(threads, Context().Cmp()) && V().AreFreeThreads(threads, S())
    {
      var free := from;
      var isFree := (id: int) => id in free - topo.offline;
      var picked := PickIds(topo.cpuIds, isFree);
      FilterMembers(topo.cpuIds, isFree);
      Context().CmpLawful();
      threads := Sort(picked, Context().Cmp());
      PermutationKeepsDistinct(picked, threads);
    }

    /** Takes threads in order until the request is met, and tells how many. */
    method TakeThreads(threads: seq<int>) returns (n: nat)
      requires cnt > 0 && V().AreFreeThreads(threads, S())
      modifies this`from, this`result, this`cnt
      ensures n <= |threads| && IsPrefixTaken(threads, n, old(S()), S())
      ensures Took(topo, old(S()), S())
      ensures cnt == 0 || n == |threads|
    {
      hide Took, Elements;
      TookNothing(topo, S());
      n := 0;
      NonePicked(threads, from);
      while n < |threads|
        invariant 0 <= n <= |threads|
        invariant cnt > 0
        invariant Took(topo, old(S()), S())
        invariant IsPrefixTaken(threads, n, old(S()), S())
      {
        var cset := {threads[n]};
        V().FreeThread(threads, n, old(S()));
        V().ThreadStep(threads, n, old(S()), S());
        result := result + cset;
        from := from - cset;
        cnt := cnt - |cset|;
        n := n + 1;
        if cnt == 0 {
          break;
        }
      }
    }

    method TakeIdleThreads()
      requires Distinct(topo.cpuIds) && topo.PackagesPartition() && cnt > 0
      modifies this`from, this`result, this`cnt
      ensures Took(topo, old(S()), S())
      ensures cnt == 0 || from * topo.Usable() == {}
      ensures forall p, q :: p in topo.packageIds && q in topo.packageIds ==>
                V().PackageSplit(p, old(S()), S()) && V().PackageSplit(q, old(S()), S()) ==> p == q
      ensures ThreadStage(topo, prefer, old(S()), S())
    {
      hide ThreadStage, Took, ThreadContext.Cmp, Ordered, IsPrefixTaken, Topo.PackagesPartition;
      ghost var ctx := Context();
      var threads := IdleThreads();
      var n := TakeThreads(threads);
      if n == |threads| {
        V().NothingLeft(threads, old(S()), S());
      }
      PrefixIsThreadStage(ctx, threads, n, old(S()), S());
      forall p, q | p in topo.packageIds && q in topo.packageIds &&
                    V().PackageSplit(p, old(S()), S()) && V().PackageSplit(q, old(S()), S())
        ensures p == q
      {
        V().OnePackageSplit(ctx, threads, n, old(S()), S(), p, q);
      }
    }

    // ---- idle clusters

    /** Collects the fully idle clusters of the right kind and counts their CPUs. */
    method CollectClusters() returns (clusters: seq<Cluster>, ctx: ClusterContext)
      requires Distinct(topo.clusters)
      ensures Distinct(clusters)
      ensures forall c :: c in clusters <==> c in topo.clusters && V().PicksCluster(c)
      ensures forall c :: c in clusters ==> c in ctx.cpus && ctx.cpus[c] == V().ClusterCpus(c)
      ensures ctx.cnt == cnt && V().CountsClusters(ctx, |topo.clusters|)
    {
      clusters, ctx := [], ClusterContext(map[], map[], map[], cnt);
      for i := 0 to |topo.clusters|
        invariant Distinct(clusters)
        invariant forall c :: c in clusters <==> c in topo.clusters[..i] && V().PicksCluster(c)
        invariant forall c :: c in clusters ==> c in ctx.cpus && ctx.cpus[c] == V().ClusterCpus(c)
        invariant ctx.cnt == cnt && V().CountsClusters(ctx, i)
      {
        var c := topo.clusters[i];
        var cset := V().ClusterCpus(c);
        ghost var before := ctx;
        assert topo.clusters[..i+1] == topo.clusters[..i] + [c] && c !in topo.clusters[..i];
        if V().KindFits(c.kind) && cset * from != {} && cset * from == cset {
          clusters := clusters + [c];
          ctx := ctx.(cpus := ctx.cpus[c := cset],
                      dieCnt := Add(ctx.dieCnt, (c.pkg, c.die), |cset|),
                      pkgCnt := Add(ctx.pkgCnt, c.pkg, |cset|));
        }
        V().CountsClustersStep(before, ctx, i);
      }
      assert topo.clusters[..|topo.clusters|] == topo.clusters;
    }

    method SortClusters() returns (clusters: seq<Cluster>, ctx: ClusterContext)
      requires topo.ClustersDisjoint()
      ensures V().ClustersSorted(clusters, ctx)
    {
      V().DistinctClusters();
      var picked;
      picked, ctx := CollectClusters();
      ctx.CmpLawful();
      clusters := Sort(picked, ctx.Cmp());
      PermutationKeepsDistinct(picked, clusters);
    }

    /** Takes units in order up to the first one that does not fit any more. */
    method TakeUntilMisfit(units: seq<CpuSet>) returns (ghost n: nat)
      requires PairwiseDisjoint(units)
      requires forall k :: 0 <= k < |units| ==> units[k] <= from && units[k] <= topo.Usable()
      modifies this`from, this`result, this`cnt
      ensures Took(topo, old(S()), S())
      ensures forall k :: 0 <= k < |units| ==> Unsplit(units[k], old(S()), S())
      ensures TookFrom(units, old(S()), S())
      ensures IsPrefixGone(units, n, from) && (n < |units| ==> cnt == 0 || cnt < |units[n]|)
    {
      hide View.Taking, IsPrefixGone, Took, TookFrom, Unsplit, PairwiseDisjoint;
      ghost var v := V();
      v.TakingNothing(units, S());
      NoneGone(units, from);
      var i := 0;
      while i < |units|
        invariant 0 <= i <= |units| && v.Taking(units, i, old(S()), S()) && IsPrefixGone(units, i, from)
      {
        var cset := units[i];
        if cnt < |cset| {
          break;
        }
        v.TakingOne(units, i, old(S()), S());
        PrefixGoneNext(units, i, from);
        result := result + cset;
        from := from - cset;
        cnt := cnt - |cset|;
        i := i + 1;
        if cnt == 0 {
          break;
        }
      }
      v.TakingDone(units, i, old(S()), S());
      n := i;
    }

    /** Takes the first unit, which is just what is wanted. */
    method TakeFirst(units: seq<CpuSet>)
      requires PairwiseDisjoint(units) && units != [] && units[0] <= from && units[0] <= topo.Usable() && |units[0]| == cnt
      modifies this`from, this`result, this`cnt
      ensures Took(topo, old(S()), S()) && TookFrom(units, old(S()), S())
      ensures forall k :: 0 <= k < |units| ==> Unsplit(units[k], old(S()), S())
      ensures cnt == 0 && from == old(from) - units[0]
    {
      TookNothing(topo, S());
      TookMore(topo, S(), S(), units[0]);
      result := result + units[0];
      from := from - units[0];
      cnt := cnt - |units[0]|;
    }

    method TakeIdleClusters() returns (ghost order: seq<Cluster>, ghost ctx: ClusterContext, ghost n: nat)
      requires topo.ClustersDisjoint() && cnt > 0
      modifies this`from, this`result, this`cnt
      ensures Took(topo, old(S()), S())
      ensures forall c :: c in topo.clusters ==> Unsplit(V().ClusterCpus(c), old(S()), S())
      ensures if |topo.clusters| <= 1 then S() == old(S()) else ClustersTaken(topo, prefer, order, ctx, n, old(S()), S())
      ensures ClusterStage(topo, prefer, old(S()), S())
    {
      hide Took, Unsplit, View.CountsClusters, Ordered;
      order, ctx, n := [], ClusterContext(map[], map[], map[], cnt), 0;
      TookNothing(topo, S());
      NothingIsSplit(S());
      if |topo.clusters| <= 1 {
        return;
      }
      var clusters, sorted := SortClusters();
      order, ctx := clusters, sorted;
      if |clusters| < 1 {
        return;
      }
      var units := V().ClusterUnitsOf(clusters);
      V().ClusterUnits(clusters, units);
      assert clusters[0] in clusters;
      var cset := sorted.cpus[clusters[0]];
      if |cset| == cnt {
        TakeFirst(units);
        n := 1;
      } else if |cset| > cnt {
        return;
      } else {
        n := TakeUntilMisfit(units);
      }
      forall c | c in topo.clusters ensures Unsplit(V().ClusterCpus(c), old(S()), S()) {
        V().ClustersUnsplit(clusters, units, old(S()), S(), c);
      }
    }

    // ---- cache groups

    /** Collects idle and usable groups and counts their CPUs per package and die. */
    method CollectGroups() returns (idle: seq<CacheGroup>, used: seq<CacheGroup>, ctx: GroupContext)
      requires Distinct(topo.cacheGroups) && |topo.cacheGroups| > 0 && topo.cacheGroups[0].cpus != {}
      ensures V().PicksGroups(idle, ctx.cpus, Prefer, |topo.cacheGroups|)
      ensures V().PicksGroups(used, ctx.cpus, Usable, |topo.cacheGroups|)
      ensures V().CountsGroups(ctx.preferPkg, ctx.preferDie, Prefer, |topo.cacheGroups|)
      ensures V().CountsGroups(ctx.usablePkg, ctx.usableDie, Usable, |topo.cacheGroups|)
      ensures ctx.full + ctx.part == cnt && ctx.part == cnt % |topo.cacheGroups[0].cpus|
    {
      var part := cnt % |topo.cacheGroups[0].cpus|;
      idle, used, ctx := [], [], GroupContext(map[], map[], map[], map[], map[], cnt - part, part);
      V().NoGroupsYet();
      hide View.PicksGroups, View.CountsGroups, View.GroupTotal, Distinct;
      for i := 0 to |topo.cacheGroups|
        invariant V().PicksGroups(idle, ctx.cpus, Prefer, i)
        invariant V().PicksGroups(used, ctx.cpus, Usable, i)
        invariant V().CountsGroups(ctx.preferPkg, ctx.preferDie, Prefer, i)
        invariant V().CountsGroups(ctx.usablePkg, ctx.usableDie, Usable, i)
        invariant ctx.full + ctx.part == cnt && ctx.part == part
      {
        var g := topo.cacheGroups[i];
        var cset := V().GroupCpus(g);
        var die := (g.pkg, g.die);
        V().PicksStep(idle, ctx.cpus, Prefer, i);
        V().PicksStep(used, ctx.cpus, Usable, i);
        V().CountsStep(ctx.preferPkg, ctx.preferDie, Prefer, i);
        V().CountsStep(ctx.usablePkg, ctx.usableDie, Usable, i);
        match V().VerdictOf(g) {
          case Prefer =>
            idle := idle + [g];
            ctx := ctx.(cpus := ctx.cpus[g := cset],
                        preferDie := Add(ctx.preferDie, die, |cset|),
                        preferPkg := Add(ctx.preferPkg, g.pkg, |cset|));
          case Usable =>
            used := used + [g];
            ctx := ctx.(cpus := ctx.cpus[g := cset],
                        usableDie := Add(ctx.usableDie, die, |cset|),
                        usablePkg := Add(ctx.usablePkg, g.pkg, |cset|));
          case Ignore =>
        }
      }
    }

    method SortGroups() returns (idle: seq<CacheGroup>, used: seq<CacheGroup>, ctx: GroupContext)
      requires topo.CacheGroupsDisjoint() && |topo.cacheGroups| > 0
      ensures V().PicksGroups(idle, ctx.cpus, Prefer, |topo.cacheGroups|)
      ensures V().PicksGroups(used, ctx.cpus, Usable, |topo.cacheGroups|)
      ensures V().CountsGroups(ctx.preferPkg, ctx.preferDie, Prefer, |topo.cacheGroups|)
      ensures V().CountsGroups(ctx.usablePkg, ctx.usableDie, Usable, |topo.cacheGroups|)
      ensures ctx.full + ctx.part == cnt && ctx.part == cnt % |topo.cacheGroups[0].cpus|
      ensures Ordered(idle, ctx.IdleCmp()) && Ordered(used, ctx.UsedCmp(idle))
    {
      V().DistinctGroups();
      var idle0, used0;
      idle0, used0, ctx := CollectGroups();
      ctx.IdleCmpLawful();
      idle := Sort(idle0, ctx.IdleCmp());
      PermutationKeepsDistinct(idle0, idle);
      ctx.UsedCmpLawful(idle);
      used := Sort(used0, ctx.UsedCmp(idle));
      PermutationKeepsDistinct(used0, used);
    }

    /** Takes part of a group on the side: idle cores first, then single threads. */
    method SplitGroup(cset: CpuSet, n: int) returns (use: CpuSet)
      requires topo.WellFormed() && flags.cacheGroups
      requires cset <= topo.Usable() && 0 < n <= |cset|
      ensures use <= cset && |use| == n && SplitBy(topo, prefer, cset, n, use)
      decreases 1, 0
    {
      hide CoreStage, ThreadStage;
      var ta := new Helper(topo, ALLOC_IDLE_CORES, prefer, cset, n);
      assert cset * topo.Usable() == cset;
      ghost var trace;
      use, trace := ta.Allocate();
      assert use == cset - ta.from;
      assert ta.S() == State(cset - use, use, 0);
      assert SplitVia(topo, prefer, State(cset, {}, n), trace.cores, State(cset - use, use, 0));
    }

    /**
     Takes idle groups in order, splitting the last one if it is too big. All of the first n groups
     that are needed lose CPUs, and no others do.
     */
    method TakeIdleGroups(units: seq<CpuSet>, start: State) returns (s: State, ghost n: nat)
      requires topo.WellFormed() && flags.cacheGroups && start.cnt > 0
      requires PairwiseDisjoint(units)
      requires forall k :: 0 <= k < |units| ==> {} != units[k] <= start.from && units[k] <= topo.Usable()
      ensures IsEnough(units, n, start.cnt) && V().TookUpTo(units, n, start, s)
      ensures LeadingTaken(topo, prefer, units, n, start, s)
      ensures s.cnt == if Total(units, |units|) >= start.cnt then 0 else start.cnt - Total(units, |units|)
      decreases 1, 1
    {
      hide Took, TookFrom, SplitBy, UnitGone;
      s, n := start, 0;
      TookNothing(topo, s);
      TookFromAny(units[..0], s);
      for i := 0 to |units|
        invariant n == i && V().TookUpTo(units, i, start, s) && UnitsGone(topo, prefer, units, i, start, s)
      {
        if s.cnt <= 0 {
          TotalGrows(units, i, |units|);
          return;
        }
        var use := units[i];
        if s.cnt < |use| {
          use := SplitGroup(use, s.cnt);
        }
        assert |use| != 0;
        V().TookNextUnit(units, i, start, s, use);
        UnitsGoneMore(topo, prefer, units, i, start, s, use);
        s, n := s.Take(use), n + 1;
      }
    }

    /** Groups up to the first of another package, by size, and their running totals. */
    method SumUsed(used: seq<CacheGroup>, units: seq<CpuSet>, chosenPkg: int)
      returns (bySize: map<int, seq<int>>, totals: seq<int>)
      requires |units| == |used|
      ensures |totals| == Leading(used, chosenPkg)
      ensures forall i :: 0 <= i < |totals| ==> totals[i] == Total(units, i + 1)
      ensures BySize(bySize, units, |totals|)
    {
      hide BySize, Total, Leading;
      NoSizes(units);
      TotalOfNone(units);
      bySize, totals := map[], [];
      var totalCpus := 0;
      for i := 0 to |used|
        invariant |totals| == i && totalCpus == Total(units, i)
        invariant forall j :: 0 <= j < i ==> used[j].pkg == chosenPkg && totals[j] == Total(units, j + 1)
        invariant BySize(bySize, units, i)
      {
        if used[i].pkg != chosenPkg {
          break;
        }
        var size := |units[i]|;
        var same := (if size in bySize then bySize[size] else []) + [i];
        BySizeMore(bySize, units, i, same);
        TotalNext(units, i);
        bySize := bySize[size := same];
        totalCpus := totalCpus + size;
        totals := totals + [totalCpus];
      }
      LeadingIs(used, chosenPkg, |totals|);
    }

    /**
     The search for several groups of one size. The best candidate so far starts at 0 groups and a
     candidate must need fewer groups than that, so the search never finds anything.
     */
    method SameSizeGroups(bySize: map<int, seq<int>>, cnt: int) returns (size: int, take: int)
      requires cnt > 0
      ensures take == 0
    {
      size, take := 0, 0;
      var sizes := bySize.Keys;
      while sizes != {}
        invariant sizes <= bySize.Keys && take == 0
        decreases sizes
      {
        ghost var w := Pick(sizes);
        var grpSize :| grpSize in sizes;
        sizes := sizes - {grpSize};
        if grpSize > 0 && grpSize < cnt && cnt % grpSize == 0 {
          var n := cnt / grpSize;
          if n < |bySize[grpSize]| && n < take {
            size, take := grpSize, n;
          }
        }
      }
    }

    /** The number of leading groups that suffice, or all of them, and their CPUs. */
    method GroupsNeeded(totals: seq<int>, cnt: int) returns (grpCnt: nat, cpuCnt: int)
      ensures grpCnt <= |totals|
      ensures cpuCnt == if grpCnt == 0 then 0 else totals[grpCnt-1]
      ensures forall i :: 0 <= i < grpCnt - 1 ==> totals[i] < cnt
      ensures cpuCnt < cnt ==> grpCnt == |totals|
    {
      grpCnt, cpuCnt := 0, 0;
      for i := 0 to |totals|
        invariant grpCnt == i && cpuCnt == if i == 0 then 0 else totals[i-1]
        invariant forall j :: 0 <= j < i ==> totals[j] < cnt
      {
        grpCnt, cpuCnt := i + 1, totals[i];
        if cnt <= totals[i] {
          break;
        }
      }
    }

    /**
     Takes whole leading groups. By the running totals all groups but the last of them fit, so the
     last one is the only one that may be left, and it is left whole.
     */
    method TakeWholeGroups(units: seq<CpuSet>, grpCnt: nat, start: State) returns (s: State)
      requires PairwiseDisjoint(units)
      requires forall k :: 0 <= k < |units| ==> units[k] <= start.from && units[k] <= topo.Usable()
      requires 0 < grpCnt <= |units| && Total(units, grpCnt - 1) < start.cnt <= Total(units, grpCnt)
      ensures Took(topo, start, s) && TookFrom(units[..grpCnt], start, s)
      ensures s.cnt == 0 || (s.cnt < |units[grpCnt-1]| && units[grpCnt-1] <= s.from)
      ensures s.cnt == 0 || s.cnt == start.cnt - Total(units, grpCnt - 1)
      ensures UnitsGone(topo, prefer, units, if s.cnt == 0 then grpCnt else grpCnt - 1, start, s)
    {
      hide WholeTaken, Took, TookFrom, UnitsGone, Total, PairwiseDisjoint, Topo.Usable;
      s := start;
      WholeStart(topo, prefer, units, grpCnt, s);
      var i := 0;
      while i < grpCnt
        invariant 0 <= i <= grpCnt && WholeTaken(topo, prefer, units, grpCnt, i, start, s)
      {
        if s.cnt < |units[i]| {
          break;
        }
        WholeNext(topo, prefer, units, grpCnt, i, start, s);
        s := s.Take(units[i]);
        i := i + 1;
      }
      WholeEnd(topo, prefer, units, grpCnt, i, start, s);
      WholeIs(topo, prefer, units, grpCnt, i, start, s);
    }

    /** Takes the leading groups, the last one possibly in part. */
    method TakeLargest(units: seq<CpuSet>, grpCnt: nat, start: State) returns (s: State)
      requires topo.WellFormed() && flags.cacheGroups
      requires PairwiseDisjoint(units)
      requires forall k :: 0 <= k < |units| ==> units[k] <= start.from && units[k] <= topo.Usable()
      requires 0 < grpCnt <= |units| && Total(units, grpCnt - 1) < start.cnt <= Total(units, grpCnt)
      ensures Took(topo, start, s) && TookFrom(units[..grpCnt], start, s) && s.cnt == 0
      ensures LeadingTaken(topo, prefer, units, grpCnt, start, s)
      decreases 1, 1
    {
      hide UnitsGone, SplitBy, Took, TookFrom, Total, PairwiseDisjoint, Topo.WellFormed, Topo.Usable;
      s := TakeWholeGroups(units, grpCnt, start);
      if s.cnt > 0 {
        var use := SplitGroup(units[grpCnt-1], s.cnt);
        assert units[..grpCnt][grpCnt-1] == units[grpCnt-1];
        TookFromMore(units[..grpCnt], start, s, use, grpCnt - 1);
        TookMore(topo, start, s, use);
        UnitsGoneMore(topo, prefer, units, grpCnt - 1, start, s, use);
        s := s.Take(use);
      }
    }

    /** Completes the request from groups that are already in use, or gives up. */
    method TakeUsedGroups(used: seq<CacheGroup>, units: seq<CpuSet>, chosenPkg: int, start: State)
      returns (done: bool, s: State)
      requires topo.WellFormed() && flags.cacheGroups && start.cnt > 0
      requires |units| == |used| && PairwiseDisjoint(units)
      requires forall k :: 0 <= k < |units| ==> units[k] <= start.from && units[k] <= topo.Usable()
      ensures done ==> Took(topo, start, s) && TookFrom(units[..Leading(used, chosenPkg)], start, s) && s.cnt == 0
      ensures done ==> UsedTaken(topo, prefer, units, Leading(used, chosenPkg), start, s)
      ensures done <==> CanComplete(units, Leading(used, chosenPkg), start.cnt)
      decreases 1, 2, 0
    {
      hide LeadingTaken, Took, TookFrom, Total, PairwiseDisjoint, Topo.WellFormed, Topo.Usable, Leading;
      s := start;
      var bySize, totals := SumUsed(used, units, chosenPkg);
      if s.cnt in bySize {
        var k := bySize[s.cnt][0];
        assert IsFirstOfSize(units, |totals|, k, s.cnt);
        TookNothing(topo, s);
        assert units[..|totals|][k] == units[k];
        TookFromMore(units[..|totals|], start, s, units[k], k);
        TookMore(topo, start, s, units[k]);
        s := s.Take(units[k]);
        return true, s;
      }
      TotalOfNone(units);
      var size, take := SameSizeGroups(bySize, s.cnt);
      var grpCnt, cpuCnt := GroupsNeeded(totals, s.cnt);
      if cpuCnt < s.cnt {
        return false, s;
      }
      TotalGrows(units, grpCnt, |totals|);
      assert grpCnt > 1 ==> totals[grpCnt-2] == Total(units, grpCnt - 1);
      s := TakeLargest(units, grpCnt, start);
      TookFromLonger(units, grpCnt, |totals|, start, s);
      done := true;
    }

    /** Takes what is wanted from groups in their orders, if the chosen package has enough CPUs and that completes it. */
    method TakeSorted(idle: seq<CacheGroup>, used: seq<CacheGroup>, ctx: GroupContext, chosenPkg: int)
      returns (done: bool, s: State, ghost n: nat, ghost mid: State)
      requires topo.WellFormed() && flags.cacheGroups && cnt > 0 && V().GroupsSorted(idle, used, ctx)
      requires chosenPkg == ChosenPackage(idle, used) && PackageTotal(idle, used, ctx) >= cnt
      ensures done <==> V().Completes(idle, used, ctx)
      ensures done ==> Took(topo, S(), s) && s.cnt == 0 && GroupsTaken(topo, prefer, idle, used, n, mid, S(), s)
      ensures done ==> (AreOfPackage(topo, from - s.from, chosenPkg) <==> V().StaysInPackage(idle, used))
      decreases 1, 3
    {
      hide LeadingTaken, UsedTaken, ChosenPackage, PackageTotal, Ordered, View.CountsGroups, View.PicksGroups, CanComplete, Total, TookFrom, AreOfPackage, View.StaysInPackage, Took, View.Completes, View.GroupsSorted, View.GroupCpus, PairwiseDisjoint, Leading;
      V().SortedPicks(idle, used, ctx);
      V().PicksAll(idle, ctx.cpus, Prefer);
      V().PicksAll(used, ctx.cpus, Usable);
      var idleUnits, usedUnits := UnitsIn(idle, ctx.cpus), UnitsIn(used, ctx.cpus);
      V().SameUnits(idle, idleUnits);
      V().SameUnits(used, usedUnits);
      V().GroupUnits(idle, ctx.cpus, Prefer, idleUnits);
      V().GroupUnits(used, ctx.cpus, Usable, usedUnits);
      V().CompletesIff(idle, used, ctx, idleUnits, usedUnits);
      s, n := TakeIdleGroups(idleUnits, State(from, result, cnt));
      mid := s;
      V().IdleTakenWhere(idle, used, ctx, idleUnits, n, s);
      if s.cnt <= 0 {
        return true, s, n, mid;
      }
      TookFromLonger(idleUnits, n, |idleUnits|, S(), s);
      assert idleUnits[..|idleUnits|] == idleUnits;
      V().TookLess(S(), s);
      V().UsedGroupsUntouched(idle, idleUnits, used, usedUnits, ctx.cpus, s);
      done, s := CompleteFromUsed(used, usedUnits, chosenPkg, s);
    }

    /** Completes from used groups what idle ones have left; that adds CPUs of the chosen package only. */
    method CompleteFromUsed(used: seq<CacheGroup>, units: seq<CpuSet>, chosenPkg: int, t: State) returns (done: bool, s: State)
      requires topo.WellFormed() && flags.cacheGroups && t.cnt > 0 && Took(topo, S(), t)
      requires V().UnitsOf(used, units) && PairwiseDisjoint(units) && forall g :: g in used ==> g in topo.cacheGroups
      requires forall k :: 0 <= k < |units| ==> units[k] <= t.from && units[k] <= topo.Usable()
      ensures done <==> CanComplete(units, Leading(used, chosenPkg), t.cnt)
      ensures done ==> Took(topo, S(), s) && s.cnt == 0
      ensures done ==> UsedTaken(topo, prefer, units, Leading(used, chosenPkg), t, s)
      ensures done ==> (AreOfPackage(topo, from - s.from, chosenPkg) <==> AreOfPackage(topo, from - t.from, chosenPkg))
      decreases 1, 2, 1
    {
      hide CanComplete, TookFrom, AreOfPackage, Took, Leading, UsedTaken;
      done, s := TakeUsedGroups(used, units, chosenPkg, t);
      if done {
        TookTwice(topo, S(), t, s);
        V().UsedTakenWhere(used, units, chosenPkg, t, s);
        V().TookLess(S(), t);
        V().TookLess(t, s);
        V().TakenTogether(S(), t, s, chosenPkg);
      }
    }

    /**
     All or nothing: the request is met from cache groups, or nothing changes. It is met if and only if
     it can be completed. All that is taken is of the chosen package if and only if the idle groups stay in it.
     */
    method TakeCacheGroups()
      returns (ghost idle: seq<CacheGroup>, ghost used: seq<CacheGroup>, ghost ctx: GroupContext)
      requires topo.WellFormed() && flags.cacheGroups && cnt > 0
      modifies this`from, this`result, this`cnt
      ensures S() == old(S()) || (Took(topo, old(S()), S()) && cnt == 0)
      ensures |topo.cacheGroups| <= 1 || old(cnt) < 2 ==> S() == old(S())
      ensures |topo.cacheGroups| > 1 && old(cnt) >= 2 ==>
                old(V().GroupsSorted(idle, used, ctx)) && (cnt == 0 <==> old(V().Completes(idle, used, ctx)))
      ensures cnt == 0 ==>
                (AreOfPackage(topo, old(from) - from, ChosenPackage(idle, used)) <==> old(V().StaysInPackage(idle, used)))
      ensures GroupStage(topo, prefer, old(S()), S())
      decreases 1, 4
    {
      hide GroupsTaken, Ordered, View.CountsGroups, View.PicksGroups, CanComplete, Total, TookFrom, AreOfPackage, View.StaysInPackage, Took;
      idle, used, ctx := [], [], GroupContext(map[], map[], map[], map[], map[], 0, 0);
      if |topo.cacheGroups| <= 1 || cnt < 2 {
        return;
      }
      var prefer, usable, sorter := SortGroups();
      idle, used, ctx := prefer, usable, sorter;
      var chosenPkg, idleCpus, usedCpus := 0, 0, 0;
      if |prefer| > 0 {
        chosenPkg := prefer[0].pkg;
        idleCpus := Get(sorter.preferPkg, chosenPkg);
        usedCpus := Get(sorter.usablePkg, chosenPkg);
      } else if |usable| > 0 {
        chosenPkg := usable[0].pkg;
        usedCpus := Get(sorter.usablePkg, chosenPkg);
      }
      if idleCpus + usedCpus < cnt {
        assert GroupsOutcome(topo, this.prefer, idle, used, ctx, S(), S());
        return;
      }
      ghost var before := S();
      ghost var n, mid;
      var done, s;
      done, s, n, mid := TakeSorted(prefer, usable, sorter, chosenPkg);
      assert GroupsOutcome(topo, this.prefer, idle, used, ctx, before, if done then s else before);
      if done {
        from, result, cnt := s.from, s.result, s.cnt;
      }
    }
  }

  // ---- a request that leaves its package

  const GROUP_A := CacheGroup(0, 0, 0, 0, {0, 1}, PerformanceCore)
  const GROUP_B := CacheGroup(1, 0, 0, 0, {2, 3}, PerformanceCore)
  const GROUP_C := CacheGroup(2, 1, 0, 1, {4, 5}, PerformanceCore)

  /** Packages 0, with groups A and B, and 1, with group C. */
  function ThreeGroups(): Topo {
    Topo([0, 1, 2, 3, 4, 5], {}, [0, 1], map[0 := {0, 1, 2, 3}, 1 := {4, 5}],
         map c | 0 <= c < 6 :: {c}, map c: int | 0 <= c < 6 :: c / 4,
         1, PriorityMap({}, {}, {}), [], [GROUP_A, GROUP_B, GROUP_C])
  }

  lemma ThreeGroupsUsable(c: int)
    ensures c in ThreeGroups().Usable() <==> 0 <= c < 6
  {
    var ids := ThreeGroups().cpuIds;
    if 0 <= c < 6 { assert ids[c] == c; }
  }

  lemma ThreeGroupsPackages()
    ensures ThreeGroups().PackagesPartition()
  {
    var topo := ThreeGroups();
    assert topo.packageIds[0] == 0 && topo.packageIds[1] == 1;
    assert topo.PkgSet(0) !! topo.PkgSet(1);
    forall p, c | p in topo.packageIds && c in topo.PkgSet(p) ensures c in topo.cpuIds {
      assert topo.cpuIds[c] == c;
    }
    forall c | c in topo.Usable() ensures topo.PackageOf(c) in topo.packageIds && c in topo.PkgSet(topo.PackageOf(c)) {
      ThreeGroupsUsable(c);
    }
  }

  lemma ThreeGroupsGroups()
    ensures ThreeGroups().CacheGroupsDisjoint()
  {
    var topo := ThreeGroups();
    assert 0 in GROUP_A.cpus && 2 in GROUP_B.cpus && 4 in GROUP_C.cpus;
    forall i, c | 0 <= i < 3 && c in topo.cacheGroups[i].cpus ensures c in topo.Usable() {
      ThreeGroupsUsable(c);
    }
  }

  lemma ThreeGroupsWellFormed()
    ensures ThreeGroups().WellFormed()
  {
    hide Topo.PackagesPartition, Topo.CacheGroupsDisjoint, Topo.Usable;
    ThreeGroupsPackages();
    ThreeGroupsGroups();
    forall c ensures c in ThreeGroups().Usable() <==> 0 <= c < 6 {
      ThreeGroupsUsable(c);
    }
  }

  /** The allocator with CPU 3 in use and 3 CPUs wanted: groups A and C are idle, B has one free CPU. */
  ghost predicate WantsThree(v: View)
  {
    v.topo == ThreeGroups() && v.from == {0, 1, 2, 4, 5} && v.cnt == 3
  }

  lemma ThreeGroupsCpus(v: View)
    requires WantsThree(v)
    ensures v.GroupCpus(GROUP_A) == {0, 1} && v.GroupCpus(GROUP_B) == {2} && v.GroupCpus(GROUP_C) == {4, 5}
    ensures v.VerdictOf(GROUP_A) == Prefer && v.VerdictOf(GROUP_B) == Usable && v.VerdictOf(GROUP_C) == Prefer
  {
    assert 3 in GROUP_B.cpus - v.topo.offline && 3 !in v.GroupCpus(GROUP_B);
    assert 0 in v.GroupCpus(GROUP_A) && 2 in v.GroupCpus(GROUP_B) && 4 in v.GroupCpus(GROUP_C);
    assert v.GroupCpus(GROUP_A) == GROUP_A.cpus - v.topo.offline;
    assert v.GroupCpus(GROUP_C) == GROUP_C.cpus - v.topo.offline;
  }

  lemma ThreeGroupsTotals(v: View, p: int)
    requires WantsThree(v)
    ensures forall d, whole :: (whole || d == 0) ==>
              v.GroupTotal(3, Prefer, p, d, whole) == if p == 0 || p == 1 then 2 else 0
    ensures forall d, whole :: (whole || d == 0) ==> v.GroupTotal(3, Usable, p, d, whole) == if p == 0 then 1 else 0
  {
    ThreeGroupsCpus(v);
    var groups := v.topo.cacheGroups;
    assert groups[0] == GROUP_A && groups[1] == GROUP_B && groups[2] == GROUP_C;
    forall d, whole, verdict | whole || d == 0
      ensures v.GroupTotal(3, verdict, p, d, whole) ==
              (if verdict == Prefer && p == 0 then 2 else 0) + (if verdict == Usable && p == 0 then 1 else 0) +
              (if verdict == Prefer && p == 1 then 2 else 0)
    {
      assert v.GroupTotal(0, verdict, p, d, whole) == 0;
      assert v.GroupTotal(1, verdict, p, d, whole) == if verdict == Prefer && p == 0 then 2 else 0;
      assert v.GroupTotal(2, verdict, p, d, whole) ==
             v.GroupTotal(1, verdict, p, d, whole) + if verdict == Usable && p == 0 then 1 else 0;
    }
  }

  /** Group A comes first in every order, being the one whose package can complete the request. */
  lemma GroupAComesFirst(v: View, idle: seq<CacheGroup>, used: seq<CacheGroup>, ctx: GroupContext)
    requires WantsThree(v) && v.GroupsSorted(idle, used, ctx)
    ensures idle == [GROUP_A, GROUP_C] && used == [GROUP_B]
  {
    hide View.GroupTotal, View.GroupCpus, View.VerdictOf;
    ThreeGroupsCpus(v);
    ThreeGroupsTotals(v, 0);
    ThreeGroupsTotals(v, 1);
    var groups := v.topo.cacheGroups;
    assert groups[..3] == groups && groups[0] == GROUP_A && groups[1] == GROUP_B && groups[2] == GROUP_C;
    JustThese(idle, GROUP_A, GROUP_C);
    JustThis(used, GROUP_B);
    assert ctx.part == 1 && ctx.full == 2;
    assert ctx.IdleCmp()(GROUP_C, GROUP_A) > 0;
  }

  lemma JustThese(s: seq<CacheGroup>, a: CacheGroup, b: CacheGroup)
    requires Distinct(s) && a != b && forall g :: g in s <==> g == a || g == b
    ensures s == [a, b] || s == [b, a]
  {
    DistinctElements(s);
    assert Elements(s) == {a, b};
    assert s[0] in s && s[1] in s;
  }

  lemma JustThis(s: seq<CacheGroup>, a: CacheGroup)
    requires Distinct(s) && forall g :: g in s <==> g == a
    ensures s == [a]
  {
    DistinctElements(s);
    assert Elements(s) == {a};
    assert s[0] in s;
  }

  /**
   Package 0 is chosen and has just the 3 CPUs that are wanted, yet idle group C of package 1 is split
   before the used group B is considered.
   */
  lemma IdleGroupsLeavePackage(v: View, idle: seq<CacheGroup>, used: seq<CacheGroup>, ctx: GroupContext)
    requires WantsThree(v) && v.GroupsSorted(idle, used, ctx)
    ensures ChosenPackage(idle, used) == 0 && PackageTotal(idle, used, ctx) == v.cnt
    ensures v.Completes(idle, used, ctx) && !v.StaysInPackage(idle, used)
  {
    hide View.GroupTotal, View.GroupCpus, View.VerdictOf, View.PicksGroups, Ordered;
    GroupAComesFirst(v, idle, used, ctx);
    ThreeGroupsCpus(v);
    ThreeGroupsTotals(v, 0);
    var units := v.FreeUnits(idle);
    var a, c: CpuSet := {0, 1}, {4, 5};
    assert units[0] == a && units[1] == c && |a| == 2 && |c| == 2;
    assert Total(units, 1) == Total(units, 0) + 2 && Total(units, 2) == Total(units, 1) + 2;
    LeadingIs(idle, 0, 1);
  }

  // ---- entry points

  /**
   Allocates cnt CPUs of `from`. Fails if there are not that many. Otherwise returns the allocated
   CPUs and what is left of `from`; if `from` has too few usable CPUs nothing is returned, although
   the usable ones are gone from what is left.
   */
  method AllocateCpus(topo: Topo, from: CpuSet, cnt: int, flags: Flags, prefer: CpuPriority)
    returns (ok: bool, result: CpuSet, left: CpuSet)
    requires topo.WellFormed()
    ensures ok <==> cnt <= |from|
    ensures !ok || cnt < 0 ==> result == {} && left == from
    ensures 0 <= cnt <= |from| && Allocatable(topo, from, cnt) ==>
              |result| == cnt && result <= from && left == from - result
    ensures 0 <= cnt <= |from| && !Allocatable(topo, from, cnt) ==>
              result == {} && left == from - topo.Usable()
    ensures 0 <= cnt < |from| ==> from - left <= topo.Usable()
    ensures 0 <= cnt <= |from| ==> Allocated(topo, flags, prefer, from, cnt, result, left)
  {
    hide Staged;
    if |from| < cnt {
      return false, {}, from;
    }
    if |from| == cnt {
      assert from - from == {};
      return true, from, {};
    }
    var a := new Helper(topo, flags, prefer, from, cnt);
    ghost var trace;
    result, trace := a.Allocate();
    ok, left := true, a.from;
    if a.cnt == 0 {
      assert from - (from - left) == left;
    }
  }

  /** All of `from` is wanted, or enough of it can be used. */
  ghost predicate Allocatable(topo: Topo, from: CpuSet, cnt: int) {
    cnt == |from| || cnt <= |from * topo.Usable()|
  }

  /** CPUs 0, 1 and 2, of which only CPU 0 is online. */
  function OneOnline(): Topo {
    Topo([0, 1, 2], {1, 2}, [0], map[0 := {0, 1, 2}], map[0 := {0}], map[0 := 0], 1, PriorityMap({}, {}, {}), [], [])
  }

  lemma OneOnlineUsable()
    ensures OneOnline().Usable() == {0}
  {
    var ids := OneOnline().cpuIds;
    forall c ensures c in OneOnline().Usable() <==> c == 0 {
      if c == 0 { assert ids[0] == c; }
    }
  }

  lemma OneOnlineWellFormed()
    ensures OneOnline().WellFormed()
  {
    OneOnlineUsable();
    var topo := OneOnline();
    assert topo.cpuIds[0] == 0 && topo.cpuIds[1] == 1 && topo.cpuIds[2] == 2;
    assert topo.PackagesPartition() by {
      assert topo.packageIds[0] == 0;
      assert forall c :: c in topo.PkgSet(0) ==> c in topo.cpuIds;
    }
    assert topo.CoresPartition();
  }

  /** Such a case: two of these CPUs are wanted. None is allocated, yet CPU 0 is gone from what is left. */
  lemma OfflineCpusLoseOnlineOnes(from: CpuSet)
    requires from == {0, 1, 2}
    ensures OneOnline().WellFormed() && |from| > 2 && !Allocatable(OneOnline(), from, 2)
    ensures from - OneOnline().Usable() == {1, 2}
  {
    OneOnlineWellFormed();
    OneOnlineUsable();
    assert from * {0} == {0};
  }

  /**
   Releases cnt CPUs of `from`: allocates the ones to keep, and leaves the released ones in `from`.
   */
  method ReleaseCpus(topo: Topo, from: CpuSet, cnt: int, flags: Flags, prefer: CpuPriority)
    returns (ok: bool, kept: CpuSet, released: CpuSet)
    requires topo.WellFormed()
    ensures ok <==> cnt >= 0
    ensures !ok || cnt > |from| ==> kept == {} && released == from
    ensures 0 <= cnt <= |from| && Allocatable(topo, from, |from| - cnt) ==>
              released <= from && |released| == cnt && kept == from - released
    ensures 0 <= cnt <= |from| && !Allocatable(topo, from, |from| - cnt) ==>
              kept == {} && released == from - topo.Usable()
    ensures 0 <= cnt <= |from| ==> Allocated(topo, flags, prefer, from, |from| - cnt, kept, released)
  {
    hide Allocated, Topo.WellFormed, Topo.Usable;
    ok, kept, released := AllocateCpus(topo, from, |from| - cnt, flags, prefer);
    if 0 <= cnt <= |from| && Allocatable(topo, from, |from| - cnt) {
      SubsetSize(kept, from);
      assert from - (from - kept) == kept;
    }
  }

  /** CPUs that are all usable are always allocatable. */
  lemma UsableIsAllocatable(topo: Topo, from: CpuSet, cnt: int)
    requires from <= topo.Usable() && cnt <= |from|
    ensures Allocatable(topo, from, cnt)
  {
    assert from * topo.Usable() == from;
  }
}
